/**
 * The position-weight matrix of `DNAVisualizer.plot_sequence_logo`: for each
 * position of the first sequence, the frequency of A, T, G and C among the
 * upper-cased characters the sequences have at that position.
 */
module SequenceLogo {
  import opened Text
  import opened Ratios

  /** The heatmap rows, in the source's order. */
  const HeatmapBases: seq<char> := ['A', 'T', 'G', 'C']

  datatype Heatmap =
    | NoSequenceData                  // "No sequence data available"
    | Matrix(rows: seq<seq<real>>)    // rows[b][p]: frequency of HeatmapBases[b] at position p

  /** `[seq[pos].upper() for seq in sequences if pos < len(seq)]` */
  function ColumnLetters(sequences: seq<string>, pos: nat): (r: seq<char>)
    ensures |r| <= |sequences|
  {
    if sequences == [] then []
    else (if pos < |sequences[0]| then [UpperChar(sequences[0][pos])] else []) + ColumnLetters(sequences[1..], pos)
  }

  /** `Counter(...)` of a column: each letter with its number of occurrences. */
  function Column(sequences: seq<string>, pos: nat): multiset<char>
  {
    multiset(ColumnLetters(sequences, pos))
  }

  /** `pos_count.get(nucleotide, 0) / total if total > 0 else 0` with `total = sum(pos_count.values())` */
  function Frequency(column: multiset<char>, base: char): (f: real)
    ensures 0.0 <= f <= 1.0
    ensures f == 0.0 <==> base !in column
  {
    MultiplicityAtMostSize(column, base);
    Fraction(column[base], |column|)
  }

  /** `row` holds, for each position of the first sequence, the frequency of `base` in that column. */
  predicate IsRow(row: seq<real>, sequences: seq<string>, base: char)
    requires sequences != []
  {
    |row| == |sequences[0]| &&
    forall p :: 0 <= p < |sequences[0]| ==> row[p] == Frequency(Column(sequences, p), base)
  }

  /** One heatmap row: the inner loop over the position counters. */
  method FrequencyRow(positionCounts: seq<multiset<char>>, nucleotide: char) returns (row: seq<real>)
    ensures |row| == |positionCounts|
    ensures forall q :: 0 <= q < |row| ==> row[q] == Frequency(positionCounts[q], nucleotide)
  {
    row := [];
    var p := 0;
    while p < |positionCounts|
      invariant 0 <= p <= |positionCounts| && |row| == p
      invariant forall q :: 0 <= q < p ==> row[q] == Frequency(positionCounts[q], nucleotide)
    {
      var total := |positionCounts[p]|;
      var freq := if total > 0 then positionCounts[p][nucleotide] as real / total as real else 0.0;
      row := row + [freq];
      p := p + 1;
    }
  }

  /** The `position_counts` loop: one column counter per position of the first sequence. */
  method PositionCounts(sequences: seq<string>, seqLength: nat) returns (positionCounts: seq<multiset<char>>)
    ensures |positionCounts| == seqLength
    ensures forall p :: 0 <= p < seqLength ==> positionCounts[p] == Column(sequences, p)
  {
    positionCounts := [];
    var pos := 0;
    while pos < seqLength
      invariant 0 <= pos <= seqLength && |positionCounts| == pos
      invariant forall p :: 0 <= p < pos ==> positionCounts[p] == Column(sequences, p)
    {
      var posNucleotides := ColumnLetters(sequences, pos);
      ghost var before := positionCounts;
      positionCounts := positionCounts + [multiset(posNucleotides)];
      forall p | 0 <= p < pos + 1
        ensures positionCounts[p] == Column(sequences, p)
      {
        if p < pos {
          assert positionCounts[p] == before[p];
        }
      }
      pos := pos + 1;
    }
  }

  /** The matrix is built column by column, then row by row over the bases. */
  method PositionWeightMatrix(sequences: seq<string>) returns (h: Heatmap)
    ensures h.NoSequenceData? <==> sequences == [] || sequences[0] == []
    ensures h.Matrix? ==>
      |h.rows| == |HeatmapBases| &&
      forall b :: 0 <= b < |HeatmapBases| ==> IsRow(h.rows[b], sequences, HeatmapBases[b])
  {
    if sequences == [] || sequences[0] == [] {
      return NoSequenceData;
    }
    var positionCounts := PositionCounts(sequences, |sequences[0]|);
    var heatmapData: seq<seq<real>> := [];
    var b := 0;
    while b < |HeatmapBases|
      invariant 0 <= b <= |HeatmapBases| && |heatmapData| == b
      invariant forall c :: 0 <= c < b ==> IsRow(heatmapData[c], sequences, HeatmapBases[c])
    {
      var row := FrequencyRow(positionCounts, HeatmapBases[b]);
      assert IsRow(row, sequences, HeatmapBases[b]);
      heatmapData := heatmapData + [row];
      b := b + 1;
    }
    return Matrix(heatmapData);
  }

  /** The number of sequences longer than `pos`: the contributors to column `pos`. */
  function Contributors(sequences: seq<string>, pos: nat): nat
  {
    if sequences == [] then 0 else (if pos < |sequences[0]| then 1 else 0) + Contributors(sequences[1..], pos)
  }

  /**
   * Column `pos` holds one letter per sequence longer than `pos`, so each
   * column of the first sequence has at least one contributor.
   */
  lemma {:induction false} ColumnContributors(sequences: seq<string>, pos: nat)
    ensures |Column(sequences, pos)| == Contributors(sequences, pos)
    ensures sequences != [] && pos < |sequences[0]| ==> |Column(sequences, pos)| >= 1
  {
    if sequences != [] {
      ColumnContributors(sequences[1..], pos);
    }
  }

  /** Every letter in a column is the upper-cased character some sequence has there. */
  lemma {:induction false} ColumnProvenance(sequences: seq<string>, pos: nat, x: char)
    requires x in ColumnLetters(sequences, pos)
    ensures exists i :: 0 <= i < |sequences| && pos < |sequences[i]| && UpperChar(sequences[i][pos]) == x
  {
    var head := if pos < |sequences[0]| then [UpperChar(sequences[0][pos])] else [];
    if x in head {
      assert pos < |sequences[0]| && UpperChar(sequences[0][pos]) == x;
    } else {
      ColumnProvenance(sequences[1..], pos, x);
      var i :| 0 <= i < |sequences[1..]| && pos < |sequences[1..][i]| && UpperChar(sequences[1..][i][pos]) == x;
      assert sequences[i + 1] == sequences[1..][i];
    }
  }

  lemma MultiplicityAtMostSize(m: multiset<char>, x: char)
    ensures m[x] <= |m|
  {
    var rest := m - multiset{x};
    if x in m {
      assert m == rest + multiset{x};
    } else {
      assert m[x] == 0;
    }
  }

  lemma {:induction false} MultisetCount(s: string, x: char)
    ensures multiset(s)[x] == Count(s, x)
  {
    if s != [] {
      assert s == [s[0]] + s[1..];
      MultisetCount(s[1..], x);
    }
  }

  /** The four frequencies of a column, added up. */
  function ColumnTotal(column: multiset<char>): real
  {
    Frequency(column, 'A') + Frequency(column, 'T') + Frequency(column, 'G') + Frequency(column, 'C')
  }

  /**
   * The A, T, G and C frequencies of a column add up to at most 1, and to
   * exactly 1 when the column is not empty and each of its letters is A, T, G or C.
   */
  lemma ColumnTotalAtMostOne(sequences: seq<string>, pos: nat)
    ensures ColumnTotal(Column(sequences, pos)) <= 1.0
    ensures ColumnTotal(Column(sequences, pos)) == 1.0 <==>
      ColumnLetters(sequences, pos) != [] && forall x :: x in ColumnLetters(sequences, pos) ==> x in HeatmapBases
  {
    var letters := ColumnLetters(sequences, pos);
    var column := Column(sequences, pos);
    HeatmapBasesDistinct();
    SumCountsBound(letters, HeatmapBases);
    FourCounts(letters);
    MultisetCount(letters, 'A');
    MultisetCount(letters, 'T');
    MultisetCount(letters, 'G');
    MultisetCount(letters, 'C');
    ColumnTotalIsFraction(column);
  }

  lemma ColumnTotalIsFraction(column: multiset<char>)
    requires column['A'] + column['T'] + column['G'] + column['C'] <= |column|
    ensures ColumnTotal(column) == Fraction(column['A'] + column['T'] + column['G'] + column['C'], |column|)
  {
    FourFractions(column['A'], column['T'], column['G'], column['C'], |column|);
  }

  lemma FourFractions(a: nat, t: nat, g: nat, c: nat, n: nat)
    requires a + t + g + c <= n
    ensures Fraction(a, n) + Fraction(t, n) + Fraction(g, n) + Fraction(c, n) == Fraction(a + t + g + c, n)
  {
    FractionAdd(a, t, n);
    FractionAdd(a + t, g, n);
    FractionAdd(a + t + g, c, n);
  }

  lemma FourCounts(letters: string)
    ensures SumCounts(letters, HeatmapBases) <= |letters|
    ensures SumCounts(letters, HeatmapBases) ==
      Count(letters, 'A') + Count(letters, 'T') + Count(letters, 'G') + Count(letters, 'C')
  {
    HeatmapBasesDistinct();
    SumCountsBound(letters, HeatmapBases);
    SumOfFour(letters, HeatmapBases);
  }

  lemma HeatmapBasesDistinct()
    ensures Distinct(HeatmapBases)
  {
  }

  lemma SumOfFour(s: string, cs: seq<char>)
    requires |cs| == 4
    ensures SumCounts(s, cs) == Count(s, cs[0]) + Count(s, cs[1]) + Count(s, cs[2]) + Count(s, cs[3])
  {
    var t1, t2, t3 := cs[1..], cs[2..], cs[3..];
    assert t1[0] == cs[1] && t1[1..] == t2;
    assert t2[0] == cs[2] && t2[1..] == t3;
    assert t3[0] == cs[3] && t3[1..] == [];
    assert SumCounts(s, t3) == Count(s, cs[3]);
    assert SumCounts(s, t2) == Count(s, cs[2]) + SumCounts(s, t3);
    assert SumCounts(s, t1) == Count(s, cs[1]) + SumCounts(s, t2);
  }
}
