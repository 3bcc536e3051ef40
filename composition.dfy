/**
 * Nucleotide composition of a DNA string and the data of the composition pie
 * chart (`DNAVisualizer.analyze_nucleotide_composition` and the filter in
 * `DNAVisualizer.plot_nucleotide_composition`).
 *
 * The Python dict is ordered; it is modelled as a sequence of (key, value)
 * pairs in insertion order. Percentages are exact reals.
 */
module NucleotideComposition {
  import opened Wrappers
  import opened Text
  import opened Ratios

  type Composition = seq<(string, real)>

  /** The bases whose percentages the composition reports, in the source's order. */
  const Nucleotides: seq<char> := ['A', 'T', 'G', 'C', 'N']

  const GcContentKey: string := "GC_content"

  /** The string the percentages are taken over: upper-cased, spaces removed. */
  function Normalized(sequence: string): string
  {
    Drop(Upper(sequence), ' ')
  }

  function Entry(s: string, base: char): (string, real)
  {
    ([base], Percent(Count(s, base), |s|))
  }

  /** The composition dict the source builds: `{}` for empty input, else A, T, G, C, N and GC_content. */
  function CompositionOf(sequence: string): Composition
  {
    if sequence == [] then []
    else
      var s := Normalized(sequence);
      [Entry(s, 'A'), Entry(s, 'T'), Entry(s, 'G'), Entry(s, 'C'), Entry(s, 'N'),
       (GcContentKey, GcPercent(s))]
  }

  /** `(count(G) + count(C)) / len * 100`, 0 for an empty string. */
  function GcPercent(s: string): real
  {
    CountGcBound(s);
    Percent(Count(s, 'G') + Count(s, 'C'), |s|)
  }

  lemma {:induction false} CountGcBound(s: string)
    ensures Count(s, 'G') + Count(s, 'C') <= |s|
  {
    if s != [] {
      CountGcBound(s[1..]);
    }
  }

  /** The value stored under `key`, as `composition.get(key)` gives it. */
  function Get(composition: Composition, key: string): Option<real>
  {
    if composition == [] then None
    else if composition[0].0 == key then Some(composition[0].1)
    else Get(composition[1..], key)
  }

  /** The dict is filled one nucleotide at a time, then GC_content is added. */
  method AnalyzeNucleotideComposition(sequence: string) returns (composition: Composition)
    ensures composition == CompositionOf(sequence)
  {
    if sequence == [] {
      return [];
    }
    var s := Drop(Upper(sequence), ' ');
    var total := |s|;
    composition := [];
    var k := 0;
    while k < |Nucleotides|
      invariant 0 <= k <= |Nucleotides|
      invariant composition == CompositionOf(sequence)[..k]
    {
      var nucleotide := Nucleotides[k];
      var count := Count(s, nucleotide);
      composition := composition + [([nucleotide], Percent(count, total))];
      k := k + 1;
    }
    var gcCount := Count(s, 'G') + Count(s, 'C');
    CountGcBound(s);
    composition := composition + [(GcContentKey, Percent(gcCount, total))];
  }

  /** Empty input gives the empty dict; any other input gives exactly the six keys. */
  lemma CompositionKeys(sequence: string)
    ensures CompositionOf(sequence) == [] <==> sequence == []
    ensures sequence != [] ==>
      |CompositionOf(sequence)| == 6 &&
      (forall k :: 0 <= k < 5 ==> CompositionOf(sequence)[k].0 == [Nucleotides[k]]) &&
      CompositionOf(sequence)[5].0 == GcContentKey
  {
  }

  /** Input made only of spaces is not empty, so every value is 0 rather than the dict being empty. */
  lemma {:induction false} OnlySpacesGivesZeros(sequence: string)
    requires sequence != []
    requires forall i :: 0 <= i < |sequence| ==> sequence[i] == ' '
    ensures forall k :: 0 <= k < |CompositionOf(sequence)| ==> CompositionOf(sequence)[k].1 == 0.0
  {
    var u := Upper(sequence);
    assert forall i :: 0 <= i < |u| ==> u[i] == ' ';
    DropAllOfOne(u, ' ');
  }

  lemma {:induction false} DropAllOfOne(s: string, c: char)
    requires forall i :: 0 <= i < |s| ==> s[i] == c
    ensures Drop(s, c) == []
  {
    if s != [] {
      DropAllOfOne(s[1..], c);
    }
  }

  /** Every value of the composition is a percentage. */
  lemma PercentagesInRange(sequence: string)
    ensures forall k :: 0 <= k < |CompositionOf(sequence)| ==> 0.0 <= CompositionOf(sequence)[k].1 <= 100.0
  {
  }

  /** GC_content is the G percentage plus the C percentage. */
  lemma GcIsGPlusC(sequence: string)
    requires sequence != []
    ensures Get(CompositionOf(sequence), GcContentKey) ==
            Some(CompositionOf(sequence)[2].1 + CompositionOf(sequence)[3].1)
    ensures CompositionOf(sequence)[2].0 == "G" && CompositionOf(sequence)[3].0 == "C"
  {
    var c := CompositionOf(sequence);
    var s := Normalized(sequence);
    GcEntryFound(c);
    CountGcBound(s);
    PercentAdd(Count(s, 'G'), Count(s, 'C'), |s|);
  }

  /** In a composition of six entries, the five one-letter keys come before GC_content, so the lookup reaches the last entry. */
  lemma GcEntryFound(c: Composition)
    requires |c| == 6 && c[5].0 == GcContentKey
    requires forall j :: 0 <= j < 5 ==> |c[j].0| == 1
    ensures Get(c, GcContentKey) == Some(c[5].1)
  {
    GetSkips(c, GcContentKey, 5);
  }

  /** A lookup passes over the entries with other keys. */
  lemma {:induction false} GetSkips(composition: Composition, key: string, k: nat)
    requires k < |composition| && composition[k].0 == key
    requires forall j :: 0 <= j < k ==> composition[j].0 != key
    ensures Get(composition, key) == Some(composition[k].1)
  {
    if k > 0 {
      GetSkips(composition[1..], key, k - 1);
    }
  }

  /** The sum of the five base percentages (A, T, G, C, N). */
  function BaseSum(sequence: string): real
    requires sequence != []
  {
    var c := CompositionOf(sequence);
    c[0].1 + c[1].1 + c[2].1 + c[3].1 + c[4].1
  }

  /**
   * The five base percentages add up to at most 100, and to exactly 100 when
   * every character left after upper-casing and removing spaces is one of
   * A, T, G, C, N; any other character (a newline, a digit) still counts in the length.
   */
  lemma BaseSumAtMost100(sequence: string)
    requires sequence != []
    ensures BaseSum(sequence) <= 100.0
    ensures BaseSum(sequence) == 100.0 <==>
      Normalized(sequence) != [] && forall x :: x in Normalized(sequence) ==> x in Nucleotides
  {
    var s := Normalized(sequence);
    var a, t, g, c, n := Count(s, 'A'), Count(s, 'T'), Count(s, 'G'), Count(s, 'C'), Count(s, 'N');
    NucleotideCounts(s);
    FivePercents(a, t, g, c, n, |s|);
    assert BaseSum(sequence) == Percent(a + t + g + c + n, |s|);
  }

  /** The occurrences of the five bases add up to at most `|s|`, and to `|s|` exactly when `s` holds no other character. */
  lemma NucleotideCounts(s: string)
    ensures SumCounts(s, Nucleotides) == Count(s, 'A') + Count(s, 'T') + Count(s, 'G') + Count(s, 'C') + Count(s, 'N')
    ensures SumCounts(s, Nucleotides) <= |s|
    ensures SumCounts(s, Nucleotides) == |s| <==> forall x :: x in s ==> x in Nucleotides
  {
    NucleotidesDistinct();
    SumCountsBound(s, Nucleotides);
    SumOfFive(s, Nucleotides);
  }

  lemma NucleotidesDistinct()
    ensures Distinct(Nucleotides)
  {
  }

  lemma SumOfFive(s: string, cs: seq<char>)
    requires |cs| == 5
    ensures SumCounts(s, cs) == Count(s, cs[0]) + Count(s, cs[1]) + Count(s, cs[2]) + Count(s, cs[3]) + Count(s, cs[4])
  {
    var t1, t2, t3, t4 := cs[1..], cs[2..], cs[3..], cs[4..];
    assert t1[0] == cs[1] && t1[1..] == t2;
    assert t2[0] == cs[2] && t2[1..] == t3;
    assert t3[0] == cs[3] && t3[1..] == t4;
    assert t4[0] == cs[4] && t4[1..] == [];
    assert SumCounts(s, t4) == Count(s, cs[4]);
    assert SumCounts(s, t3) == Count(s, cs[3]) + SumCounts(s, t4);
    assert SumCounts(s, t2) == Count(s, cs[2]) + SumCounts(s, t3);
    assert SumCounts(s, t1) == Count(s, cs[1]) + SumCounts(s, t2);
  }

  /** Five percentages of one total add up to the percentage of the summed counts. */
  lemma FivePercents(a: nat, t: nat, g: nat, c: nat, n: nat, total: nat)
    requires a + t + g + c + n <= total
    ensures Percent(a, total) + Percent(t, total) + Percent(g, total) + Percent(c, total) + Percent(n, total)
         == Percent(a + t + g + c + n, total)
  {
    PercentAdd(a, t, total);
    PercentAdd(a + t, g, total);
    PercentAdd(a + t + g, c, total);
    PercentAdd(a + t + g + c, n, total);
  }

  /** What the pie chart shows: the data to plot, or the "no data" annotation. */
  datatype PieChart = NoValidNucleotideData | Pie(slices: Composition, gcContent: real)

  predicate IsSliceKey(entry: (string, real))
  {
    entry.1 > 0.0 && entry.0 != GcContentKey && entry.0 != "N"
  }

  /** `{k: v for k, v in composition.items() if v > 0 and k not in ["GC_content", "N"]}` */
  function Slices(composition: Composition): (r: Composition)
    ensures forall e :: e in r <==> e in composition && IsSliceKey(e)
    ensures |r| <= |composition|
  {
    if composition == [] then []
    else (if IsSliceKey(composition[0]) then [composition[0]] else []) + Slices(composition[1..])
  }

  function NucleotidePie(sequence: string): PieChart
  {
    var composition := CompositionOf(sequence);
    var slices := Slices(composition);
    if slices == [] then NoValidNucleotideData
    else Pie(slices, match Get(composition, GcContentKey) case Some(v) => v case None => 0.0)
  }

  /**
   * The pie keeps exactly the A, T, G, C entries with a positive value, in
   * that order, and reports "No valid nucleotide data" exactly when none of
   * A, T, G, C occurs (after upper-casing) — in particular for empty input.
   */
  lemma PieSlicesExact(sequence: string)
    ensures NucleotidePie(sequence).NoValidNucleotideData? <==>
      var s := Normalized(sequence);
      'A' !in s && 'T' !in s && 'G' !in s && 'C' !in s
    ensures NucleotidePie(sequence).Pie? ==>
      var c := CompositionOf(sequence);
      NucleotidePie(sequence).slices == Slices(c[..4]) &&
      NucleotidePie(sequence).gcContent == c[5].1
  {
    var c := CompositionOf(sequence);
    var s := Normalized(sequence);
    if sequence != [] {
      SlicesDropTail(c);
      GcEntryFound(c);
      var c4 := c[..4];
      SlicesEmptyIff(c4);
      assert c4 == [Entry(s, 'A'), Entry(s, 'T'), Entry(s, 'G'), Entry(s, 'C')];
      SliceKeyIffPresent(s, 'A');
      SliceKeyIffPresent(s, 'T');
      SliceKeyIffPresent(s, 'G');
      SliceKeyIffPresent(s, 'C');
    }
  }

  lemma SliceKeyIffPresent(s: string, base: char)
    requires base != 'N'
    ensures IsSliceKey(Entry(s, base)) <==> base in s
  {
    CountZeroIff(s, base);
  }

  /** N and GC_content never reach the pie. */
  lemma SlicesDropTail(c: Composition)
    requires |c| == 6 && c[4].0 == "N" && c[5].0 == GcContentKey
    ensures Slices(c) == Slices(c[..4])
  {
    assert c == c[..4] + [c[4], c[5]];
    SlicesConcat(c[..4], [c[4], c[5]]);
    assert [c[4], c[5]][1..] == [c[5]];
  }

  lemma SlicesEmptyIff(c: Composition)
    ensures Slices(c) == [] <==> forall k :: 0 <= k < |c| ==> !IsSliceKey(c[k])
  {
    if Slices(c) == [] {
      forall k | 0 <= k < |c| ensures !IsSliceKey(c[k]) {
        assert c[k] in c;
      }
    } else {
      var e := Slices(c)[0];
      assert e in Slices(c);
    }
  }

  lemma {:induction false} SlicesConcat(a: Composition, b: Composition)
    ensures Slices(a + b) == Slices(a) + Slices(b)
  {
    if a == [] {
      assert a + b == b;
    } else {
      assert (a + b)[1..] == a[1..] + b;
      SlicesConcat(a[1..], b);
    }
  }
}
