/**
 * The Kyte–Doolittle hydropathy computations of `DNAVisualizer`:
 * the sliding-window profile of `plot_hydrophobicity_profile`, the mean
 * hydropathy of `analyze_protein_properties`, and the amino-acid percentages
 * `plot_amino_acid_composition` falls back to when the protein library
 * reports none.
 */
module Hydropathy {
  import opened Wrappers
  import opened Text
  import opened Ratios

  /** The 20 standard residues the cleaning regular expressions keep. */
  const Residues: set<char> := {'A', 'C', 'D', 'E', 'F', 'G', 'H', 'I', 'K', 'L',
                                'M', 'N', 'P', 'Q', 'R', 'S', 'T', 'V', 'W', 'Y'}

  /** The Kyte & Doolittle (1982) hydropathy scale; any other character scores 0 (`kyte_doolittle.get(aa, 0)`). */
  function KyteDoolittle(aa: char): real
  {
    match aa
    case 'A' => 1.8
    case 'R' => -4.5
    case 'N' => -3.5
    case 'D' => -3.5
    case 'C' => 2.5
    case 'Q' => -3.5
    case 'E' => -3.5
    case 'G' => -0.4
    case 'H' => -3.2
    case 'I' => 4.5
    case 'L' => 3.8
    case 'K' => -3.9
    case 'M' => 1.9
    case 'F' => 2.8
    case 'P' => -1.6
    case 'S' => -0.8
    case 'T' => -0.7
    case 'W' => -0.9
    case 'Y' => -1.3
    case 'V' => 4.2
    case _ => 0.0
  }

  /** `sum(kyte_doolittle.get(aa, 0) for aa in window)` */
  function HydroSum(window: string): real
  {
    if window == [] then 0.0 else HydroSum(window[..|window| - 1]) + KyteDoolittle(window[|window| - 1])
  }

  /** The mean score of the `windowSize` residues starting at `i`. */
  function WindowMean(s: string, i: nat, windowSize: nat): real
    requires windowSize > 0 && i + windowSize <= |s|
  {
    HydroSum(s[i..i + windowSize]) / windowSize as real
  }

  /** Every score lies between arginine's -4.5 and isoleucine's 4.5. */
  lemma ScaleBounds(aa: char)
    ensures -4.5 <= KyteDoolittle(aa) <= 4.5
    ensures aa !in Residues ==> KyteDoolittle(aa) == 0.0
  {
  }

  lemma {:induction false} HydroSumBounds(window: string)
    ensures -4.5 * |window| as real <= HydroSum(window) <= 4.5 * |window| as real
  {
    if window != [] {
      var n := |window|;
      HydroSumBounds(window[..n - 1]);
      ScaleBounds(window[n - 1]);
      assert 4.5 * n as real == 4.5 * (n - 1) as real + 4.5;
    }
  }

  /** A window mean is itself on the scale: within [-4.5, 4.5]. */
  lemma WindowMeanBounds(s: string, i: nat, windowSize: nat)
    requires windowSize > 0 && i + windowSize <= |s|
    ensures -4.5 <= WindowMean(s, i, windowSize) <= 4.5
  {
    var w := windowSize as real;
    var h := HydroSum(s[i..i + windowSize]);
    HydroSumBounds(s[i..i + windowSize]);
    DivideBounds(h, -4.5, 4.5, w);
  }

  // ---------------------------------------------------------------------------
  // plot_hydrophobicity_profile

  /** What the profile plot is fed, or why it is not drawn. */
  datatype Profile =
    | SequenceTooShort                 // "Sequence too short for analysis"
    | CleanedSequenceTooShort          // "Cleaned sequence too short"
    | CalculationError                 // the division by a zero window size is caught and reported
    | Curve(positions: seq<int>, values: seq<real>)

  /** `re.sub(r"[^ACDEFGHIKLMNPQRSTVWY]", "", sequence.upper())` */
  function CleanProtein(sequence: string): (r: string)
    ensures forall x :: x in r ==> x in Residues
    ensures forall c :: c in Residues ==> Count(r, c) == Count(Upper(sequence), c)
  {
    KeepOnlyCounts(Upper(sequence), Residues);
    KeepOnly(Upper(sequence), Residues)
  }

  method HydrophobicityProfile(sequence: string, windowSize: int) returns (r: Profile)
    requires windowSize >= 0
    ensures r.SequenceTooShort? <==> sequence == [] || |sequence| < windowSize
    ensures r.CleanedSequenceTooShort? <==>
      !(sequence == [] || |sequence| < windowSize) && |CleanProtein(sequence)| < windowSize
    ensures r.CalculationError? <==> sequence != [] && windowSize == 0
    ensures r.Curve? ==>
      var s := CleanProtein(sequence);
      windowSize > 0 &&
      |r.values| == |r.positions| == |s| - windowSize + 1 &&
      forall i :: 0 <= i < |r.values| ==>
        r.positions[i] == i + windowSize / 2 + 1 &&
        r.values[i] == WindowMean(s, i, windowSize)
  {
    if sequence == [] || |sequence| < windowSize {
      return SequenceTooShort;
    }
    var s := KeepOnly(Upper(sequence), Residues);
    if |s| < windowSize {
      return CleanedSequenceTooShort;
    }
    if windowSize == 0 {
      // The first iteration divides by `window_size`; the ZeroDivisionError is caught.
      return CalculationError;
    }
    var hydrophobicity: seq<real> := [];
    var positions: seq<int> := [];
    var i := 0;
    while i < |s| - windowSize + 1
      invariant 0 <= i <= |s| - windowSize + 1
      invariant |hydrophobicity| == |positions| == i
      invariant forall k :: 0 <= k < i ==> positions[k] == k + windowSize / 2 + 1
      invariant forall k :: 0 <= k < i ==> hydrophobicity[k] == WindowMean(s, k, windowSize)
    {
      var hydroSum := HydroSum(s[i..i + windowSize]);
      ghost var before := hydrophobicity;
      hydrophobicity := hydrophobicity + [hydroSum / windowSize as real];
      positions := positions + [i + windowSize / 2 + 1];
      forall k | 0 <= k < i + 1
        ensures hydrophobicity[k] == WindowMean(s, k, windowSize)
      {
        if k < i {
          assert hydrophobicity[k] == before[k];
        }
      }
      i := i + 1;
    }
    return Curve(positions, hydrophobicity);
  }

  /** The profile's values are on the scale, and its positions run up by exactly one. */
  lemma ProfileShape(s: string, windowSize: nat, positions: seq<int>, values: seq<real>)
    requires windowSize > 0 && windowSize <= |s|
    requires |values| == |positions| == |s| - windowSize + 1
    requires forall i :: 0 <= i < |values| ==>
      positions[i] == i + windowSize / 2 + 1 && values[i] == WindowMean(s, i, windowSize)
    ensures forall i :: 0 <= i < |values| ==> -4.5 <= values[i] <= 4.5
    ensures forall i :: 0 <= i < |positions| - 1 ==> positions[i + 1] == positions[i] + 1
    ensures positions[0] == windowSize / 2 + 1
  {
    forall i | 0 <= i < |values|
      ensures -4.5 <= values[i] <= 4.5
    {
      WindowMeanBounds(s, i, windowSize);
    }
  }

  // ---------------------------------------------------------------------------
  // analyze_protein_properties

  /** The residues and the stop symbol `*` kept by the properties analysis. */
  const ResiduesAndStop: set<char> := Residues + {'*'}

  /** `re.sub(r"[^ACDEFGHIKLMNPQRSTVWY*]", "", sequence.upper())` */
  function CleanProteinKeepStop(sequence: string): (r: string)
    ensures forall x :: x in r ==> x in ResiduesAndStop
    ensures forall c :: c in ResiduesAndStop ==> Count(r, c) == Count(Upper(sequence), c)
  {
    KeepOnlyCounts(Upper(sequence), ResiduesAndStop);
    KeepOnly(Upper(sequence), ResiduesAndStop)
  }

  /** The window means over windows of 9 of the cleaned protein, in order. */
  function NineWindowMeans(s: string): (r: seq<real>)
    requires |s| >= 9
    ensures |r| == |s| - 8
    ensures forall i :: 0 <= i < |r| ==> r[i] == WindowMean(s, i, 9)
  {
    seq(|s| - 8, i requires 0 <= i < |s| - 8 => WindowMean(s, i, 9))
  }

  /** The reported "hydrophobicity": the mean of the 9-residue window means, or 0 for shorter proteins. */
  function MeanHydropathy(s: string): real
  {
    if |s| >= 9 then Mean(NineWindowMeans(s)) else 0.0
  }

  /** The `hydro_values` loop of `analyze_protein_properties`, followed by `np.mean`. */
  method ProteinHydrophobicity(s: string) returns (hydrophobicity: real)
    ensures hydrophobicity == MeanHydropathy(s)
  {
    if |s| < 9 {
      return 0.0;
    }
    var window := 9;
    var hydroValues: seq<real> := [];
    var i := 0;
    while i < |s| - window + 1
      invariant 0 <= i <= |s| - window + 1
      invariant hydroValues == NineWindowMeans(s)[..i]
    {
      var hydroSum := HydroSum(s[i..i + window]);
      hydroValues := hydroValues + [hydroSum / window as real];
      i := i + 1;
    }
    assert hydroValues == NineWindowMeans(s);
    hydrophobicity := Mean(hydroValues);
  }

  /** The mean hydropathy is on the scale, whatever the protein. */
  lemma MeanHydropathyBounds(s: string)
    ensures -4.5 <= MeanHydropathy(s) <= 4.5
  {
    if |s| >= 9 {
      var values := NineWindowMeans(s);
      forall i | 0 <= i < |values|
        ensures -4.5 <= values[i] <= 4.5
      {
        WindowMeanBounds(s, i, 9);
      }
      MeanBounds(values, -4.5, 4.5);
    }
  }

  /**
   * The outcome of the external protein library on the cleaned protein: it
   * raises (with a message), or gives the fraction of each amino acid
   * (`get_amino_acids_percent`). Its other outputs are not part of this model.
   */
  datatype LibraryOutcome = LibraryRaises(message: string) | AminoAcidFractions(fractions: seq<(char, real)>)

  /** The parts of the properties dict this model tracks. */
  datatype ProteinProperties =
    | NoProperties                                  // `{}`
    | AnalysisError(length: nat, error: string)     // `{"length": ..., "error": ...}`
    | Properties(length: nat, hydrophobicity: real, aminoAcidPercents: seq<(char, real)>)

  /** `{f"aa_{aa}": percent * 100 for aa, percent in aa_percent.items()}`, keys without their prefix. */
  function ScalePercents(fractions: seq<(char, real)>): (r: seq<(char, real)>)
    ensures |r| == |fractions|
    ensures forall i :: 0 <= i < |r| ==> r[i] == (fractions[i].0, fractions[i].1 * 100.0)
  {
    seq(|fractions|, i requires 0 <= i < |fractions| => (fractions[i].0, fractions[i].1 * 100.0))
  }

  function AnalyzeProteinProperties(sequence: string, library: LibraryOutcome): (r: ProteinProperties)
    ensures r.NoProperties? <==> CleanProteinKeepStop(sequence) == []
    ensures r.AnalysisError? <==> CleanProteinKeepStop(sequence) != [] && library.LibraryRaises?
    ensures r.AnalysisError? ==> r == AnalysisError(|CleanProteinKeepStop(sequence)|, library.message)
    ensures r.Properties? ==>
      r.length == |CleanProteinKeepStop(sequence)| &&
      -4.5 <= r.hydrophobicity <= 4.5 &&
      r.hydrophobicity == MeanHydropathy(CleanProteinKeepStop(sequence)) &&
      r.aminoAcidPercents == ScalePercents(library.fractions)
  {
    if sequence == [] then NoProperties
    else
      var s := CleanProteinKeepStop(sequence);
      if s == [] then NoProperties
      else match library
        case LibraryRaises(message) => AnalysisError(|s|, message)
        case AminoAcidFractions(fractions) =>
          MeanHydropathyBounds(s);
          Properties(|s|, MeanHydropathy(s), ScalePercents(fractions))
  }

  // ---------------------------------------------------------------------------
  // plot_amino_acid_composition

  /** What the amino-acid bar chart is fed. */
  datatype AminoAcidChart =
    | AnalysisErrorNote(error: string)                  // "Analysis error: ..."
    | LibraryBars(data: seq<(char, real)>)              // the library's percentages
    | CountedBars(data: seq<(char, real)>)              // the `Counter` fallback
    | NoValidAminoAcidData                              // "No valid amino acid data found"

  /** The distinct characters of `s` in order of first occurrence, the key order of `Counter(s)`. */
  function FirstOccurrences(s: string): (r: seq<char>)
    ensures Distinct(r)
    ensures forall x :: x in r <==> x in s
  {
    if s == [] then []
    else
      var p := FirstOccurrences(s[..|s| - 1]);
      var last := s[|s| - 1];
      assert forall x :: x in s <==> x in s[..|s| - 1] || x == last;
      if last in p then p else p + [last]
  }

  /** `{aa: (count / total) * 100 for aa, count in Counter(s).items()}` */
  function CountedPercents(s: string): (r: seq<(char, real)>)
  {
    var keys := FirstOccurrences(s);
    seq(|keys|, i requires 0 <= i < |keys| => (keys[i], Percent(Count(s, keys[i]), |s|)))
  }

  function AminoAcidChartOf(sequence: string, library: LibraryOutcome): AminoAcidChart
  {
    var properties := AnalyzeProteinProperties(sequence, library);
    if properties.AnalysisError? then AnalysisErrorNote(properties.error)
    else
      var aaData := if properties.Properties? then properties.aminoAcidPercents else [];
      if aaData != [] then LibraryBars(aaData)
      else
        var cleanSeq := CleanProtein(sequence);
        if cleanSeq != [] then CountedBars(CountedPercents(cleanSeq))
        else NoValidAminoAcidData
  }

  /**
   * The counting fallback is only reached when the library ran and reported
   * no amino acids: if the properties analysis found nothing to analyse, the
   * narrower cleaning of the fallback finds nothing either.
   */
  lemma FallbackOnlyAfterEmptyLibraryResult(sequence: string, library: LibraryOutcome)
    ensures AminoAcidChartOf(sequence, library).CountedBars? ==> library == AminoAcidFractions([])
    ensures AminoAcidChartOf(sequence, library).NoValidAminoAcidData? <==>
      CleanProtein(sequence) == [] &&
      (CleanProteinKeepStop(sequence) == [] || library == AminoAcidFractions([]))
  {
    var u := Upper(sequence);
    if CleanProteinKeepStop(sequence) == [] {
      KeepOnlyNarrower(u, ResiduesAndStop, Residues);
    }
  }

  /** Removing characters from the kept class cannot turn an empty result into a non-empty one. */
  lemma {:induction false} KeepOnlyNarrower(s: string, wide: set<char>, narrow: set<char>)
    requires narrow <= wide && KeepOnly(s, wide) == []
    ensures KeepOnly(s, narrow) == []
  {
    if s != [] {
      assert s[0] !in wide;
      KeepOnlyNarrower(s[1..], wide, narrow);
    }
  }

  /**
   * The fallback bars name each residue of the cleaned protein once, in order
   * of first occurrence, and their percentages add up to 100.
   */
  lemma CountedPercentsComplete(s: string)
    requires s != []
    ensures forall aa :: aa in s <==> exists i :: 0 <= i < |CountedPercents(s)| && CountedPercents(s)[i].0 == aa
    ensures forall i :: 0 <= i < |CountedPercents(s)| ==> CountedPercents(s)[i].1 > 0.0
    ensures SumValues(CountedPercents(s)) == 100.0
  {
    var keys := FirstOccurrences(s);
    var r := CountedPercents(s);
    forall aa | aa in s
      ensures exists i :: 0 <= i < |r| && r[i].0 == aa
    {
      var i :| 0 <= i < |keys| && keys[i] == aa;
      assert r[i].0 == aa;
    }
    forall i | 0 <= i < |r|
      ensures r[i].1 > 0.0
    {
      assert keys[i] in keys;
      CountZeroIff(s, keys[i]);
    }
    SumCountsBound(s, keys);
    PercentSum(s, keys);
    assert r == seq(|keys|, i requires 0 <= i < |keys| => (keys[i], Percent(Count(s, keys[i]), |s|)));
  }

  function SumValues(entries: seq<(char, real)>): real
  {
    if entries == [] then 0.0 else entries[0].1 + SumValues(entries[1..])
  }

  lemma {:induction false} PercentSum(s: string, keys: seq<char>)
    requires SumCounts(s, keys) <= |s|
    ensures SumValues(seq(|keys|, i requires 0 <= i < |keys| => (keys[i], Percent(Count(s, keys[i]), |s|))))
            == Percent(SumCounts(s, keys), |s|)
  {
    var r := seq(|keys|, i requires 0 <= i < |keys| => (keys[i], Percent(Count(s, keys[i]), |s|)));
    if keys != [] {
      var tail := seq(|keys| - 1, i requires 0 <= i < |keys| - 1 => (keys[1..][i], Percent(Count(s, keys[1..][i]), |s|)));
      assert r[1..] == tail;
      PercentSum(s, keys[1..]);
      PercentAdd(Count(s, keys[0]), SumCounts(s, keys[1..]), |s|);
    }
  }
}
