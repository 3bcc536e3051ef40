/**
 * The sliding-window GC signal of `DNAVisualizer.plot_gc_content_window`:
 * windows of `windowSize` characters start at 0, step, 2*step, ... with
 * `step = windowSize // 4`, and each yields a position and a GC percentage.
 */
module GcWindow {
  import opened Text
  import opened Ratios
  import opened NucleotideComposition

  /** The data the line plot is fed, or the condition that stops the analysis. */
  datatype GcSignal =
    | SequenceTooShort          // "Sequence too short for analysis"
    | StepIsZero                // `range(...)` raises ValueError when `windowSize // 4 == 0`
    | Signal(positions: seq<int>, gcContents: seq<real>)

  /** `windowSize // 4`: Python's floor division, which Dafny's `/` agrees with for a positive divisor. */
  function Step(windowSize: int): int
  {
    windowSize / 4
  }

  /** The number of values `range(0, length - windowSize + 1, step)` produces for a positive step. */
  function WindowCount(length: nat, windowSize: int, step: int): nat
    requires step > 0
  {
    if length < windowSize then 0 else (length - windowSize) / step + 1
  }

  /** The `k`-th window's start is `k * step`, and it lies inside the cleaned string. */
  predicate WindowAt(s: string, windowSize: int, step: int, k: int, position: int, gc: real)
  {
    0 <= k && 0 <= k * step && k * step + windowSize <= |s| && 0 <= windowSize &&
    position == k * step + windowSize / 2 &&
    gc == GcPercent(s[k * step .. k * step + windowSize])
  }

  /** The signal is every window of `s` in order: one position and GC percentage per window. */
  predicate Windows(s: string, windowSize: int, step: int, positions: seq<int>, gcContents: seq<real>)
    requires step > 0
  {
    |positions| == |gcContents| == WindowCount(|s|, windowSize, step) &&
    forall k :: 0 <= k < |positions| ==> WindowAt(s, windowSize, step, k, positions[k], gcContents[k])
  }

  /**
   * The raw input is measured against the window before cleaning; the windows
   * run over the upper-cased string with spaces removed.
   */
  method GcContentWindow(sequence: string, windowSize: int) returns (r: GcSignal)
    ensures r.SequenceTooShort? <==> sequence == [] || |sequence| < windowSize
    ensures r.StepIsZero? <==> !(sequence == [] || |sequence| < windowSize) && Step(windowSize) == 0
    ensures r.Signal? && windowSize < 0 ==> r.positions == [] && r.gcContents == []
    ensures r.Signal? && windowSize >= 0 ==>
      var s := Normalized(sequence);
      var step := Step(windowSize);
      step > 0 && Windows(s, windowSize, step, r.positions, r.gcContents)
  {
    if sequence == [] || |sequence| < windowSize {
      return SequenceTooShort;
    }
    var s := Drop(Upper(sequence), ' ');
    var step := windowSize / 4;
    if step == 0 {
      return StepIsZero;
    }
    if step < 0 {
      // A negative step from 0 towards the positive bound `|sequence| - windowSize + 1` yields nothing.
      return Signal([], []);
    }
    var positions: seq<int> := [];
    var gcContents: seq<real> := [];
    var i := 0;
    while i < |s| - windowSize + 1
      invariant i == |positions| * step
      invariant |gcContents| == |positions|
      invariant |positions| > 0 ==> (|positions| - 1) * step + windowSize <= |s|
      invariant forall k :: 0 <= k < |positions| ==> WindowAt(s, windowSize, step, k, positions[k], gcContents[k])
      decreases |s| - i
    {
      var window := s[i..i + windowSize];
      var gcCount := Count(window, 'G') + Count(window, 'C');
      CountGcBound(window);
      var gcContent := Percent(gcCount, |window|);
      assert WindowAt(s, windowSize, step, |positions|, i + windowSize / 2, gcContent);
      positions := positions + [i + windowSize / 2];
      gcContents := gcContents + [gcContent];
      i := i + step;
    }
    WindowCountFromBounds(|s|, windowSize, step, |positions|);
    return Signal(positions, gcContents);
  }

  /** A loop that stops at the first multiple of `step` past `length - windowSize` has run `WindowCount` times. */
  lemma WindowCountFromBounds(length: nat, windowSize: int, step: int, n: nat)
    requires step > 0 && windowSize >= 4
    requires n * step >= length - windowSize + 1
    requires n > 0 ==> (n - 1) * step + windowSize <= length
    ensures n == WindowCount(length, windowSize, step)
  {
    if n == 0 {
    } else {
      var a := length - windowSize;
      DivideBetween(a, step, n - 1);
    }
  }

  /** `q * d <= a < (q + 1) * d` pins down `a / d == q`. */
  lemma DivideBetween(a: int, d: int, q: int)
    requires d > 0 && q * d <= a < (q + 1) * d
    ensures a / d == q
  {
    var k, m := a / d, a % d;
    assert a == k * d + m && 0 <= m < d;
    assert (k - q) * d == (a - q * d) - m;
    if k > q {
      ProductAtLeast(k - q, d);
    } else if k < q {
      ProductAtLeast(q - k, d);
    }
  }

  lemma ProductAtLeast(x: int, d: int)
    requires x >= 1 && d > 0
    ensures x * d >= d
  {
    assert x * d == (x - 1) * d + d;
  }

  /** Every GC value of the signal is a percentage, and every window holds exactly `windowSize` characters. */
  lemma WindowValuesArePercentages(s: string, windowSize: int, step: int, k: int, position: int, gc: real)
    requires WindowAt(s, windowSize, step, k, position, gc)
    ensures 0.0 <= gc <= 100.0
    ensures |s[k * step .. k * step + windowSize]| == windowSize
  {
  }
}
