/**
 * The double-helix builder of `DNAVisualizer.plot_dna_double_helix`: the
 * cleaning and truncation of the input, the helix coordinates fed to the 3-D
 * plot, and the traces added per base (two base markers and one hydrogen
 * bond). The trigonometric functions are parameters; `linspace` is modelled
 * exactly on reals.
 */
module DoubleHelix {
  import opened Text

  /** `np.pi` as a double. */
  const Pi: real := 3.141592653589793

  /** The rise per base pair in nanometres the z axis is scaled by. */
  const RisePerBase: real := 0.34

  /** The pairing table `{"A": "T", "T": "A", "G": "C", "C": "G"}`; any other key raises KeyError. */
  function Complement(base: char): char
    requires base in DnaBases
  {
    match base
    case 'A' => 'T'
    case 'T' => 'A'
    case 'G' => 'C'
    case 'C' => 'G'
  }

  /** The pairing table maps cleaned bases to cleaned bases, never to themselves, and is its own inverse. */
  lemma ComplementInvolution(base: char)
    requires base in DnaBases
    ensures Complement(base) in DnaBases
    ensures Complement(base) != base
    ensures Complement(Complement(base)) == base
  {
  }

  /** Python's `s[:k]`, where a negative `k` counts from the end. */
  function PrefixSlice(s: string, k: int): (r: string)
    ensures |r| <= |s| && r == s[..|r|]
    ensures k >= 0 ==> |r| == if k < |s| then k else |s|
    ensures k < 0 ==> |r| == if |s| + k > 0 then |s| + k else 0
  {
    if k >= 0 then (if k < |s| then s[..k] else s)
    else (if |s| + k > 0 then s[..|s| + k] else [])
  }

  /** Upper-case, remove spaces and newlines, keep only A/T/G/C, and cut to `maxLength` when longer. */
  function CleanHelixSequence(sequence: string, maxLength: int): string
  {
    var s := KeepOnly(Drop(Drop(Upper(sequence), ' '), '\n'), DnaBases);
    if |s| > maxLength then PrefixSlice(s, maxLength) else s
  }

  /**
   * The cleaned sequence holds only A, T, G and C, in the order and with the
   * multiplicity they have (upper-cased) in the input, cut to at most
   * `maxLength` bases; the removal of spaces and newlines before the regular
   * expression changes nothing, since the expression removes them anyway.
   */
  lemma CleanedBases(sequence: string, maxLength: int)
    ensures forall x :: x in CleanHelixSequence(sequence, maxLength) ==> x in DnaBases
    ensures |CleanHelixSequence(sequence, maxLength)| <= |KeepOnly(Upper(sequence), DnaBases)|
    ensures CleanHelixSequence(sequence, maxLength) == KeepOnly(Upper(sequence), DnaBases)[..|CleanHelixSequence(sequence, maxLength)|]
    ensures maxLength >= 0 ==> |CleanHelixSequence(sequence, maxLength)| <= maxLength
    ensures 0 <= |KeepOnly(Upper(sequence), DnaBases)| <= maxLength ==>
      CleanHelixSequence(sequence, maxLength) == KeepOnly(Upper(sequence), DnaBases)
  {
    var u := Upper(sequence);
    KeepOnlyAfterDrop(Drop(u, ' '), '\n', DnaBases);
    KeepOnlyAfterDrop(u, ' ', DnaBases);
  }

  /** Removing a character the class does not keep before filtering changes nothing. */
  lemma {:induction false} KeepOnlyAfterDrop(s: string, c: char, keep: set<char>)
    requires c !in keep
    ensures KeepOnly(Drop(s, c), keep) == KeepOnly(s, keep)
  {
    if s != [] {
      KeepOnlyAfterDrop(s[1..], c, keep);
      var rest := Drop(s[1..], c);
      if s[0] == c {
        assert Drop(s, c) == rest;
      } else {
        var d := Drop(s, c);
        assert d == [s[0]] + rest;
        assert d[0] == s[0] && d[1..] == rest;
      }
    }
  }

  /** `np.linspace(start, stop, n)[i]`: `n` evenly spaced values from `start` to `stop` inclusive. */
  function Linspace(start: real, stop: real, n: nat, i: nat): real
    requires i < n
  {
    if n == 1 then start else start + (stop - start) * i as real / (n - 1) as real
  }

  /** The end points of `linspace`, and its constant spacing `(stop - start) / (n - 1)`. */
  lemma LinspaceSpacing(start: real, stop: real, n: nat, i: nat)
    requires i + 1 < n
    ensures Linspace(start, stop, n, 0) == start
    ensures Linspace(start, stop, n, n - 1) == stop
    ensures Linspace(start, stop, n, i + 1) - Linspace(start, stop, n, i) == (stop - start) / (n - 1) as real
  {
    var d := (n - 1) as real;
    assert (stop - start) * (i + 1) as real == (stop - start) * i as real + (stop - start);
    assert ((stop - start) * i as real + (stop - start)) / d == (stop - start) * i as real / d + (stop - start) / d;
  }

  datatype Point = Point(x: real, y: real, z: real)

  /** `t = np.linspace(0, 4 * np.pi * n / 10, n)` */
  function Angle(n: nat, i: nat): real
    requires i < n
  {
    Linspace(0.0, 4.0 * Pi * n as real / 10.0, n, i)
  }

  /** `z1 = np.linspace(0, n * 0.34, n)`, shared by both strands. */
  function Height(n: nat, i: nat): real
    requires i < n
  {
    Linspace(0.0, n as real * RisePerBase, n, i)
  }

  /** Strand 1: `(cos t, sin t, z)` per base. */
  function Strand1(n: nat, cos: real -> real, sin: real -> real): (r: seq<Point>)
    ensures |r| == n
  {
    seq(n, i requires 0 <= i < n => Point(cos(Angle(n, i)), sin(Angle(n, i)), Height(n, i)))
  }

  /** Strand 2: `(-cos t, -sin t, z)` per base. */
  function Strand2(n: nat, cos: real -> real, sin: real -> real): (r: seq<Point>)
    ensures |r| == n
  {
    seq(n, i requires 0 <= i < n => Point(-cos(Angle(n, i)), -sin(Angle(n, i)), Height(n, i)))
  }

  /** Each point of strand 2 is strand 1's point mirrored through the z axis, at the same height. */
  lemma StrandSymmetry(n: nat, cos: real -> real, sin: real -> real)
    ensures forall i :: 0 <= i < n ==>
      var p, q := Strand1(n, cos, sin)[i], Strand2(n, cos, sin)[i];
      q.x == -p.x && q.y == -p.y && q.z == p.z
  {
  }

  /**
   * The strands start at height 0 and end at `n * 0.34`, so consecutive bases
   * are `n * 0.34 / (n - 1)` apart, more than the nominal 0.34 per base.
   */
  lemma HelixRise(n: nat, i: nat)
    requires i + 1 < n
    ensures Height(n, 0) == 0.0 && Height(n, n - 1) == n as real * RisePerBase
    ensures Height(n, i + 1) - Height(n, i) == n as real * RisePerBase / (n - 1) as real
    ensures Height(n, i + 1) - Height(n, i) > RisePerBase
  {
    LinspaceSpacing(0.0, n as real * RisePerBase, n, i);
    var d := (n - 1) as real;
    assert n as real * RisePerBase == d * RisePerBase + RisePerBase;
    assert (d * RisePerBase + RisePerBase) / d == RisePerBase + RisePerBase / d;
  }

  /** One trace of the 3-D figure. */
  datatype Trace =
    | Backbone(points: seq<Point>)
    | BaseMarker(at: Point, symbol: char)
    | HydrogenBond(from: Point, to: Point)

  datatype HelixFigure =
    | NoSequenceProvided      // "No sequence provided"
    | NoValidDnaBases         // "No valid DNA bases found"
    | Figure(bases: string, strand1: seq<Point>, strand2: seq<Point>, traces: seq<Trace>)

  /** The traces the loop adds for base `i`: its marker, its complement's marker, and the bond between them. */
  predicate PairTracesAt(traces: seq<Trace>, bases: string, strand1: seq<Point>, strand2: seq<Point>, i: int)
    requires 0 <= i < |bases| && |strand1| == |strand2| == |bases| && 2 + 3 * |bases| <= |traces|
    requires forall x :: x in bases ==> x in DnaBases
  {
    traces[2 + 3 * i] == BaseMarker(strand1[i], bases[i]) &&
    traces[3 + 3 * i] == BaseMarker(strand2[i], Complement(bases[i])) &&
    traces[4 + 3 * i] == HydrogenBond(strand1[i], strand2[i])
  }

  method PlotDnaDoubleHelix(sequence: string, maxLength: int, cos: real -> real, sin: real -> real)
    returns (h: HelixFigure)
    ensures h.NoSequenceProvided? <==> sequence == []
    ensures h.NoValidDnaBases? <==> sequence != [] && CleanHelixSequence(sequence, maxLength) == []
    ensures h.Figure? ==>
      var n := |h.bases|;
      h.bases == CleanHelixSequence(sequence, maxLength) &&
      (forall x :: x in h.bases ==> x in DnaBases) &&
      h.strand1 == Strand1(n, cos, sin) && h.strand2 == Strand2(n, cos, sin) &&
      |h.traces| == 2 + 3 * n &&
      h.traces[0] == Backbone(h.strand1) && h.traces[1] == Backbone(h.strand2) &&
      forall i :: 0 <= i < n ==> PairTracesAt(h.traces, h.bases, h.strand1, h.strand2, i)
  {
    if sequence == [] {
      return NoSequenceProvided;
    }
    var s := Drop(Drop(Upper(sequence), ' '), '\n');
    s := KeepOnly(s, DnaBases);
    if |s| > maxLength {
      s := PrefixSlice(s, maxLength);
    }
    if s == [] {
      return NoValidDnaBases;
    }
    assert forall x :: x in s ==> x in DnaBases by {
      CleanedBases(sequence, maxLength);
    }
    var n := |s|;
    var strand1 := Strand1(n, cos, sin);
    var strand2 := Strand2(n, cos, sin);
    var traces := HelixTraces(s, strand1, strand2);
    return Figure(s, strand1, strand2, traces);
  }

  /** The two backbone traces, then the loop over the bases adding each base's three traces. */
  method HelixTraces(bases: string, strand1: seq<Point>, strand2: seq<Point>) returns (traces: seq<Trace>)
    requires |strand1| == |strand2| == |bases|
    requires forall x :: x in bases ==> x in DnaBases
    ensures |traces| == 2 + 3 * |bases|
    ensures traces[0] == Backbone(strand1) && traces[1] == Backbone(strand2)
    ensures forall i :: 0 <= i < |bases| ==> PairTracesAt(traces, bases, strand1, strand2, i)
  {
    traces := [Backbone(strand1), Backbone(strand2)];
    var i := 0;
    while i < |bases|
      invariant 0 <= i <= |bases|
      invariant |traces| == 2 + 3 * i
      invariant traces[0] == Backbone(strand1) && traces[1] == Backbone(strand2)
      invariant forall k :: 0 <= k < i ==>
        traces[2 + 3 * k] == BaseMarker(strand1[k], bases[k]) &&
        traces[3 + 3 * k] == BaseMarker(strand2[k], Complement(bases[k])) &&
        traces[4 + 3 * k] == HydrogenBond(strand1[k], strand2[k])
    {
      var base := bases[i];
      var compBase := Complement(base);
      traces := traces + [BaseMarker(strand1[i], base), BaseMarker(strand2[i], compBase),
                          HydrogenBond(strand1[i], strand2[i])];
      i := i + 1;
    }
  }

  /** The number of hydrogen-bond traces. */
  function Bonds(traces: seq<Trace>): nat
  {
    if traces == [] then 0 else Bonds(traces[..|traces| - 1]) + (if traces[|traces| - 1].HydrogenBond? then 1 else 0)
  }

  /** A figure laid out as the builder lays it out has exactly one hydrogen bond per base. */
  lemma OneBondPerBase(traces: seq<Trace>, bases: string, strand1: seq<Point>, strand2: seq<Point>)
    requires |strand1| == |strand2| == |bases| && |traces| == 2 + 3 * |bases|
    requires forall x :: x in bases ==> x in DnaBases
    requires traces[0] == Backbone(strand1) && traces[1] == Backbone(strand2)
    requires forall i :: 0 <= i < |bases| ==> PairTracesAt(traces, bases, strand1, strand2, i)
    ensures Bonds(traces) == |bases|
  {
    BondsOfPrefix(traces, bases, strand1, strand2, |bases|);
    assert traces[..2 + 3 * |bases|] == traces;
  }

  lemma {:induction false} BondsOfPrefix(traces: seq<Trace>, bases: string, strand1: seq<Point>, strand2: seq<Point>, k: nat)
    requires |strand1| == |strand2| == |bases| && |traces| == 2 + 3 * |bases| && k <= |bases|
    requires forall x :: x in bases ==> x in DnaBases
    requires traces[0] == Backbone(strand1) && traces[1] == Backbone(strand2)
    requires forall i :: 0 <= i < |bases| ==> PairTracesAt(traces, bases, strand1, strand2, i)
    ensures Bonds(traces[..2 + 3 * k]) == k
  {
    if k == 0 {
      var p := traces[..2];
      assert p[..1] == [traces[0]] && [traces[0]][..0] == [];
    } else {
      BondsOfPrefix(traces, bases, strand1, strand2, k - 1);
      assert PairTracesAt(traces, bases, strand1, strand2, k - 1);
      var p3 := traces[..2 + 3 * k];
      var p2 := traces[..1 + 3 * k];
      var p1 := traces[..3 * k];
      var p0 := traces[..2 + 3 * (k - 1)];
      assert p3[..|p3| - 1] == p2 && p3[|p3| - 1] == traces[4 + 3 * (k - 1)];
      assert p2[..|p2| - 1] == p1 && p2[|p2| - 1] == traces[3 + 3 * (k - 1)];
      assert p1[..|p1| - 1] == p0 && p1[|p1| - 1] == traces[2 + 3 * (k - 1)];
      assert Bonds(p1) == Bonds(p0);
      assert Bonds(p2) == Bonds(p1);
    }
  }

  /** Input that is already a clean sequence within the cap comes out unchanged. */
  lemma CleanFixesCleanInput(s: string, maxLength: int)
    requires forall x :: x in s ==> x in DnaBases
    requires |s| <= maxLength
    ensures CleanHelixSequence(s, maxLength) == s
  {
    assert Upper(s) == s by {
      assert forall i :: 0 <= i < |s| ==> s[i] in s && UpperChar(s[i]) == s[i];
    }
    assert Drop(s, ' ') == s by {
      DropAbsent(s, ' ');
    }
    assert Drop(s, '\n') == s by {
      DropAbsent(s, '\n');
    }
    KeepOnlyIdempotent(s, DnaBases);
  }

  /** With a non-negative cap, cleaning a cleaned sequence again changes nothing. */
  lemma CleanIdempotent(sequence: string, maxLength: int)
    requires maxLength >= 0
    ensures CleanHelixSequence(CleanHelixSequence(sequence, maxLength), maxLength) == CleanHelixSequence(sequence, maxLength)
  {
    CleanedBases(sequence, maxLength);
    CleanFixesCleanInput(CleanHelixSequence(sequence, maxLength), maxLength);
  }
}
