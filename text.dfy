/** The optional value Python spells `None` or a value. */
module Wrappers {
  datatype Option<+T> = None | Some(value: T)
}

/**
 * The Python string operations the analyses and the query gates rely on:
 * `upper()`/`lower()`, `strip()`, `rstrip(ch)`, `replace(ch, "")`,
 * `re.sub(r"[^...]", "", s)`, `count(ch)`, `startswith`, `in` on substrings
 * and the f-string rendering of an integer.
 * Case mapping is modelled on ASCII letters only.
 */
module Text {

  /** The four DNA bases, the set every `[^ATCG]` filter keeps. */
  const DnaBases: set<char> := {'A', 'T', 'C', 'G'}

  function UpperChar(c: char): char
  {
    if 'a' <= c <= 'z' then (c as int - 32) as char else c
  }

  function LowerChar(c: char): char
  {
    if 'A' <= c <= 'Z' then (c as int + 32) as char else c
  }

  /** `s.upper()`: same length, every letter mapped to upper case. */
  function Upper(s: string): (r: string)
    ensures |r| == |s|
    ensures forall i :: 0 <= i < |s| ==> r[i] == UpperChar(s[i])
  {
    seq(|s|, i requires 0 <= i < |s| => UpperChar(s[i]))
  }

  /** `s.lower()` */
  function Lower(s: string): (r: string)
    ensures |r| == |s|
    ensures forall i :: 0 <= i < |s| ==> r[i] == LowerChar(s[i])
  {
    seq(|s|, i requires 0 <= i < |s| => LowerChar(s[i]))
  }

  lemma UpperConcat(a: string, b: string)
    ensures Upper(a + b) == Upper(a) + Upper(b)
  {
  }

  /** The characters for which Python's `str.isspace()` holds, which `strip()` removes. */
  predicate IsSpace(c: char)
  {
    c == ' ' || c == '\t' || c == '\n' || c == '\r' || c == '\U{B}' || c == '\U{C}'
    || ('\U{1C}' <= c <= '\U{1F}') || c == '\U{85}' || c == '\U{A0}' || c == '\U{1680}'
    || ('\U{2000}' <= c <= '\U{200A}') || c == '\U{2028}' || c == '\U{2029}'
    || c == '\U{202F}' || c == '\U{205F}' || c == '\U{3000}'
  }

  /** `s.lstrip()` */
  function LStrip(s: string): (r: string)
    ensures |r| <= |s| && r == s[|s| - |r|..]
    ensures r != [] ==> !IsSpace(r[0])
    ensures forall i :: 0 <= i < |s| - |r| ==> IsSpace(s[i])
  {
    if s != [] && IsSpace(s[0]) then LStrip(s[1..]) else s
  }

  /** `s.rstrip()` */
  function RStrip(s: string): (r: string)
    ensures |r| <= |s| && r == s[..|r|]
    ensures r != [] ==> !IsSpace(r[|r| - 1])
    ensures forall i :: |r| <= i < |s| ==> IsSpace(s[i])
  {
    if s != [] && IsSpace(s[|s| - 1]) then RStrip(s[..|s| - 1]) else s
  }

  /** `s.strip()` */
  function Strip(s: string): string
  {
    RStrip(LStrip(s))
  }

  /** `not s.strip()`: the string is empty or made only of whitespace. */
  predicate IsBlank(s: string)
  {
    Strip(s) == []
  }

  lemma BlankIffAllSpace(s: string)
    ensures IsBlank(s) <==> forall i :: 0 <= i < |s| ==> IsSpace(s[i])
  {
    var l := LStrip(s);
    assert l != [] ==> l[0] == s[|s| - |l|] && !IsSpace(s[|s| - |l|]);
    assert forall i :: |s| - |l| <= i < |s| ==> s[i] == l[i - (|s| - |l|)];
  }

  /** `s.rstrip(c)` for a single character `c`. */
  function RStripChar(s: string, c: char): (r: string)
    ensures |r| <= |s| && r == s[..|r|]
    ensures r != [] ==> r[|r| - 1] != c
    ensures forall i :: |r| <= i < |s| ==> s[i] == c
  {
    if s != [] && s[|s| - 1] == c then RStripChar(s[..|s| - 1], c) else s
  }

  /** `s.replace(c, "")` for a single character `c`. */
  function Drop(s: string, c: char): (r: string)
    ensures |r| <= |s|
    ensures c !in r
    ensures forall x :: x in r ==> x in s
  {
    if s == [] then []
    else (if s[0] == c then [] else [s[0]]) + Drop(s[1..], c)
  }

  /** Dropping a character that does not occur changes nothing. */
  lemma {:induction false} DropAbsent(s: string, c: char)
    requires c !in s
    ensures Drop(s, c) == s
  {
    if s != [] {
      DropAbsent(s[1..], c);
    }
  }

  /** `re.sub(r"[^...]", "", s)`: keeps, in order, the characters of the class `keep`. */
  function KeepOnly(s: string, keep: set<char>): (r: string)
    ensures |r| <= |s|
    ensures forall x :: x in r ==> x in keep && x in s
    ensures forall x :: x in s && x in keep ==> x in r
  {
    if s == [] then []
    else (if s[0] in keep then [s[0]] else []) + KeepOnly(s[1..], keep)
  }

  lemma {:induction false} KeepOnlyIdempotent(s: string, keep: set<char>)
    requires forall x :: x in s ==> x in keep
    ensures KeepOnly(s, keep) == s
  {
    if s != [] {
      KeepOnlyIdempotent(s[1..], keep);
    }
  }

  /** `s.count(c)` for a single character `c`. */
  function Count(s: string, c: char): (n: nat)
    ensures n <= |s|
  {
    if s == [] then 0 else (if s[0] == c then 1 else 0) + Count(s[1..], c)
  }

  lemma {:induction false} CountZeroIff(s: string, c: char)
    ensures Count(s, c) == 0 <==> c !in s
  {
    if s != [] {
      CountZeroIff(s[1..], c);
      assert c in s <==> c == s[0] || c in s[1..];
    }
  }

  lemma {:induction false} CountConcat(a: string, b: string, c: char)
    ensures Count(a + b, c) == Count(a, c) + Count(b, c)
  {
    if a != [] {
      assert (a + b)[0] == a[0];
      assert (a + b)[1..] == a[1..] + b;
      CountConcat(a[1..], b, c);
    } else {
      assert a + b == b;
    }
  }

  /** `KeepOnly` keeps every occurrence of every kept character. */
  lemma KeepOnlyCounts(s: string, keep: set<char>)
    ensures forall c :: c in keep ==> Count(KeepOnly(s, keep), c) == Count(s, c)
  {
    forall c | c in keep
      ensures Count(KeepOnly(s, keep), c) == Count(s, c)
    {
      KeepOnlyCount(s, keep, c);
    }
  }

  /** `KeepOnly` keeps every occurrence of a kept character. */
  lemma {:induction false} KeepOnlyCount(s: string, keep: set<char>, c: char)
    requires c in keep
    ensures Count(KeepOnly(s, keep), c) == Count(s, c)
  {
    if s != [] {
      KeepOnlyCount(s[1..], keep, c);
      CountConcat(if s[0] in keep then [s[0]] else [], KeepOnly(s[1..], keep), c);
    }
  }

  /** `s.find(c)`: the index of the first occurrence of `c`, or -1. */
  function Find(s: string, c: char): (r: int)
    ensures -1 <= r < |s|
    ensures r == -1 <==> c !in s
    ensures r >= 0 ==> s[r] == c && c !in s[..r]
  {
    if s == [] then -1
    else if s[0] == c then 0
    else
      var r := Find(s[1..], c);
      if r == -1 then -1 else r + 1
  }

  /** In `p + [c] + q`, where `p` lacks `c`, the first `c` is the one after `p`. */
  lemma {:induction false} FindAfterPrefix(p: string, c: char, q: string)
    requires c !in p
    ensures Find(p + [c] + q, c) == |p|
  {
    if p != [] {
      assert (p + [c] + q)[1..] == p[1..] + [c] + q;
      FindAfterPrefix(p[1..], c, q);
    }
  }

  /** `s.startswith(p)` */
  predicate StartsWith(s: string, p: string)
  {
    |p| <= |s| && s[..|p|] == p
  }

  /** `s.endswith(p)` */
  predicate EndsWith(s: string, p: string)
  {
    |p| <= |s| && s[|s| - |p|..] == p
  }

  /** `sub` occurs in `s` starting at index `i`. */
  predicate OccursAt(s: string, sub: string, i: int)
  {
    0 <= i <= |s| - |sub| && s[i..i + |sub|] == sub
  }

  /** `sub in s` for strings. */
  predicate Contains(s: string, sub: string)
  {
    exists i :: 0 <= i <= |s| - |sub| && OccursAt(s, sub, i)
  }

  lemma ContainsMiddle(a: string, sub: string, b: string)
    ensures Contains(a + sub + b, sub)
  {
    assert OccursAt(a + sub + b, sub, |a|);
  }

  function DigitChar(d: nat): char
    requires d < 10
  {
    ('0' as int + d) as char
  }

  /** The decimal rendering of a natural number, as `str(n)` gives it. */
  function NatToString(n: nat): (r: string)
    ensures r != []
    ensures forall x :: x in r ==> '0' <= x <= '9'
  {
    if n < 10 then [DigitChar(n)] else NatToString(n / 10) + [DigitChar(n % 10)]
  }

  /** The decimal rendering of an integer, as an f-string gives it. */
  function IntToString(n: int): (r: string)
    ensures r != []
    ensures forall x :: x in r ==> x == '-' || '0' <= x <= '9'
  {
    if n < 0 then "-" + NatToString(-n) else NatToString(n)
  }

  /** No character occurs twice in `cs`. */
  predicate Distinct(cs: seq<char>)
  {
    forall i, j :: 0 <= i < j < |cs| ==> cs[i] != cs[j]
  }

  /** The total number of occurrences in `s` of the characters listed in `cs`. */
  function SumCounts(s: string, cs: seq<char>): nat
  {
    if cs == [] then 0 else Count(s, cs[0]) + SumCounts(s, cs[1..])
  }

  lemma {:induction false} SumCountsCons(x: char, t: string, cs: seq<char>)
    requires Distinct(cs)
    ensures SumCounts([x] + t, cs) == SumCounts(t, cs) + (if x in cs then 1 else 0)
  {
    if cs != [] {
      assert ([x] + t)[1..] == t;
      SumCountsCons(x, t, cs[1..]);
      assert x in cs[1..] ==> x != cs[0];
    }
  }

  /**
   * The characters of an alphabet of distinct symbols occur at most `|s|` times
   * in all, and exactly `|s|` times when every character of `s` is in it.
   */
  lemma {:induction false} SumCountsBound(s: string, cs: seq<char>)
    requires Distinct(cs)
    ensures SumCounts(s, cs) <= |s|
    ensures SumCounts(s, cs) == |s| <==> forall x :: x in s ==> x in cs
  {
    if s == [] {
      SumCountsEmpty(cs);
    } else {
      assert s == [s[0]] + s[1..];
      SumCountsCons(s[0], s[1..], cs);
      SumCountsBound(s[1..], cs);
      assert forall x :: x in s <==> x == s[0] || x in s[1..];
    }
  }

  lemma {:induction false} SumCountsEmpty(cs: seq<char>)
    ensures SumCounts([], cs) == 0
  {
    if cs != [] {
      SumCountsEmpty(cs[1..]);
    }
  }

  /** The concatenation of `parts`, in order. */
  function Join(parts: seq<string>): string
  {
    if parts == [] then [] else parts[0] + Join(parts[1..])
  }

  lemma {:induction false} JoinSplit(parts: seq<string>, i: nat)
    requires i < |parts|
    ensures Join(parts) == Join(parts[..i]) + parts[i] + Join(parts[i + 1..])
  {
    if i == 0 {
      assert parts[..0] == [];
    } else {
      JoinSplit(parts[1..], i - 1);
      assert parts[1..][..i - 1] == parts[1..i];
      assert parts[1..][i - 1 + 1..] == parts[i + 1..];
      assert parts[..i] == [parts[0]] + parts[1..i];
      assert Join(parts[..i]) == parts[0] + Join(parts[1..i]);
    }
  }

  /** Every part occurs in the concatenation. */
  lemma JoinContains(parts: seq<string>, i: nat)
    requires i < |parts|
    ensures Contains(Join(parts), parts[i])
  {
    JoinSplit(parts, i);
    ContainsMiddle(Join(parts[..i]), parts[i], Join(parts[i + 1..]));
  }

  /** The concatenation begins with the first part and ends with the last. */
  lemma JoinEnds(parts: seq<string>)
    requires parts != []
    ensures StartsWith(Join(parts), parts[0])
    ensures EndsWith(Join(parts), parts[|parts| - 1])
  {
    var n := |parts|;
    JoinSplit(parts, n - 1);
    assert parts[n..] == [];
    assert Join(parts) == Join(parts[..n - 1]) + parts[n - 1];
  }

  /** A non-empty string whose last character is not whitespace has nothing to strip on the right. */
  lemma RStripKeepsNonSpaceEnd(s: string)
    requires s != [] && !IsSpace(s[|s| - 1])
    ensures RStrip(s) == s
  {
  }

  /**
   * A word that starts with a non-space character survives `strip()` when
   * the string does not end in whitespace.
   */
  lemma OccursAfterStrip(s: string, w: string, i: int)
    requires OccursAt(s, w, i) && w != [] && !IsSpace(w[0])
    requires !IsSpace(s[|s| - 1])
    ensures Contains(Strip(s), w)
  {
    var l := LStrip(s);
    var k := |s| - |l|;
    assert s[i] == w[0];
    assert k <= i;
    assert l[|l| - 1] == s[|s| - 1];
    RStripKeepsNonSpaceEnd(l);
    OccursInSuffix(s, k, w, i);
  }

  /** An occurrence at or after position `k` is also one in `s[k..]`. */
  lemma OccursInSuffix(s: string, k: int, w: string, i: int)
    requires 0 <= k <= i && OccursAt(s, w, i)
    ensures OccursAt(s[k..], w, i - k)
  {
    assert s[k..][i - k .. i - k + |w|] == s[i .. i + |w|];
  }

  /** Text that occurs in `a` still occurs once more text follows it. */
  lemma ContainsLeft(a: string, b: string, sub: string)
    requires Contains(a, sub)
    ensures Contains(a + b, sub)
  {
    var i :| 0 <= i <= |a| - |sub| && OccursAt(a, sub, i);
    assert (a + b)[i .. i + |sub|] == a[i .. i + |sub|];
    assert OccursAt(a + b, sub, i);
  }

  /** Text that occurs in `b` still occurs once more text precedes it. */
  lemma ContainsRight(a: string, b: string, sub: string)
    requires Contains(b, sub)
    ensures Contains(a + b, sub)
  {
    var i :| 0 <= i <= |b| - |sub| && OccursAt(b, sub, i);
    assert (a + b)[|a| + i .. |a| + i + |sub|] == b[i .. i + |sub|];
    assert OccursAt(a + b, sub, |a| + i);
  }

  /** `Upper` leaves a string without lower-case letters unchanged. */
  lemma UpperFixed(s: string)
    requires forall i :: 0 <= i < |s| ==> !('a' <= s[i] <= 'z')
    ensures Upper(s) == s
  {
  }
}
