/** The few Python `str` operations the application relies on, with Python's
    semantics written out: prefix removal, substring membership, `find`,
    slicing with negative and out-of-range indices, lower-casing and the
    ordering `<=` between strings. */
module Strings {

  /** `s.startswith(p)`. */
  predicate IsPrefix(p: string, s: string) {
    |p| <= |s| && s[..|p|] == p
  }

  /** `k in s` for two strings: `k` occurs in `s` as a contiguous run. */
  predicate IsSubstring(k: string, s: string) {
    exists i | 0 <= i <= |s| :: IsPrefix(k, s[i..])
  }

  /** `s.removeprefix(p)`: at most one leading copy of `p` is removed. */
  function RemovePrefix(s: string, p: string): (r: string)
    ensures IsPrefix(p, s) ==> s == p + r
    ensures !IsPrefix(p, s) ==> r == s
  {
    if IsPrefix(p, s) then s[|p|..] else s
  }

  /** Removing a prefix undoes prepending it, and removes one copy only. */
  lemma RemovePrefixOfConcat(p: string, t: string)
    ensures RemovePrefix(p + t, p) == t
    ensures RemovePrefix(p + p + t, p) == p + t
  {
    assert (p + t)[..|p|] == p;
    assert (p + p + t)[..|p|] == p;
    assert p + p + t == p + (p + t);
  }

  /** `s.find(c)` for a one-character needle: the first index of `c`, or -1. */
  function Find(s: string, c: char): (r: int)
    ensures -1 <= r < |s|
    ensures r == -1 <==> c !in s
    ensures 0 <= r ==> s[r] == c && c !in s[..r]
  {
    if |s| == 0 then -1
    else if s[0] == c then 0
    else
      var t := Find(s[1..], c);
      assert s == [s[0]] + s[1..];
      if t == -1 then -1
      else
        assert s[..t + 1] == [s[0]] + s[1..][..t];
        t + 1
  }

  /** Python's normalisation of one slice bound against a length `n`:
      negative bounds count from the end, then the bound is clamped to [0, n]. */
  function SliceBound(i: int, n: nat): (b: nat)
    ensures b <= n
    ensures 0 <= i <= n ==> b == i
    ensures i > n ==> b == n
    ensures -(n as int) <= i < 0 ==> b == n + i
    ensures i < -(n as int) ==> b == 0
  {
    if i < 0 then (if i + n < 0 then 0 else i + n)
    else if i > n then n
    else i
  }

  /** `s[start:stop]` with Python's rules for negative and out-of-range bounds. */
  function Slice(s: string, start: int, stop: int): (r: string)
    ensures SliceBound(start, |s|) < SliceBound(stop, |s|) ==>
              r == s[SliceBound(start, |s|)..SliceBound(stop, |s|)]
    ensures SliceBound(stop, |s|) <= SliceBound(start, |s|) ==> r == []
  {
    var a := SliceBound(start, |s|);
    var b := SliceBound(stop, |s|);
    if a < b then s[a..b] else []
  }

  /** Adjacent slices join: `s[a:b] + s[b:c] == s[a:c]` whenever the three
      bounds, once normalised, are in order. */
  lemma {:induction false} SliceJoin(s: string, a: int, b: int, c: int)
    requires SliceBound(a, |s|) <= SliceBound(b, |s|) <= SliceBound(c, |s|)
    ensures Slice(s, a, b) + Slice(s, b, c) == Slice(s, a, c)
  {
    var i, j, k := SliceBound(a, |s|), SliceBound(b, |s|), SliceBound(c, |s|);
    assert s[i..j] + s[j..k] == s[i..k];
  }

  predicate IsUpper(c: char) {
    'A' <= c <= 'Z'
  }

  /** `str.lower()` on one character, over ASCII. */
  function LowerChar(c: char): (d: char)
    ensures !IsUpper(d)
    ensures !IsUpper(c) ==> d == c
    ensures IsUpper(c) ==> d as int == c as int + 32
  {
    if IsUpper(c) then (c as int + 32) as char else c
  }

  /** `s.lower()`, over ASCII: every letter A-Z is replaced, nothing else moves. */
  function Lower(s: string): (r: string)
    ensures |r| == |s|
    ensures forall i | 0 <= i < |s| :: r[i] == LowerChar(s[i])
  {
    seq(|s|, i requires 0 <= i < |s| => LowerChar(s[i]))
  }

  lemma LowerAppend(a: string, b: string)
    ensures Lower(a + b) == Lower(a) + Lower(b)
  {
  }

  /** Python's `a <= b` on strings: lexicographic by code point, a proper
      prefix being smaller. */
  predicate LexLe(a: string, b: string)
    decreases |a|
  {
    |a| == 0 || (|b| > 0 && (a[0] < b[0] || (a[0] == b[0] && LexLe(a[1..], b[1..]))))
  }

  lemma {:induction false} LexLeReflexive(a: string)
    ensures LexLe(a, a)
    decreases |a|
  {
    if |a| > 0 {
      LexLeReflexive(a[1..]);
    }
  }

  lemma {:induction false} LexLeTotal(a: string, b: string)
    ensures LexLe(a, b) || LexLe(b, a)
    decreases |a|
  {
    if |a| > 0 && |b| > 0 && a[0] == b[0] {
      LexLeTotal(a[1..], b[1..]);
    }
  }

  lemma {:induction false} LexLeTransitive(a: string, b: string, c: string)
    requires LexLe(a, b) && LexLe(b, c)
    ensures LexLe(a, c)
    decreases |a|
  {
    if |a| > 0 && a[0] == b[0] && b[0] == c[0] {
      LexLeTransitive(a[1..], b[1..], c[1..]);
    }
  }

  lemma {:induction false} LexLeAntisymmetric(a: string, b: string)
    requires LexLe(a, b) && LexLe(b, a)
    ensures a == b
    decreases |a|
  {
    if |a| > 0 {
      LexLeAntisymmetric(a[1..], b[1..]);
      assert a == [a[0]] + a[1..];
      assert b == [b[0]] + b[1..];
    }
  }

  /** A proper prefix sorts first: `b < a` whenever `b` is a proper prefix of `a`. */
  lemma {:induction false} ProperPrefixSortsFirst(a: string, b: string)
    requires IsPrefix(b, a) && |b| < |a|
    ensures !LexLe(a, b)
    decreases |b|
  {
    if |b| > 0 {
      assert a[0] == b[0];
      assert a[1..][..|b| - 1] == b[1..];
      ProperPrefixSortsFirst(a[1..], b[1..]);
    }
  }
}
