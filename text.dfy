/**
 * The few string operations of System.String the core relies on: ordinal case-insensitive
 * equality, invariant lower-casing, splitting on '.' with empty entries removed, and ordinal
 * comparison. Case mapping is modelled for ASCII letters only.
 */
module Text {

  /** Upper-casing of one character as an ordinal case-insensitive comparison applies it. */
  function UpperInvariant(c: char): char {
    if 'a' <= c <= 'z' then (c as int - 32) as char else c
  }

  /** Lower-casing of one character as string.ToLowerInvariant applies it. */
  function LowerInvariant(c: char): char {
    if 'A' <= c <= 'Z' then (c as int + 32) as char else c
  }

  /** string.Equals(a, b, StringComparison.OrdinalIgnoreCase) on two non-null strings. */
  predicate EqualsIgnoreCase(a: string, b: string) {
    |a| == |b| && forall i :: 0 <= i < |a| ==> UpperInvariant(a[i]) == UpperInvariant(b[i])
  }

  /** string.ToLowerInvariant. */
  function ToLowerInvariant(s: string): string {
    seq(|s|, i requires 0 <= i < |s| => LowerInvariant(s[i]))
  }

  /** Case folding never produces a '.' from anything but a '.'. */
  lemma UpperInvariantDot(c: char)
    ensures UpperInvariant(c) == '.' <==> c == '.'
  {
  }

  /** A string without '.' never equals, ignoring case, a string with one. */
  lemma EqualsIgnoreCaseKeepsDots(a: string, b: string)
    requires '.' !in a && '.' in b
    ensures !EqualsIgnoreCase(a, b)
  {
    var k :| 0 <= k < |b| && b[k] == '.';
    if |a| == |b| {
      UpperInvariantDot(a[k]);
      UpperInvariantDot(b[k]);
      assert a[k] != '.';
    }
  }

  /** Number of leading characters of s before its first '.'. */
  function TokenLength(s: string): (n: nat)
    ensures n <= |s|
    ensures forall i :: 0 <= i < n ==> s[i] != '.'
    ensures n < |s| ==> s[n] == '.'
  {
    if s == [] || s[0] == '.' then 0 else 1 + TokenLength(s[1..])
  }

  /** s.Split('.', StringSplitOptions.RemoveEmptyEntries). */
  function Split(s: string): seq<string>
    decreases |s|
  {
    if s == [] then []
    else if s[0] == '.' then Split(s[1..])
    else
      var n := TokenLength(s);
      [s[..n]] + Split(s[n..])
  }

  /** Every piece is non-empty and free of dots, and there are none exactly when s is made only
   *  of dots. */
  lemma {:induction false} SplitPieces(s: string)
    ensures forall k :: 0 <= k < |Split(s)| ==> |Split(s)[k]| > 0 && '.' !in Split(s)[k]
    ensures Split(s) == [] <==> forall i :: 0 <= i < |s| ==> s[i] == '.'
    decreases |s|
  {
    if s == [] {
    } else if s[0] == '.' {
      SplitPieces(s[1..]);
      assert forall i :: 1 <= i < |s| ==> s[1..][i - 1] == s[i];
    } else {
      var n := TokenLength(s);
      SplitPieces(s[n..]);
      assert '.' !in s[..n];
    }
  }

  /** The characters of s other than '.', in order. */
  function WithoutDots(s: string): string {
    if s == [] then [] else (if s[0] == '.' then [] else [s[0]]) + WithoutDots(s[1..])
  }

  /** The concatenation of the pieces. */
  function Concat(ss: seq<string>): string {
    if ss == [] then [] else ss[0] + Concat(ss[1..])
  }

  lemma WithoutDotsAppend(a: string, b: string)
    ensures WithoutDots(a + b) == WithoutDots(a) + WithoutDots(b)
  {
    if a == [] {
      assert a + b == b;
    } else {
      assert (a + b)[0] == a[0];
      assert (a + b)[1..] == a[1..] + b;
      WithoutDotsAppend(a[1..], b);
    }
  }

  lemma WithoutDotsDotFree(s: string)
    requires '.' !in s
    ensures WithoutDots(s) == s
  {
    if s != [] {
      WithoutDotsDotFree(s[1..]);
    }
  }

  /** Splitting loses exactly the dots: the pieces put back together are s without its dots. */
  lemma {:induction false} SplitLosesOnlyDots(s: string)
    ensures Concat(Split(s)) == WithoutDots(s)
    decreases |s|
  {
    if s == [] {
    } else if s[0] == '.' {
      SplitLosesOnlyDots(s[1..]);
    } else {
      var n := TokenLength(s);
      assert s == s[..n] + s[n..];
      SplitLosesOnlyDots(s[n..]);
      WithoutDotsAppend(s[..n], s[n..]);
      WithoutDotsDotFree(s[..n]);
    }
  }

  /** A non-empty name without dots splits into itself alone. */
  lemma SplitDotFree(s: string)
    requires s != [] && '.' !in s
    ensures Split(s) == [s]
  {
    var n := TokenLength(s);
    assert n == |s|;
    assert s[..n] == s;
    assert s[n..] == [];
  }

  /** string.CompareOrdinal, reduced to its sign. */
  function CompareOrdinal(a: string, b: string): (c: int)
    ensures -1 <= c <= 1
  {
    if a == [] then (if b == [] then 0 else -1)
    else if b == [] then 1
    else if a[0] < b[0] then -1
    else if a[0] > b[0] then 1
    else CompareOrdinal(a[1..], b[1..])
  }

  lemma {:induction false} CompareOrdinalAntisymmetric(a: string, b: string)
    ensures CompareOrdinal(a, b) == -CompareOrdinal(b, a)
  {
    if a != [] && b != [] && a[0] == b[0] {
      CompareOrdinalAntisymmetric(a[1..], b[1..]);
    }
  }

  lemma {:induction false} CompareOrdinalZero(a: string, b: string)
    ensures CompareOrdinal(a, b) == 0 <==> a == b
  {
    if a != [] && b != [] && a[0] == b[0] {
      CompareOrdinalZero(a[1..], b[1..]);
      assert a == [a[0]] + a[1..] && b == [b[0]] + b[1..];
    }
  }

  lemma {:induction false} CompareOrdinalTransitive(a: string, b: string, c: string)
    requires CompareOrdinal(a, b) < 0 && CompareOrdinal(b, c) < 0
    ensures CompareOrdinal(a, c) < 0
  {
    if a != [] && b != [] && c != [] && a[0] == b[0] && b[0] == c[0] {
      CompareOrdinalTransitive(a[1..], b[1..], c[1..]);
    }
  }

  /** Two strings that differ only in their last character compare as those characters do. */
  lemma {:induction false} CompareOrdinalLastChar(p: string, x: char, y: char)
    requires x < y
    ensures CompareOrdinal(p + [x], p + [y]) == -1
  {
    if p != [] {
      assert (p + [x])[1..] == p[1..] + [x];
      assert (p + [y])[1..] == p[1..] + [y];
      CompareOrdinalLastChar(p[1..], x, y);
    }
  }
}
