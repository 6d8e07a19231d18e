/** Byte strings in the order in which Go compares strings and byte slices. */
module Bytes {

  type Byte = x: int | 0 <= x < 256
  type Str = seq<Byte>

  predicate Less(a: Str, b: Str) {
    b != [] && (a == [] || a[0] < b[0] || (a[0] == b[0] && Less(a[1..], b[1..])))
  }

  predicate AtMost(a: Str, b: Str) {
    a == b || Less(a, b)
  }

  lemma {:induction false} LessIrreflexive(a: Str)
    ensures !Less(a, a)
  {
    if a != [] { LessIrreflexive(a[1..]); }
  }

  lemma {:induction false} LessTransitive(a: Str, b: Str, c: Str)
    requires Less(a, b) && Less(b, c)
    ensures Less(a, c)
  {
    if a != [] && a[0] == b[0] && b[0] == c[0] { LessTransitive(a[1..], b[1..], c[1..]); }
  }

  lemma {:induction false} LessTotal(a: Str, b: Str)
    ensures Less(a, b) || a == b || Less(b, a)
  {
    if a != [] && b != [] && a[0] == b[0] {
      LessTotal(a[1..], b[1..]);
      assert a == [a[0]] + a[1..] && b == [b[0]] + b[1..];
    }
  }

  lemma LessAsymmetric(a: Str, b: Str)
    requires Less(a, b)
    ensures !Less(b, a) && a != b
  {
    LessIrreflexive(a);
    if Less(b, a) { LessTransitive(a, b, a); }
  }

  lemma AtMostTransitive(a: Str, b: Str, c: Str)
    requires AtMost(a, b) && AtMost(b, c)
    ensures AtMost(a, c)
    ensures Less(a, b) || Less(b, c) ==> Less(a, c)
  {
    if a != b && b != c { LessTransitive(a, b, c); }
  }

  predicate Strict(s: seq<Str>) {
    forall i, j | 0 <= i < j < |s| :: Less(s[i], s[j])
  }

  predicate Ordered(s: seq<Str>) {
    forall i, j | 0 <= i < j < |s| :: AtMost(s[i], s[j])
  }

  /** Extending a strict list needs only a look at its last element. */
  lemma StrictExtend(s: seq<Str>, x: Str)
    requires Strict(s) && (s == [] || Less(s[|s| - 1], x))
    ensures Strict(s + [x])
  {
    forall i | 0 <= i < |s| ensures Less(s[i], x) {
      if i < |s| - 1 { LessTransitive(s[i], s[|s| - 1], x); }
    }
  }

  /** Appending to both sides of a comparison. */
  lemma {:induction false} LessPrefix(p: Str, a: Str, b: Str)
    ensures Less(p + a, p + b) <==> Less(a, b)
  {
    if p == [] {
      assert p + a == a && p + b == b;
    } else {
      LessPrefix(p[1..], a, b);
      assert (p + a)[1..] == p[1..] + a && (p + b)[1..] == p[1..] + b;
    }
  }

  predicate HasPrefix(s: Str, p: Str) {
    |p| <= |s| && s[..|p|] == p
  }

  lemma PrefixAtMost(p: Str, s: Str)
    requires HasPrefix(s, p)
    ensures AtMost(p, s)
  {
    LessPrefix(p, [], s[|p|..]);
    assert p + [] == p && p + s[|p|..] == s;
  }

  lemma Around<T>(s: seq<T>, n: nat)
    requires n < |s|
    ensures s == s[..n] + [s[n]] + s[n + 1..]
  {}

  lemma Longer<T>(s: seq<T>, k: nat)
    requires k < |s|
    ensures s[..k + 1] == s[..k] + [s[k]]
  {}

  lemma Twice<T>(s: seq<T>, i: nat, j: nat)
    requires i < j < |s| && s[i] == s[j]
    ensures multiset(s)[s[i]] >= 2
  {
    assert s == s[..i] + [s[i]] + s[i + 1..j] + [s[j]] + s[j + 1..];
    assert multiset(s) == multiset(s[..i]) + multiset{s[i]} + multiset(s[i + 1..j]) + multiset{s[j]} + multiset(s[j + 1..]);
  }

  lemma TailOfSum<T>(a: seq<T>, b: seq<T>)
    requires a != []
    ensures (a + b)[1..] == a[1..] + b
  {}

  /** Where the first `sep` of `s` stands, or its length. */
  function Cut(s: Str, sep: Byte): (n: nat)
    ensures n <= |s| && sep !in s[..n] && (n < |s| ==> s[n] == sep)
  {
    if s == [] || s[0] == sep then 0 else Cut(s[1..], sep) + 1
  }

  lemma {:induction false} CutUnique(a: Str, sep: Byte, b: Str)
    requires sep !in a
    ensures Cut(a + [sep] + b, sep) == |a| && Cut(a, sep) == |a|
  {
    if a != [] {
      CutUnique(a[1..], sep, b);
      assert (a + [sep] + b)[1..] == a[1..] + [sep] + b;
    }
  }
}
