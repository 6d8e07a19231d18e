/** The object server's listing: an index per namespace that absorbs additions lazily, and pages that
    continue after the last key of the page before. */
module Listing {
  import opened Bytes
  import opened Model

  function Elements(s: seq<Str>): (e: set<Str>)
    ensures forall k: Str :: k in e <==> k in s
  {
    set k | k in s
  }

  // ---- sorting and merging ------------------------------------------------------------------

  function InsertKey(s: seq<Str>, x: Str): (r: seq<Str>)
    requires Ordered(s)
    ensures Ordered(r) && multiset(r) == multiset(s) + multiset{x}
  {
    if s == [] then [x]
    else
      var n := |s| - 1;
      assert s == s[..n] + [s[n]];
      if AtMost(s[n], x) then
        OrderedExtend(s, x); s + [x]
      else
        var p := InsertKey(s[..n], x);
        LessTotal(s[n], x);
        InsertBound(s[..n], x, s[n], p);
        OrderedExtend(p, s[n]);
        p + [s[n]]
  }

  lemma OrderedExtend(s: seq<Str>, x: Str)
    requires Ordered(s) && (s != [] ==> AtMost(s[|s| - 1], x))
    ensures Ordered(s + [x])
  {
    forall i | 0 <= i < |s| ensures AtMost(s[i], x) {
      if i < |s| - 1 { AtMostTransitive(s[i], s[|s| - 1], x); }
    }
  }

  lemma InsertBound(s: seq<Str>, x: Str, top: Str, p: seq<Str>)
    requires multiset(p) == multiset(s) + multiset{x} && Less(x, top) && forall i | 0 <= i < |s| :: AtMost(s[i], top)
    ensures p != [] && AtMost(p[|p| - 1], top)
  {
    assert |p| == |multiset(p)| == |s| + 1;
    assert p[|p| - 1] in multiset(p);
  }

  /** What the library sort promises. */
  function SortKeys(s: seq<Str>): (r: seq<Str>)
    ensures Ordered(r) && multiset(r) == multiset(s)
  {
    if s == [] then []
    else
      assert s == s[..|s| - 1] + [s[|s| - 1]];
      InsertKey(SortKeys(s[..|s| - 1]), s[|s| - 1])
  }

  lemma SortKeeps(s: seq<Str>, k: Str)
    ensures k in SortKeys(s) <==> k in s
  {
    assert k in SortKeys(s) <==> k in multiset(SortKeys(s));
    assert k in s <==> k in multiset(s);
  }

  /** Drops repetitions from an ordered list. */
  method Compact(s: seq<Str>) returns (r: seq<Str>)
    requires Ordered(s)
    ensures Strict(r) && Elements(r) == Elements(s) && |r| <= |s|
  {
    r := [];
    for i := 0 to |s|
      invariant Strict(r) && Elements(r) == Elements(s[..i]) && |r| <= i
      invariant if i == 0 then r == [] else r != [] && r[|r| - 1] == s[i - 1]
    {
      Longer(s, i);
      if r == [] || r[|r| - 1] != s[i] {
        assert i > 0 ==> AtMost(s[i - 1], s[i]);
        StrictExtend(r, s[i]);
        r := r + [s[i]];
      }
    }
    assert s[..|s|] == s;
  }

  /** What the merge has taken: both sides below everything ahead. */
  ghost predicate Merged(a: seq<Str>, b: seq<Str>, i: nat, j: nat, m: seq<Str>) {
    && i <= |a| && j <= |b| && Strict(m) && |m| <= i + j
    && Elements(m) == Elements(a[..i]) + Elements(b[..j])
    && (m != [] && i < |a| ==> Less(m[|m| - 1], a[i]))
    && (m != [] && j < |b| ==> AtMost(m[|m| - 1], b[j]))
  }

  lemma TakeLeft(a: seq<Str>, b: seq<Str>, i: nat, j: nat, m: seq<Str>)
    requires Merged(a, b, i, j, m) && Strict(a) && i < |a| && (j < |b| ==> Less(a[i], b[j]))
    ensures Merged(a, b, i + 1, j, m + [a[i]])
  {
    Longer(a, i);
    StrictExtend(m, a[i]);
  }

  lemma TakeRight(a: seq<Str>, b: seq<Str>, i: nat, j: nat, m: seq<Str>)
    requires Merged(a, b, i, j, m) && Ordered(b) && j < |b| && (i < |a| ==> Less(b[j], a[i]))
    ensures m == [] || m[|m| - 1] != b[j] ==> Merged(a, b, i, j + 1, m + [b[j]])
    ensures m != [] && m[|m| - 1] == b[j] ==> Merged(a, b, i, j + 1, m)
  {
    Longer(b, j);
    if m == [] || m[|m| - 1] != b[j] { StrictExtend(m, b[j]); }
  }

  lemma TakeBoth(a: seq<Str>, b: seq<Str>, i: nat, j: nat, m: seq<Str>)
    requires Merged(a, b, i, j, m) && Strict(a) && Ordered(b) && i < |a| && j < |b| && a[i] == b[j]
    ensures Merged(a, b, i + 1, j + 1, m + [a[i]])
  {
    Longer(a, i);
    Longer(b, j);
    StrictExtend(m, a[i]);
  }

  method MergeListingEntries(sorted: seq<Str>, added: seq<Str>) returns (m: seq<Str>)
    requires Strict(sorted)
    ensures Strict(m) && Elements(m) == Elements(sorted) + Elements(added) && |m| <= |sorted| + |added|
  {
    var b := SortKeys(added);
    assert |b| == |multiset(b)| == |added|;
    forall k: Str ensures k in b <==> k in added { SortKeeps(added, k); }
    if sorted == [] {
      m := Compact(b);
      return;
    }
    m := [];
    var i, j := 0, 0;
    while i < |sorted| || j < |b|
      invariant Merged(sorted, b, i, j, m)
      decreases |sorted| - i + |b| - j
    {
      if j == |b| || (i < |sorted| && Less(sorted[i], b[j])) {
        TakeLeft(sorted, b, i, j, m);
        m, i := m + [sorted[i]], i + 1;
      } else if i == |sorted| || Less(b[j], sorted[i]) {
        TakeRight(sorted, b, i, j, m);
        if m == [] || m[|m| - 1] != b[j] { m := m + [b[j]]; }
        j := j + 1;
      } else {
        LessTotal(sorted[i], b[j]);
        TakeBoth(sorted, b, i, j, m);
        m, i, j := m + [sorted[i]], i + 1, j + 1;
      }
    }
    assert sorted[..|sorted|] == sorted && b[..|b|] == b;
  }

  /** A strict list has as many keys as places. */
  lemma {:induction false} StrictSize(s: seq<Str>)
    requires Strict(s)
    ensures |Elements(s)| == |s|
  {
    if s != [] {
      var n := |s| - 1;
      StrictSize(s[..n]);
      LastIsNew(s);
      Longer(s, n);
      assert s[..n + 1] == s;
      assert Elements(s) == Elements(s[..n]) + {s[n]};
    }
  }

  lemma LastIsNew(s: seq<Str>)
    requires Strict(s) && s != []
    ensures s[|s| - 1] !in s[..|s| - 1]
  {
    forall i | 0 <= i < |s| - 1 ensures s[i] != s[|s| - 1] {
      assert Less(s[i], s[|s| - 1]);
      LessIrreflexive(s[i]);
    }
  }

  lemma {:induction false} SizeAtMost(s: seq<Str>)
    ensures |Elements(s)| <= |s|
  {
    if s != [] {
      var n := |s| - 1;
      SizeAtMost(s[..n]);
      Longer(s, n);
      assert s[..n + 1] == s;
      assert Elements(s) == Elements(s[..n]) + {s[n]};
    }
  }

  lemma AppendElements(s: seq<Str>, key: Str)
    ensures Elements(s + [key]) == Elements(s) + {key}
  {}

  lemma KeysBounded(a: seq<Str>, b: seq<Str>)
    ensures |Elements(a) + Elements(b)| <= |a| + |b|
  {
    assert Elements(a + b) == Elements(a) + Elements(b);
    SizeAtMost(a + b);
  }

  lemma SizeMonotone(a: set<Str>, b: set<Str>)
    requires a <= b
    ensures |a| <= |b| && (|a| == |b| ==> a == b)
  {
    assert b == a + (b - a);
  }

  /** The first position that satisfies a monotone condition, by bisection. */
  method Search(s: seq<Str>, p: Str -> bool) returns (n: nat)
    requires forall i, j | 0 <= i < j < |s| :: p(s[i]) ==> p(s[j])
    ensures n <= |s| && (forall i | 0 <= i < n :: !p(s[i])) && forall i | n <= i < |s| :: p(s[i])
  {
    var lo, hi := 0, |s|;
    while lo < hi
      invariant 0 <= lo <= hi <= |s|
      invariant (forall i | 0 <= i < lo :: !p(s[i])) && forall i | hi <= i < |s| :: p(s[i])
    {
      var mid := (lo + hi) / 2;
      if p(s[mid]) { hi := mid; } else { lo := mid + 1; }
    }
    n := lo;
  }

  lemma AtLeastRises(s: seq<Str>, key: Str)
    requires Strict(s)
    ensures forall i, j | 0 <= i < j < |s| :: AtMost(key, s[i]) ==> AtMost(key, s[j])
  {
    forall i, j | 0 <= i < j < |s| && AtMost(key, s[i]) ensures AtMost(key, s[j]) { AtMostTransitive(key, s[i], s[j]); }
  }

  // ---- what a listing selects ---------------------------------------------------------------

  predicate Wanted(k: Str, prefix: Str, after: Str) {
    HasPrefix(k, prefix) && Less(after, k)
  }

  ghost function Matching(keys: set<Str>, prefix: Str, after: Str): set<Str> {
    set k | k in keys && Wanted(k, prefix, after)
  }

  /** The least keys of `all`, in order, as many as the limit allows. */
  ghost predicate FirstOf(sel: seq<Str>, all: set<Str>, limit: nat) {
    && Strict(sel) && Elements(sel) <= all && |sel| <= limit && (|sel| < limit ==> Elements(sel) == all)
    && forall x, i | x in all && x !in sel && 0 <= i < |sel| :: Less(sel[i], x)
  }

  /** Keys with a prefix stand together, from the first key not below the prefix on. */
  lemma {:induction false} PrefixBlock(p: Str, a: Str, b: Str)
    requires AtMost(p, a) && Less(a, b) && HasPrefix(b, p)
    ensures HasPrefix(a, p)
  {
    if p != [] && p != a {
      assert b[..|p|][0] == p[0] && b[..|p|][1..] == b[1..][..|p| - 1];
      LessAsymmetric(p, a);
      PrefixBlock(p[1..], a[1..], b[1..]);
      assert a[..|p|] == [a[0]] + a[1..][..|p| - 1] && p == [p[0]] + p[1..];
    }
  }

  predicate FromHere(k: Str, prefix: Str, after: Str) {
    Less(after, k) && AtMost(prefix, k)
  }

  lemma FromHereRises(s: seq<Str>, prefix: Str, after: Str)
    requires Strict(s)
    ensures forall i, j | 0 <= i < j < |s| :: FromHere(s[i], prefix, after) ==> FromHere(s[j], prefix, after)
  {
    forall i, j | 0 <= i < j < |s| && FromHere(s[i], prefix, after) ensures FromHere(s[j], prefix, after) {
      LessTransitive(after, s[i], s[j]);
      AtMostTransitive(prefix, s[i], s[j]);
    }
  }

  lemma SliceIsFirst(s: seq<Str>, prefix: Str, after: Str, first: nat, last: nat, limit: nat)
    requires Strict(s) && first <= last <= |s| && last - first <= limit
    requires (forall i | 0 <= i < first :: !FromHere(s[i], prefix, after)) && forall i | first <= i < |s| :: FromHere(s[i], prefix, after)
    requires forall i | first <= i < last :: HasPrefix(s[i], prefix)
    requires last == |s| || last - first == limit || !HasPrefix(s[last], prefix)
    ensures FirstOf(s[first..last], Matching(Elements(s), prefix, after), limit)
  {
    var sel, all := s[first..last], Matching(Elements(s), prefix, after);
    forall x | x in all && x !in sel ensures last - first == limit && forall i | 0 <= i < |sel| :: Less(sel[i], x) {
      var k :| 0 <= k < |s| && s[k] == x;
      PrefixAtMost(prefix, x);
      assert FromHere(x, prefix, after) && first <= k;
      if k < last { InSlice(s, first, last, k); }
      if last - first < limit { NothingLater(s, prefix, last, k); }
    }
  }

  lemma InSlice(s: seq<Str>, first: nat, last: nat, k: nat)
    requires first <= k < last <= |s|
    ensures s[k] in s[first..last]
  {
    assert s[first..last][k - first] == s[k];
  }

  lemma NothingLater(s: seq<Str>, prefix: Str, last: nat, k: nat)
    requires Strict(s) && last <= k < |s| && HasPrefix(s[k], prefix) && AtMost(prefix, s[last])
    ensures HasPrefix(s[last], prefix)
  {
    if last < k { PrefixBlock(prefix, s[last], s[k]); }
  }

  // ---- one namespace ------------------------------------------------------------------------

  class ListingIndex {
    const ceiling: nat
    var sorted: seq<Str>
    var pending: seq<Str>
    var overflow: bool
    ghost var keys: set<Str>

    constructor (ceiling: nat)
      ensures Valid() && keys == {} && this.ceiling == ceiling && !overflow
    {
      this.ceiling, sorted, pending, overflow := ceiling, [], [], false;
      keys := {};
    }

    /** The lists hold the keys; overflow says exactly that there are too many. */
    ghost predicate Valid()
      reads this
    {
      && Strict(sorted) && (overflow <==> |keys| > ceiling)
      && (!overflow ==> Elements(sorted) + Elements(pending) == keys && |sorted| + |pending| <= ceiling)
    }

    /** Absorbs the pending additions. */
    method Flush()
      requires Valid() && !overflow
      modifies this
      ensures Valid() && keys == old(keys) && !overflow && pending == [] && Elements(sorted) == keys && |sorted| == |keys|
    {
      sorted := MergeListingEntries(sorted, pending);
      pending := [];
      StrictSize(sorted);
    }

    method Append(key: Str)
      requires Valid() && !overflow && |sorted| + |pending| < ceiling
      modifies this
      ensures Valid() && keys == old(keys) + {key}
    {
      AppendElements(pending, key);
      pending := pending + [key];
      keys := keys + {key};
      assert Elements(sorted) + Elements(pending) == keys;
      KeysBounded(sorted, pending);
    }

    /** Repeated additions never cause an overflow: only more distinct keys than the ceiling do. */
    method AddListingObject(key: Str)
      requires Valid()
      modifies this
      ensures Valid() && keys == old(keys) + {key}
    {
      if overflow {
        SizeMonotone(keys, keys + {key});
        keys := keys + {key};
        return;
      }
      if |sorted| + |pending| >= ceiling {
        Flush();
        AtLeastRises(sorted, key);
        var position := Search(sorted, k => AtMost(key, k));
        if position < |sorted| && sorted[position] == key {
          assert keys == keys + {key};
          return;
        }
        KeyMissing(sorted, position, key);
        if |sorted| >= ceiling {
          sorted, overflow := [], true;
          keys := keys + {key};
          return;
        }
      }
      Append(key);
    }

    lemma KeyMissing(s: seq<Str>, n: nat, key: Str)
      requires Strict(s) && n <= |s| && (n < |s| ==> s[n] != key)
      requires (forall i | 0 <= i < n :: !AtMost(key, s[i])) && forall i | n <= i < |s| :: AtMost(key, s[i])
      ensures key !in s
    {
      forall i | 0 <= i < |s| ensures s[i] != key {
        LessIrreflexive(key);
        if i > n { AtMostTransitive(key, s[n], s[i]); }
      }
    }

    /** The first keys with the prefix after a key; an overflowing index answers with an error. */
    method SelectObjects(prefix: Str, after: Str, limit: nat) returns (r: Option<seq<Str>>)
      requires Valid()
      modifies this
      ensures Valid() && keys == old(keys)
      ensures r.None? <==> |keys| > ceiling
      ensures r.Some? ==> FirstOf(r.value, Matching(keys, prefix, after), limit)
    {
      if overflow { return None; }
      Flush();
      FromHereRises(sorted, prefix, after);
      var first := Search(sorted, k => FromHere(k, prefix, after));
      var last := first;
      while last < |sorted| && last - first < limit && HasPrefix(sorted[last], prefix)
        invariant first <= last <= |sorted| && last - first <= limit
        invariant forall i | first <= i < last :: HasPrefix(sorted[i], prefix)
      {
        last := last + 1;
      }
      SliceIsFirst(sorted, prefix, after, first, last, limit);
      r := Some(sorted[first..last]);
    }
  }

  // ---- all namespaces -----------------------------------------------------------------------

  const OBJECTS: Str := [111, 98, 106, 101, 99, 116, 115, 47]                                          // objects/
  const PARTS: Str := [109, 101, 116, 97, 100, 97, 116, 97, 47, 112, 97, 114, 116, 115, 47]              // metadata/parts/
  const MANIFESTS: Str := [109, 101, 116, 97, 100, 97, 116, 97, 47, 109, 97, 110, 105, 102, 101, 115, 116, 115, 47]  // metadata/manifests/

  predicate Overlaps(root: Str, prefix: Str) {
    HasPrefix(root, prefix) || HasPrefix(prefix, root)
  }

  /** A namespace that the prefix does not touch holds no key with the prefix. */
  lemma SkippedHasNone(root: Str, prefix: Str, k: Str)
    requires HasPrefix(k, root) && HasPrefix(k, prefix)
    ensures Overlaps(root, prefix)
  {
    if |root| <= |prefix| {
      assert prefix[..|root|] == k[..|prefix|][..|root|] == k[..|root|];
    } else {
      assert root[..|prefix|] == k[..|root|][..|prefix|] == k[..|prefix|];
    }
  }

  predicate InNamespaces(k: Str) {
    HasPrefix(k, OBJECTS) || HasPrefix(k, PARTS) || HasPrefix(k, MANIFESTS)
  }

  lemma NamespacesDisjoint(k: Str)
    ensures !(HasPrefix(k, OBJECTS) && HasPrefix(k, PARTS)) && !(HasPrefix(k, OBJECTS) && HasPrefix(k, MANIFESTS))
    ensures !(HasPrefix(k, PARTS) && HasPrefix(k, MANIFESTS))
  {
    if |k| >= 8 { assert k[..8][0] == k[0]; }
    if |k| >= 15 { assert k[..15][0] == k[0] && k[..15][9] == k[9]; }
    if |k| >= 19 { assert k[..19][0] == k[0] && k[..19][9] == k[9]; }
  }

  // ---- joining the namespaces' selections ---------------------------------------------------

  lemma {:induction false} StrictOnce(s: seq<Str>, k: Str)
    requires Strict(s)
    ensures multiset(s)[k] == if k in s then 1 else 0
  {
    if s != [] {
      var n := |s| - 1;
      StrictOnce(s[..n], k);
      LastIsNew(s);
      Longer(s, n);
      assert s[..n + 1] == s;
    }
  }

  lemma OrderedStrict(s: seq<Str>)
    requires Ordered(s) && forall k: Str :: multiset(s)[k] <= 1
    ensures Strict(s)
  {
    forall i, j | 0 <= i < j < |s| ensures Less(s[i], s[j]) {
      if s[i] == s[j] { Twice(s, i, j); }
      assert AtMost(s[i], s[j]);
    }
  }

  /** Sorting the concatenation of disjoint strict lists gives a strict list. */
  lemma JoinStrict(a: seq<Str>, b: seq<Str>, c: seq<Str>)
    requires Strict(a) && Strict(b) && Strict(c)
    requires Elements(a) !! Elements(b) && Elements(a) !! Elements(c) && Elements(b) !! Elements(c)
    ensures Strict(SortKeys(a + b + c)) && Elements(SortKeys(a + b + c)) == Elements(a) + Elements(b) + Elements(c)
  {
    var s := SortKeys(a + b + c);
    forall k: Str ensures multiset(s)[k] <= 1 && (k in s <==> k in a || k in b || k in c) { JoinOnce(a, b, c, k); }
    OrderedStrict(s);
  }

  lemma JoinOnce(a: seq<Str>, b: seq<Str>, c: seq<Str>, k: Str)
    requires Strict(a) && Strict(b) && Strict(c) && !(k in a && k in b) && !(k in a && k in c) && !(k in b && k in c)
    ensures multiset(SortKeys(a + b + c))[k] <= 1 && (k in SortKeys(a + b + c) <==> k in a || k in b || k in c)
  {
    StrictOnce(a, k);
    StrictOnce(b, k);
    StrictOnce(c, k);
    SortKeeps(a + b + c, k);
    assert multiset(a + b + c) == multiset(a) + multiset(b) + multiset(c);
  }

  function Take(s: seq<Str>, limit: nat): seq<Str> {
    if |s| > limit then s[..limit] else s
  }

  lemma KeptEarly(s: seq<Str>, limit: nat, j: nat)
    requires j < |s| && j < limit
    ensures s[j] in Take(s, limit)
  {
    assert Take(s, limit)[j] == s[j];
  }

  /** A wanted key that was cut off is larger than everything kept. */
  lemma CutOffIsLarger(sel: seq<Str>, all: set<Str>, limit: nat, s: seq<Str>, x: Str)
    requires FirstOf(sel, all, limit) && Strict(s) && Elements(sel) <= Elements(s) && x in all && x !in Take(s, limit)
    ensures |s| >= limit && forall i | 0 <= i < limit :: Less(s[i], x)
  {
    if x in sel {
      var j: nat :| j < |s| && s[j] == x;
      if j < limit { KeptEarly(s, limit, j); }
    } else {
      StrictSize(sel);
      StrictSize(s);
      SizeMonotone(Elements(sel), Elements(s));
      forall i | 0 <= i < limit ensures Less(s[i], x) {
        LessTotal(s[i], x);
        if !Less(s[i], x) { AllBelow(sel, s, i, x); }
      }
    }
  }

  lemma AllBelow(sel: seq<Str>, s: seq<Str>, i: nat, x: Str)
    requires Strict(sel) && Strict(s) && Elements(sel) <= Elements(s) && i < |s| && AtMost(x, s[i])
    requires forall k | 0 <= k < |sel| :: Less(sel[k], x)
    ensures |sel| <= i
  {
    forall k | 0 <= k < |sel| ensures sel[k] in s[..i] {
      assert sel[k] in Elements(s);
      var m :| 0 <= m < |s| && s[m] == sel[k];
      AtMostTransitive(sel[k], x, s[i]);
      BelowIndex(s, m, i);
      assert s[..i][m] == sel[k];
    }
    StrictSize(sel);
    StrictSize(s[..i]);
    SizeMonotone(Elements(sel), Elements(s[..i]));
  }

  lemma BelowIndex(s: seq<Str>, m: nat, i: nat)
    requires Strict(s) && m < |s| && i < |s| && Less(s[m], s[i])
    ensures m < i
  {
    if m == i { LessIrreflexive(s[i]); }
    if m > i { LessAsymmetric(s[m], s[i]); }
  }

  /** Joining the first keys of disjoint namespaces gives the first keys of all. */
  lemma JoinFirst(a: seq<Str>, b: seq<Str>, c: seq<Str>, x: set<Str>, y: set<Str>, z: set<Str>, limit: nat)
    requires FirstOf(a, x, limit) && FirstOf(b, y, limit) && FirstOf(c, z, limit) && x !! y && x !! z && y !! z
    ensures FirstOf(Take(SortKeys(a + b + c), limit), x + y + z, limit)
  {
    var s := SortKeys(a + b + c);
    JoinStrict(a, b, c);
    var r := Take(s, limit);
    assert forall i | 0 <= i < |r| :: r[i] == s[i];
    forall k | k in x + y + z && k !in r ensures |s| >= limit && forall i | 0 <= i < |r| :: Less(r[i], k) {
      if k in x { CutOffIsLarger(a, x, limit, s, k); }
      else if k in y { CutOffIsLarger(b, y, limit, s, k); }
      else { CutOffIsLarger(c, z, limit, s, k); }
    }
    forall k: Str | k in Elements(r) ensures k in x + y + z { assert k in Elements(s); }
  }

  ghost predicate Rooted(keys: set<Str>, root: Str) {
    forall k | k in keys :: HasPrefix(k, root)
  }

  lemma RootsDisjoint(x: set<Str>, y: set<Str>, z: set<Str>)
    requires Rooted(x, OBJECTS) && Rooted(y, PARTS) && Rooted(z, MANIFESTS)
    ensures x !! y && x !! z && y !! z
  {
    forall k: Str ensures !(k in x && k in y) && !(k in x && k in z) && !(k in y && k in z) { NamespacesDisjoint(k); }
  }

  lemma JoinNamespaces(a: seq<Str>, b: seq<Str>, c: seq<Str>, x: set<Str>, y: set<Str>, z: set<Str>, prefix: Str, after: Str, limit: nat)
    requires Rooted(x, OBJECTS) && Rooted(y, PARTS) && Rooted(z, MANIFESTS)
    requires FirstOf(a, Matching(x, prefix, after), limit) && FirstOf(b, Matching(y, prefix, after), limit) && FirstOf(c, Matching(z, prefix, after), limit)
    ensures FirstOf(Take(SortKeys(a + b + c), limit), Matching(x + y + z, prefix, after), limit)
  {
    var u, v, w := Matching(x, prefix, after), Matching(y, prefix, after), Matching(z, prefix, after);
    RootsDisjoint(u, v, w);
    JoinFirst(a, b, c, u, v, w, limit);
    assert Matching(x + y + z, prefix, after) == u + v + w;
  }

  lemma PlusOne(x: set<Str>, y: set<Str>, z: set<Str>, k: Str)
    ensures (x + {k}) + y + z == (x + y + z) + {k} && x + (y + {k}) + z == (x + y + z) + {k} && x + y + (z + {k}) == (x + y + z) + {k}
  {}

  class Server {
    const objects: ListingIndex
    const parts: ListingIndex
    const manifests: ListingIndex

    ghost predicate Valid()
      reads this, objects, parts, manifests
    {
      && objects != parts && objects != manifests && parts != manifests
      && objects.Valid() && parts.Valid() && manifests.Valid()
      && Rooted(objects.keys, OBJECTS) && Rooted(parts.keys, PARTS) && Rooted(manifests.keys, MANIFESTS)
    }

    ghost function Keys(): set<Str>
      reads this, objects, parts, manifests
    {
      objects.keys + parts.keys + manifests.keys
    }

    ghost predicate Listable()
      reads this, objects, parts, manifests
    {
      |objects.keys| <= objects.ceiling && |parts.keys| <= parts.ceiling && |manifests.keys| <= manifests.ceiling
    }

    constructor (ceiling: nat)
      ensures Valid() && Keys() == {} && fresh(objects) && fresh(parts) && fresh(manifests)
    {
      objects := new ListingIndex(ceiling);
      parts := new ListingIndex(ceiling);
      manifests := new ListingIndex(ceiling);
    }

    /** Routes a stored key to its namespace; others are not listed. */
    method Add(key: Str)
      requires Valid()
      modifies objects, parts, manifests
      ensures Valid() && Keys() == if InNamespaces(key) then old(Keys()) + {key} else old(Keys())
    {
      PlusOne(objects.keys, parts.keys, manifests.keys, key);
      if HasPrefix(key, OBJECTS) {
        AddTo(objects, OBJECTS, key);
      } else if HasPrefix(key, PARTS) {
        AddTo(parts, PARTS, key);
      } else if HasPrefix(key, MANIFESTS) {
        AddTo(manifests, MANIFESTS, key);
      }
    }

    static method AddTo(index: ListingIndex, root: Str, key: Str)
      requires index.Valid() && Rooted(index.keys, root) && HasPrefix(key, root)
      modifies index
      ensures index.Valid() && Rooted(index.keys, root) && index.keys == old(index.keys) + {key}
    {
      index.AddListingObject(key);
    }

    /** The selection of one namespace, empty when the prefix cannot match in it. */
    static method SelectFrom(index: ListingIndex, root: Str, prefix: Str, after: Str, limit: nat) returns (r: Option<seq<Str>>)
      requires index.Valid() && Rooted(index.keys, root)
      modifies index
      ensures index.Valid() && index.keys == old(index.keys)
      ensures |index.keys| <= index.ceiling ==> r.Some?
      ensures r.Some? ==> FirstOf(r.value, Matching(index.keys, prefix, after), limit)
    {
      if !Overlaps(root, prefix) {
        forall k | k in index.keys ensures !HasPrefix(k, prefix) {
          if HasPrefix(k, prefix) { SkippedHasNone(root, prefix, k); }
        }
        assert Matching(index.keys, prefix, after) == {};
        return Some([]);
      }
      r := index.SelectObjects(prefix, after, limit);
    }

    /** The first matching keys of all namespaces together. */
    method WalkObjects(prefix: Str, after: Str, limit: nat) returns (r: Option<seq<Str>>)
      requires Valid()
      modifies objects, parts, manifests
      ensures Valid() && Keys() == old(Keys()) && Listable() == old(Listable())
      ensures Listable() ==> r.Some?
      ensures r.Some? ==> FirstOf(r.value, Matching(Keys(), prefix, after), limit)
    {
      var a := SelectFrom(objects, OBJECTS, prefix, after, limit);
      if a.None? { return None; }
      var b := SelectFrom(parts, PARTS, prefix, after, limit);
      if b.None? { return None; }
      var c := SelectFrom(manifests, MANIFESTS, prefix, after, limit);
      if c.None? { return None; }
      JoinNamespaces(a.value, b.value, c.value, objects.keys, parts.keys, manifests.keys, prefix, after, limit);
      r := Some(Take(SortKeys(a.value + b.value + c.value), limit));
    }

    /** One page and the token for the next; an error where a namespace overflows. */
    method Page(prefix: Str, after: Str, maxKeys: nat) returns (ok: bool, page: seq<Str>, next: Option<Str>)
      requires Valid() && 0 < maxKeys
      modifies objects, parts, manifests
      ensures Valid() && Keys() == old(Keys()) && Listable() == old(Listable()) && (Listable() ==> ok)
      ensures ok ==> FirstOf(page, Matching(Keys(), prefix, after), maxKeys)
      ensures ok ==> (next.None? <==> Elements(page) == Matching(Keys(), prefix, after))
      ensures ok && next.Some? ==> page != [] && next.value == page[|page| - 1]
    {
      var r := WalkObjects(prefix, after, maxKeys + 1);
      if r.None? { return false, [], None; }
      PageOf(r.value, Matching(Keys(), prefix, after), maxKeys);
      ok, page, next := true, r.value, None;
      if |page| > maxKeys {
        page := page[..maxKeys];
        next := Some(page[|page| - 1]);
      }
    }

    /** Following the tokens lists every stored key with the prefix exactly once, in order. */
    method ListAll(prefix: Str, maxKeys: nat) returns (all: seq<Str>)
      requires Valid() && Listable() && 0 < maxKeys
      modifies objects, parts, manifests
      ensures Valid() && Keys() == old(Keys())
      ensures Strict(all) && Elements(all) == set k | k in Keys() && HasPrefix(k, prefix) && k != []
    {
      all := [];
      var after: Str := [];
      var more := true;
      while more
        invariant Valid() && Listable() && Keys() == old(Keys())
        invariant Listed(all, Keys(), prefix, after, more)
        decreases if more then 1 + |Matching(Keys(), prefix, after)| else 0
      {
        var ok, page, next := Page(prefix, after, maxKeys);
        PageListed(all, Keys(), prefix, after, page, next);
        all := all + page;
        if next.Some? { after := next.value; } else { more := false; }
      }
    }

    /** Any number of puts by others. */
    method OtherPuts()
      requires Valid()
      modifies objects, parts, manifests
      ensures Valid() && old(Keys()) <= Keys()
    {
      var puts: int := *;
      for i := 0 to if puts < 0 then 0 else puts
        invariant Valid() && old(Keys()) <= Keys()
      {
        var key: Str := *;
        Add(key);
      }
    }

    /** The same with puts between the pages, for any number of requests: what is listed is stored, has the
        prefix and comes in order, so nothing comes twice; once the last page is reached, every key stored
        from the start has been listed. */
    method ListWhileAdding(prefix: Str, maxKeys: nat, requests: nat) returns (all: seq<Str>, done: bool)
      requires Valid() && 0 < maxKeys
      modifies objects, parts, manifests
      ensures Valid() && old(Keys()) <= Keys()
      ensures Strict(all) && forall k | k in all :: k in Keys() && HasPrefix(k, prefix)
      ensures done ==> forall k | k in old(Keys()) && HasPrefix(k, prefix) && k != [] :: k in all
    {
      all, done := [], false;
      var after: Str := [];
      for i := 0 to requests
        invariant Valid() && old(Keys()) <= Keys() && ListedSoFar(all, old(Keys()), Keys(), prefix, after)
      {
        var ok, page, next := Page(prefix, after, maxKeys);
        if !ok { return; }
        PageSoFar(all, old(Keys()), Keys(), prefix, after, page, next);
        all := all + page;
        if next.None? { return all, true; }
        after := next.value;
        OtherPuts();
      }
    }
  }

  /** Up to `after`, every key stored from the start was listed, and nothing that is not stored now. */
  ghost predicate ListedSoFar(all: seq<Str>, first: set<Str>, keys: set<Str>, prefix: Str, after: Str) {
    && Strict(all) && (forall k | k in all :: k in keys && HasPrefix(k, prefix) && !Less(after, k))
    && (forall k | k in first && HasPrefix(k, prefix) && k != [] && !Less(after, k) :: k in all)
    && (all != [] ==> all[|all| - 1] == after) && (all == [] ==> after == [])
  }

  lemma PageSoFar(all: seq<Str>, first: set<Str>, keys: set<Str>, prefix: Str, after: Str, page: seq<Str>, next: Option<Str>)
    requires ListedSoFar(all, first, keys, prefix, after) && first <= keys
    requires FirstOf(page, Matching(keys, prefix, after), |page|)
    requires next.None? ==> Elements(page) == Matching(keys, prefix, after)
    requires next.Some? ==> page != [] && next.value == page[|page| - 1]
    ensures Strict(all + page) && forall k | k in all + page :: k in keys && HasPrefix(k, prefix)
    ensures next.None? ==> forall k | k in first && HasPrefix(k, prefix) && k != [] :: k in all + page
    ensures next.Some? ==> ListedSoFar(all + page, first, keys, prefix, next.value)
  {
    forall i | 0 <= i < |page| ensures page[i] in keys && HasPrefix(page[i], prefix) && Less(after, page[i]) { assert page[i] in Elements(page); }
    forall i, j | 0 <= i < |all| && 0 <= j < |page| ensures Less(all[i], page[j]) {
      if i < |all| - 1 { LessTransitive(all[i], after, page[j]); }
    }
    forall k | k in first && HasPrefix(k, prefix) && k != [] && !Less(after, k) ensures k in all + page {}
    if next.Some? {
      NothingAfter(all, page, after);
      forall k | k in first && HasPrefix(k, prefix) && k != [] && !Less(next.value, k) ensures k in all + page {
        if Less(after, k) { assert k in Matching(keys, prefix, after); }
      }
    } else {
      forall k | k in first && HasPrefix(k, prefix) && k != [] ensures k in all + page {
        if Less(after, k) { assert k in Matching(keys, prefix, after) && k in Elements(page); }
      }
    }
  }

  /** The last key of the page is the largest listed. */
  lemma NothingAfter(all: seq<Str>, page: seq<Str>, after: Str)
    requires Strict(page) && page != [] && forall i | 0 <= i < |page| :: Less(after, page[i])
    requires forall k | k in all :: !Less(after, k)
    ensures forall k | k in all + page :: !Less(page[|page| - 1], k)
  {
    var last := page[|page| - 1];
    forall k | k in all + page ensures !Less(last, k) {
      if k in all {
        if Less(last, k) { LessTransitive(after, last, k); }
      } else {
        var i :| 0 <= i < |page| && page[i] == k;
        LessIrreflexive(last);
        if i < |page| - 1 { LessAsymmetric(page[i], last); }
      }
    }
  }

  lemma PageOf(sel: seq<Str>, all: set<Str>, maxKeys: nat)
    requires FirstOf(sel, all, maxKeys + 1)
    ensures |sel| <= maxKeys ==> FirstOf(sel, all, maxKeys) && Elements(sel) == all
    ensures |sel| > maxKeys ==> FirstOf(sel[..maxKeys], all, maxKeys) && Elements(sel[..maxKeys]) != all
  {
    if |sel| > maxKeys {
      var page := sel[..maxKeys];
      forall x, i | x in all && x !in page && 0 <= i < |page| ensures Less(page[i], x) {
        if x in sel {
          var j: nat :| j < |sel| && sel[j] == x;
          if j < maxKeys { KeptEarly(sel, maxKeys, j); }
        }
      }
      LastIsNew(sel[..maxKeys + 1]);
      assert sel[..maxKeys + 1][..maxKeys] == page && sel[maxKeys] in Elements(sel);
    }
  }

  /** Everything up to `after` has been listed, and nothing else. */
  ghost predicate Listed(all: seq<Str>, keys: set<Str>, prefix: Str, after: Str, more: bool) {
    && Strict(all)
    && if more then
         && (forall k: Str :: k in all <==> k in keys && HasPrefix(k, prefix) && k != [] && !Less(after, k))
         && (all != [] ==> all[|all| - 1] == after) && (all == [] ==> after == [])
       else Elements(all) == set k | k in keys && HasPrefix(k, prefix) && k != []
  }

  lemma PageListed(all: seq<Str>, keys: set<Str>, prefix: Str, after: Str, page: seq<Str>, next: Option<Str>)
    requires Listed(all, keys, prefix, after, true)
    requires FirstOf(page, Matching(keys, prefix, after), |page|)
    requires next.None? <==> Elements(page) == Matching(keys, prefix, after)
    requires next.Some? ==> page != [] && next.value == page[|page| - 1]
    ensures next.None? ==> Listed(all + page, keys, prefix, after, false)
    ensures next.Some? ==> Listed(all + page, keys, prefix, next.value, true)
    ensures next.Some? ==> |Matching(keys, prefix, next.value)| < |Matching(keys, prefix, after)|
  {
    PageFollows(all, keys, prefix, after, page);
    if next.Some? {
      forall k: Str ensures k in all + page <==> k in keys && HasPrefix(k, prefix) && k != [] && !Less(next.value, k) {
        UpToNext(all, keys, prefix, after, page, k);
      }
      assert next.value in Elements(page) && !Wanted(next.value, prefix, next.value) by { LessIrreflexive(next.value); }
      forall k | k in Matching(keys, prefix, next.value) ensures k in Matching(keys, prefix, after) {
        LessTransitive(after, next.value, k);
      }
      SizeMonotone(Matching(keys, prefix, next.value), Matching(keys, prefix, after));
    }
  }

  lemma PageFollows(all: seq<Str>, keys: set<Str>, prefix: Str, after: Str, page: seq<Str>)
    requires Listed(all, keys, prefix, after, true) && Strict(page) && Elements(page) <= Matching(keys, prefix, after)
    ensures Strict(all + page)
  {
    forall i | 0 <= i < |page| ensures Less(after, page[i]) { assert page[i] in Elements(page); }
    forall i, j | 0 <= i < |all| && 0 <= j < |page| ensures Less(all[i], page[j]) {
      if i < |all| - 1 { LessTransitive(all[i], after, page[j]); }
    }
  }

  lemma UpToNext(all: seq<Str>, keys: set<Str>, prefix: Str, after: Str, page: seq<Str>, k: Str)
    requires Listed(all, keys, prefix, after, true) && page != []
    requires FirstOf(page, Matching(keys, prefix, after), |page|)
    ensures k in all + page <==> k in keys && HasPrefix(k, prefix) && k != [] && !Less(page[|page| - 1], k)
  {
    var last := page[|page| - 1];
    assert last in Elements(page);
    LessTotal(after, k);
    if k in all { if Less(last, k) { LessTransitive(after, last, k); } }
    if k in page {
      var i :| 0 <= i < |page| && page[i] == k;
      assert k in Elements(page);
      if i < |page| - 1 { LessAsymmetric(k, last); } else { LessIrreflexive(k); }
    }
  }
}
