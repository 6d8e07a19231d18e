/** No indexed path may be a directory above another. The in-memory check walks the parents of every
    path; the bounded-memory one sorts three hex-encoded events per path and sweeps over them. */
module AncestorSweep {
  import opened Bytes
  import opened Model
  import opened ExternalSort
  import RunFiles

  const SLASH: Byte := 47
  const ZERO: Byte := 48  // the byte after the slash
  const TAB: Byte := 9

  predicate Rooted(p: Str) {
    |p| > 2 && p[0] == 46 && p[1] == SLASH
  }

  predicate Above(p: Str, q: Str) {
    HasPrefix(q, p + [SLASH])
  }

  /** The parents the in-memory walk looks at: those longer than one byte. */
  predicate Covers(p: Str, q: Str) {
    |p| > 1 && Above(p, q)
  }

  predicate BelowSome(paths: seq<Str>, q: Str) {
    exists p | p in paths :: Above(p, q)
  }

  predicate NoneAbove(paths: seq<Str>) {
    forall i, j | 0 <= i < |paths| && 0 <= j < |paths| :: !Above(paths[i], paths[j])
  }

  predicate NoneCovers(paths: seq<Str>) {
    forall i, j | 0 <= i < |paths| && 0 <= j < |paths| :: !Covers(paths[i], paths[j])
  }

  lemma RootedCovers(paths: seq<Str>)
    requires forall i | 0 <= i < |paths| :: Rooted(paths[i])
    ensures NoneCovers(paths) <==> NoneAbove(paths)
  {
    assert forall i, j | 0 <= i < |paths| && 0 <= j < |paths| :: Covers(paths[i], paths[j]) <==> Above(paths[i], paths[j]);
  }

  // ---- the in-memory check ------------------------------------------------------------------

  function LastSlash(p: Str): (n: int)
    ensures -1 <= n < |p| && (n >= 0 ==> p[n] == SLASH) && forall k | n < k < |p| :: p[k] != SLASH
  {
    if p == [] then -1 else if p[|p| - 1] == SLASH then |p| - 1 else LastSlash(p[..|p| - 1])
  }

  /** Whether a proper parent of `path` is among `seen`. */
  method ParentSeen(path: Str, seen: set<Str>) returns (found: bool)
    ensures found <==> exists s | s in seen :: Covers(s, path)
  {
    var parent := path;
    while true
      invariant HasPrefix(path, parent)
      invariant forall k | |parent| <= k < |path| && path[k] == SLASH && k > 1 :: path[..k] !in seen
      decreases |parent|
    {
      var slash := LastSlash(parent);
      assert forall k | 0 <= k < |parent| :: parent[k] == path[k];
      if slash <= 1 {
        forall s | s in seen ensures !Covers(s, path) {
          if Covers(s, path) {
            AboveSplit(s, path);
            assert false;
          }
        }
        return false;
      }
      parent := parent[..slash];
      assert parent == path[..slash] && path[slash] == SLASH;
      if parent in seen {
        assert path[..slash + 1] == parent + [SLASH];
        return true;
      }
    }
  }

  method ValidateIndexOrder(paths: seq<Str>) returns (ok: bool)
    ensures ok <==> Strict(paths) && NoneCovers(paths)
  {
    var seen := {};
    for i := 0 to |paths|
      invariant seen == set j | 0 <= j < i :: paths[j]
      invariant Strict(paths[..i])
      invariant forall j, k | 0 <= j < k < i :: !Covers(paths[j], paths[k])
    {
      if i > 0 && !Less(paths[i - 1], paths[i]) { return false; }
      StrictExtend(paths[..i], paths[i]);
      assert paths[..i + 1] == paths[..i] + [paths[i]];
      var found := ParentSeen(paths[i], seen);
      if found {
        var s :| s in seen && Covers(s, paths[i]);
        return false;
      }
      forall j | 0 <= j < i ensures !Covers(paths[j], paths[i]) { assert paths[j] in seen; }
      seen := seen + {paths[i]};
    }
    assert paths[..|paths|] == paths;
    forall i, j | 0 <= i < |paths| && 0 <= j < |paths| ensures !Covers(paths[i], paths[j]) {
      if Covers(paths[i], paths[j]) && i >= j {
        AboveLess(paths[i], paths[j]);
        if i > j { LessAsymmetric(paths[i], paths[j]); } else { LessIrreflexive(paths[i]); }
      }
    }
    ok := true;
  }

  lemma AboveSplit(p: Str, q: Str)
    requires Above(p, q)
    ensures |p| < |q| && q[|p|] == SLASH && q[..|p|] == p
  {
    assert q[|p|] == (p + [SLASH])[|p|] && q[..|p|] == (p + [SLASH])[..|p|];
  }

  lemma AboveLess(p: Str, q: Str)
    requires Above(p, q)
    ensures Less(p, q)
  {
    AboveSplit(p, q);
    LessPrefix(p, [], q[|p|..]);
    assert q == p + q[|p|..] && p + [] == p;
  }

  // ---- hex keeps the order ------------------------------------------------------------------

  function Digit(d: int): Byte
    requires 0 <= d < 16
  {
    if d < 10 then 48 + d else 87 + d
  }

  function Hex(s: Str): (h: Str)
    ensures |h| == 2 * |s| && TAB !in h && Unbroken(h)
  {
    if s == [] then [] else [Digit(s[0] / 16), Digit(s[0] % 16)] + Hex(s[1..])
  }

  lemma HexStep(x: Byte, y: Byte, a: Str, b: Str)
    ensures Less([Digit(x / 16), Digit(x % 16)] + a, [Digit(y / 16), Digit(y % 16)] + b) <==>
            x < y || (x == y && Less(a, b))
  {
    var p, q := [Digit(x / 16), Digit(x % 16)] + a, [Digit(y / 16), Digit(y % 16)] + b;
    assert p[1..][1..] == a && q[1..][1..] == b;
    assert x == 16 * (x / 16) + x % 16 && y == 16 * (y / 16) + y % 16;
    assert Less(p, q) <==> p[0] < q[0] || (p[0] == q[0] && (p[1] < q[1] || (p[1] == q[1] && Less(a, b))));
  }

  lemma {:induction false} HexOrder(a: Str, b: Str)
    ensures Less(Hex(a), Hex(b)) <==> Less(a, b)
    ensures Hex(a) == Hex(b) <==> a == b
  {
    if a != [] && b != [] {
      HexOrder(a[1..], b[1..]);
      HexStep(a[0], b[0], Hex(a[1..]), Hex(b[1..]));
    }
    HexOnce(a, b);
  }

  lemma {:induction false} HexOnce(a: Str, b: Str)
    ensures Hex(a) == Hex(b) ==> a == b
  {
    if a != [] && b != [] && Hex(a) == Hex(b) {
      HexOnce(a[1..], b[1..]);
      HexTail(a);
      HexTail(b);
      assert a[0] == 16 * (a[0] / 16) + a[0] % 16 && b[0] == 16 * (b[0] / 16) + b[0] % 16;
    }
  }

  lemma HexTail(a: Str)
    requires a != []
    ensures Hex(a)[2..] == Hex(a[1..]) && Hex(a)[0] == Digit(a[0] / 16) && Hex(a)[1] == Digit(a[0] % 16) && a == [a[0]] + a[1..]
  {}

  // ---- events -------------------------------------------------------------------------------

  /** Kind 0 closes the interval of a path, 1 opens it, 2 is the path itself. */
  function EventLine(x: Str, kind: Byte): Str
    requires kind < 3
  {
    Hex(x) + [TAB, 48 + kind]
  }

  function Event(x: Str, kind: Byte): Rec
    requires kind < 3
  {
    Rec(Hex(x), EventLine(x, kind))
  }

  function Point(p: Str): Rec { Event(p, 2) }
  function Open(p: Str): Rec { Event(p + [SLASH], 1) }
  function Close(p: Str): Rec { Event(p + [ZERO], 0) }

  function EventLines(paths: seq<Str>): seq<Str> {
    if paths == [] then []
    else ThreeLines(paths[0]) + EventLines(paths[1..])
  }

  /** The sort key: everything before the first tab. */
  function FirstField(line: Str): Option<Str> {
    var n := Cut(line, TAB);
    if n == |line| || n == 0 then None else Some(line[..n])
  }

  lemma EventKey(x: Str, kind: Byte)
    requires kind < 3 && x != []
    ensures FirstField(EventLine(x, kind)) == Some(Hex(x))
  {
    CutUnique(Hex(x), TAB, [48 + kind]);
    assert EventLine(x, kind) == Hex(x) + [TAB] + [48 + kind];
  }

  lemma EventOrder(x: Str, k: Byte, y: Str, l: Byte)
    requires k < 3 && l < 3
    ensures Le(Event(x, k), Event(y, l)) <==> Less(x, y) || (x == y && k <= l)
    ensures Event(x, k) == Event(y, l) <==> x == y && k == l
  {
    HexOrder(x, y);
    LessIrreflexive(Hex(x));
    if x == y {
      LessPrefix(Hex(x), [TAB, 48 + k], [TAB, 48 + l]);
      LessPrefix([TAB], [48 + k], [48 + l]);
      assert [TAB] + [48 + k] == [TAB, 48 + k] && [TAB] + [48 + l] == [TAB, 48 + l];
      if EventLine(x, k) == EventLine(y, l) {
        assert EventLine(x, k)[|Hex(x)| + 1] == EventLine(y, l)[|Hex(x)| + 1];
      }
    }
  }

  lemma OneByte(c: Byte, q: Str)
    requires q != []
    ensures AtMost([c], q) <==> c <= q[0]
  {
    assert [c][1..] == [] && q == [q[0]] + q[1..];
    assert Less([c], q) <==> c < q[0] || (c == q[0] && q[1..] != []);
  }

  /** The interval from p/ to p0 holds exactly the paths below p. */
  lemma {:induction false} Interval(p: Str, q: Str)
    ensures AtMost(p + [SLASH], q) && !AtMost(p + [ZERO], q) <==> Above(p, q)
    ensures AtMost(p + [ZERO], q) ==> AtMost(p + [SLASH], q)
  {
    if p == [] {
      assert p + [SLASH] == [SLASH] && p + [ZERO] == [ZERO];
      if q != [] {
        OneByte(SLASH, q);
        OneByte(ZERO, q);
        assert q[..1] == [q[0]];
      }
    } else {
      assert (p + [SLASH])[1..] == p[1..] + [SLASH] && (p + [ZERO])[1..] == p[1..] + [ZERO];
      if q != [] && q[0] == p[0] {
        Interval(p[1..], q[1..]);
        assert q == [q[0]] + q[1..];
        assert |q| > |p| ==> q[..|p| + 1] == [q[0]] + q[1..][..|p|];
        assert p + [SLASH] == [p[0]] + (p[1..] + [SLASH]) && p + [ZERO] == [p[0]] + (p[1..] + [ZERO]);
      } else if |q| > |p| {
        assert q[..|p| + 1][0] == q[0];
      }
    }
  }

  // ---- the sweep ----------------------------------------------------------------------------

  ghost function Bag(paths: seq<Str>): multiset<Rec> {
    if paths == [] then multiset{} else multiset{Point(paths[0]), Open(paths[0]), Close(paths[0])} + Bag(paths[1..])
  }

  predicate EventOf(p: Str, e: Rec) {
    e == Point(p) || e == Open(p) || e == Close(p)
  }

  function ThreeLines(p: Str): seq<Str> {
    [EventLine(p, 2), EventLine(p + [SLASH], 1), EventLine(p + [ZERO], 0)]
  }

  lemma ThreeRecords(p: Str)
    requires p != []
    ensures Keyed(FirstField, ThreeLines(p))
    ensures RecordsOf(FirstField, ThreeLines(p)) == [Point(p), Open(p), Close(p)]
  {
    EventKey(p, 2);
    EventKey(p + [SLASH], 1);
    EventKey(p + [ZERO], 0);
  }

  lemma {:induction false} EventRecords(paths: seq<Str>)
    requires forall i | 0 <= i < |paths| :: paths[i] != []
    ensures Keyed(FirstField, EventLines(paths))
    ensures multiset(RecordsOf(FirstField, EventLines(paths))) == Bag(paths)
  {
    if paths != [] {
      EventRecords(paths[1..]);
      ThreeRecords(paths[0]);
      RecordsAppend(FirstField, ThreeLines(paths[0]), EventLines(paths[1..]));
    }
  }

  lemma EventClean(x: Str, kind: Byte)
    requires kind < 3
    ensures Unbroken(EventLine(x, kind))
  {}

  /** Hex text survives being read back by the sorter. */
  lemma {:induction false} EventsClean(paths: seq<Str>)
    ensures Clean(EventLines(paths))
  {
    if paths != [] {
      EventsClean(paths[1..]);
      EventClean(paths[0], 2);
      EventClean(paths[0] + [SLASH], 1);
      EventClean(paths[0] + [ZERO], 0);
    }
  }

  lemma EventsDiffer(p: Str, q: Str)
    ensures Point(p) != Open(q) && Point(p) != Close(q) && Open(p) != Close(q)
    ensures (Point(p) == Point(q) <==> p == q) && (Open(p) == Open(q) <==> p == q) && (Close(p) == Close(q) <==> p == q)
  {
    EventOrder(p, 2, q + [SLASH], 1);
    EventOrder(p, 2, q + [ZERO], 0);
    EventOrder(p + [SLASH], 1, q + [ZERO], 0);
    EventOrder(p, 2, q, 2);
    EventOrder(p + [SLASH], 1, q + [SLASH], 1);
    EventOrder(p + [ZERO], 0, q + [ZERO], 0);
    assert (p + [SLASH])[..|p|] == p && (q + [SLASH])[..|q|] == q;
    assert (p + [ZERO])[..|p|] == p && (q + [ZERO])[..|q|] == q;
  }

  lemma FirstOrLater(paths: seq<Str>, p: Str)
    requires paths != []
    ensures p in paths <==> p == paths[0] || p in paths[1..]
  {
    assert paths == [paths[0]] + paths[1..];
  }

  lemma {:induction false} BagHas(paths: seq<Str>, e: Rec)
    ensures e in Bag(paths) <==> exists p | p in paths :: EventOf(p, e)
  {
    if paths != [] {
      BagHas(paths[1..], e);
      assert e in Bag(paths) <==> EventOf(paths[0], e) || e in Bag(paths[1..]);
      forall p ensures p in paths <==> p == paths[0] || p in paths[1..] { FirstOrLater(paths, p); }
    }
  }

  lemma {:induction false} BagOnce(paths: seq<Str>, e: Rec)
    requires Strict(paths)
    ensures Bag(paths)[e] <= 1
  {
    if paths != [] {
      BagOnce(paths[1..], e);
      FirstOnce(paths[0], e);
      if e in Bag(paths[1..]) { OnlyLater(paths, e); }
    }
  }

  lemma FirstOnce(p: Str, e: Rec)
    ensures multiset{Point(p), Open(p), Close(p)}[e] == if EventOf(p, e) then 1 else 0
  {
    EventsDiffer(p, p);
  }

  lemma OnlyLater(paths: seq<Str>, e: Rec)
    requires Strict(paths) && paths != [] && e in Bag(paths[1..])
    ensures !EventOf(paths[0], e)
  {
    BagHas(paths[1..], e);
    var p :| p in paths[1..] && EventOf(p, e);
    LaterDiffers(paths, p);
    EventsDiffer(paths[0], p);
    EventsDiffer(p, paths[0]);
  }

  lemma LaterDiffers(paths: seq<Str>, p: Str)
    requires Strict(paths) && paths != [] && p in paths[1..]
    ensures p != paths[0]
  {
    var i :| 0 <= i < |paths| - 1 && paths[1..][i] == p;
    assert Less(paths[0], paths[i + 1]);
    LessIrreflexive(p);
  }

  /** A sorted listing of all events. */
  ghost predicate Listing(paths: seq<Str>, s: seq<Rec>) {
    Strict(paths) && Sorted(s) && multiset(s) == Bag(paths)
  }

  lemma ListingMembers(paths: seq<Str>, s: seq<Rec>, e: Rec)
    requires Listing(paths, s)
    ensures e in s <==> exists p | p in paths :: EventOf(p, e)
    ensures forall i, j | 0 <= i < j < |s| && s[i] == e :: s[j] != e
  {
    BagHas(paths, e);
    BagOnce(paths, e);
    assert e in s <==> e in multiset(s);
    forall i, j | 0 <= i < j < |s| && s[i] == e ensures s[j] != e {
      if s[j] == e { Twice(s, i, j); }
    }
  }

  function Kind(e: Rec): Byte {
    if e.data == [] then 0 else e.data[|e.data| - 1]
  }

  function Change(kind: Byte): int {
    if kind == 49 then 1 else if kind == 48 then -1 else 0
  }

  /** The counter after a prefix of the events. */
  function Active(s: seq<Rec>): int {
    if s == [] then 0 else Active(s[..|s| - 1]) + Change(Kind(s[|s| - 1]))
  }

  lemma ActiveStep(s: seq<Rec>, n: nat)
    requires n < |s|
    ensures Active(s[..n + 1]) == Active(s[..n]) + Change(Kind(s[n]))
  {
    assert s[..n + 1][..n] == s[..n];
  }

  ghost function Opened(paths: seq<Str>, s: seq<Rec>): set<Str> {
    set p | p in paths && Open(p) in s
  }

  ghost function Closed(paths: seq<Str>, s: seq<Rec>): set<Str> {
    set p | p in paths && Close(p) in s
  }

  lemma OpenGrows(paths: seq<Str>, s: seq<Rec>, e: Rec, p: Str)
    requires p in paths && EventOf(p, e) && e !in s
    ensures Opened(paths, s + [e]) == Opened(paths, s) + (if e == Open(p) then {p} else {})
    ensures e == Open(p) ==> p !in Opened(paths, s)
  {
    forall q | q in paths ensures Open(q) == e <==> q == p && e == Open(p) {
      EventsDiffer(q, p);
      EventsDiffer(p, q);
    }
  }

  lemma CloseGrows(paths: seq<Str>, s: seq<Rec>, e: Rec, p: Str)
    requires p in paths && EventOf(p, e) && e !in s
    ensures Closed(paths, s + [e]) == Closed(paths, s) + (if e == Close(p) then {p} else {})
    ensures e == Close(p) ==> p !in Closed(paths, s)
  {
    forall q | q in paths ensures Close(q) == e <==> q == p && e == Close(p) {
      EventsDiffer(q, p);
      EventsDiffer(p, q);
    }
  }

  lemma OpenedStep(paths: seq<Str>, s: seq<Rec>, e: Rec, p: Str)
    requires p in paths && EventOf(p, e) && e !in s
    ensures |Opened(paths, s + [e])| == |Opened(paths, s)| + (if e == Open(p) then 1 else 0)
    ensures |Closed(paths, s + [e])| == |Closed(paths, s)| + (if e == Close(p) then 1 else 0)
  {
    OpenGrows(paths, s, e, p);
    CloseGrows(paths, s, e, p);
  }

  lemma {:induction false} ActiveCounts(paths: seq<Str>, s: seq<Rec>, n: nat)
    requires Listing(paths, s) && n <= |s|
    ensures Active(s[..n]) == |Opened(paths, s[..n])| - |Closed(paths, s[..n])|
  {
    if n == 0 {
      assert Opened(paths, s[..0]) == {} && Closed(paths, s[..0]) == {};
    } else {
      ActiveCounts(paths, s, n - 1);
      ListingMembers(paths, s, s[n - 1]);
      var p :| p in paths && EventOf(p, s[n - 1]);
      CountsStep(paths, s, n - 1, p);
    }
  }

  lemma CountsStep(paths: seq<Str>, s: seq<Rec>, n: nat, p: Str)
    requires n < |s| && p in paths && EventOf(p, s[n]) && s[n] !in s[..n]
    ensures Active(s[..n + 1]) - Active(s[..n]) ==
            (|Opened(paths, s[..n + 1])| - |Closed(paths, s[..n + 1])|) - (|Opened(paths, s[..n])| - |Closed(paths, s[..n])|)
  {
    ActiveStep(s, n);
    assert s[..n + 1] == s[..n] + [s[n]];
    EventChange(p, s[n]);
    OpenedStep(paths, s[..n], s[n], p);
  }

  lemma EventChange(p: Str, e: Rec)
    requires EventOf(p, e)
    ensures Change(Kind(e)) == (if e == Open(p) then 1 else 0) - (if e == Close(p) then 1 else 0)
  {
    EventKinds(p);
    EventsDiffer(p, p);
  }

  /** An event lies before position `n` exactly when it is less than the event there. */
  lemma Before(paths: seq<Str>, s: seq<Rec>, n: nat, e: Rec)
    requires Listing(paths, s) && n < |s| && e in s && e != s[n]
    ensures e in s[..n] <==> Le(e, s[n])
  {
    LeTotal(e, s[n]);
    var k :| 0 <= k < |s| && s[k] == e;
    if e in s[..n] { var j :| 0 <= j < n && s[j] == e; }
  }

  lemma ClosedWithin(paths: seq<Str>, s: seq<Rec>, n: nat)
    requires Listing(paths, s) && n <= |s|
    ensures Closed(paths, s[..n]) <= Opened(paths, s[..n])
  {
    forall p | p in Closed(paths, s[..n]) ensures p in Opened(paths, s[..n]) {
      var k :| 0 <= k < n && s[k] == Close(p);
      ListingMembers(paths, s, Close(p));
      OpenListed(paths, s, p);
      EventsDiffer(p, p);
      Before(paths, s, k, Open(p));
      EventOrder(p + [SLASH], 1, p + [ZERO], 0);
      LessPrefix(p, [SLASH], [ZERO]);
    }
  }

  lemma OpenListed(paths: seq<Str>, s: seq<Rec>, p: Str)
    requires Listing(paths, s) && p in paths
    ensures Open(p) in s && Close(p) in s && Point(p) in s
  {
    assert EventOf(p, Open(p)) && EventOf(p, Close(p)) && EventOf(p, Point(p));
    ListingMembers(paths, s, Open(p));
    ListingMembers(paths, s, Close(p));
    ListingMembers(paths, s, Point(p));
  }

  lemma SubsetSizes<T>(a: set<T>, b: set<T>)
    requires a <= b
    ensures |a| <= |b| && (|a| == |b| <==> a == b)
  {
    assert b == a + (b - a);
  }

  /** At a path the counter is not zero exactly when the path lies below another. */
  lemma AtPoint(paths: seq<Str>, s: seq<Rec>, n: nat, q: Str)
    requires Listing(paths, s) && n < |s| && s[n] == Point(q)
    ensures Active(s[..n]) >= 0
    ensures Active(s[..n]) != 0 <==> BelowSome(paths, q)
  {
    ActiveCounts(paths, s, n);
    ClosedWithin(paths, s, n);
    SubsetSizes(Closed(paths, s[..n]), Opened(paths, s[..n]));
    forall p | p in paths
      ensures p in Opened(paths, s[..n]) && p !in Closed(paths, s[..n]) <==> Above(p, q)
    {
      OpenListed(paths, s, p);
      EventsDiffer(q, p);
      Before(paths, s, n, Open(p));
      Before(paths, s, n, Close(p));
      EventOrder(p + [SLASH], 1, q, 2);
      EventOrder(p + [ZERO], 0, q, 2);
      Interval(p, q);
    }
  }

  lemma AtClose(paths: seq<Str>, s: seq<Rec>, n: nat, p: Str)
    requires Listing(paths, s) && n < |s| && p in paths && s[n] == Close(p)
    ensures Active(s[..n]) > 0
  {
    ActiveCounts(paths, s, n);
    ClosedWithin(paths, s, n);
    SubsetSizes(Closed(paths, s[..n]), Opened(paths, s[..n]));
    OpenListed(paths, s, p);
    EventsDiffer(p, p);
    Before(paths, s, n, Open(p));
    EventOrder(p + [SLASH], 1, p + [ZERO], 0);
    LessPrefix(p, [SLASH], [ZERO]);
    ListingMembers(paths, s, Close(p));
    assert p in Opened(paths, s[..n]) && p !in Closed(paths, s[..n]);
  }

  lemma AtEnd(paths: seq<Str>, s: seq<Rec>)
    requires Listing(paths, s)
    ensures Active(s) == 0
  {
    ActiveCounts(paths, s, |s|);
    assert s[..|s|] == s;
    forall p | p in paths ensures Open(p) in s && Close(p) in s { OpenListed(paths, s, p); }
    assert Opened(paths, s) == Closed(paths, s);
  }

  /** What the sweep demands of the event at position `i`. */
  predicate Acceptable(s: seq<Rec>, i: nat)
    requires i < |s|
  {
    && (Kind(s[i]) == 48 ==> Active(s[..i]) != 0) && (Kind(s[i]) == 50 ==> Active(s[..i]) == 0)
    && 48 <= Kind(s[i]) <= 50
  }

  /** The sweep over sorted events, with its ordering errors. */
  method ValidateAncestorEvents(s: seq<Rec>) returns (ok: bool)
    ensures ok <==> Active(s) == 0 && forall i | 0 <= i < |s| :: Acceptable(s, i)
  {
    var active := 0;
    for i := 0 to |s|
      invariant active == Active(s[..i])
      invariant forall j | 0 <= j < i :: Acceptable(s, j)
    {
      ActiveStep(s, i);
      var kind := Kind(s[i]);
      if kind < 48 || kind > 50 || (kind == 48 && active == 0) || (kind == 50 && active != 0) {
        assert !Acceptable(s, i);
        return false;
      }
      active := if kind == 48 then active - 1 else if kind == 49 then active + 1 else active;
    }
    assert s[..|s|] == s;
    ok := active == 0;
  }

  lemma EventKinds(p: Str)
    ensures Kind(Point(p)) == 50 && Kind(Open(p)) == 49 && Kind(Close(p)) == 48
  {}

  /** Only a path below another makes the sweep fail: the ordering errors cannot happen. */
  lemma SweepDecides(paths: seq<Str>, s: seq<Rec>, i: nat)
    requires Listing(paths, s) && i < |s|
    ensures !Acceptable(s, i) <==> exists q | q in paths :: s[i] == Point(q) && BelowSome(paths, q)
  {
    ListingMembers(paths, s, s[i]);
    var p :| p in paths && EventOf(p, s[i]);
    EventKinds(p);
    forall q | q in paths ensures s[i] == Point(q) ==> q == p && s[i] == Point(p) {
      EventsDiffer(q, p);
    }
    if s[i] == Close(p) { AtClose(paths, s, i, p); }
    if s[i] == Point(p) { AtPoint(paths, s, i, p); }
  }

  /** Events, external sort and sweep together decide the ancestor question for any sorter setting. */
  method NoAncestorStream(paths: seq<Str>, options: RunFiles.Options) returns (ok: bool)
    requires Strict(paths) && !options.unique && forall i | 0 <= i < |paths| :: Rooted(paths[i])
    ensures ok <==> NoneAbove(paths)
  {
    var lines := EventLines(paths);
    EventRecords(paths);
    EventsClean(paths);
    var sorted := RunFiles.SortLines(lines, FirstField, options);
    ok := ValidateAncestorEvents(sorted.value);
    SweepCorrect(paths, sorted.value);
  }

  lemma SweepCorrect(paths: seq<Str>, s: seq<Rec>)
    requires Listing(paths, s)
    ensures Active(s) == 0 && (NoneAbove(paths) <==> forall i | 0 <= i < |s| :: Acceptable(s, i))
  {
    AtEnd(paths, s);
    if NoneAbove(paths) {
      forall i | 0 <= i < |s| ensures Acceptable(s, i) { AcceptedWhenClear(paths, s, i); }
    } else {
      var i, j :| 0 <= i < |paths| && 0 <= j < |paths| && Above(paths[i], paths[j]);
      var n := PointRefused(paths, s, paths[i], paths[j]);
    }
  }

  lemma AcceptedWhenClear(paths: seq<Str>, s: seq<Rec>, i: nat)
    requires Listing(paths, s) && NoneAbove(paths) && i < |s|
    ensures Acceptable(s, i)
  {
    forall q | q in paths ensures !BelowSome(paths, q) {}
    SweepDecides(paths, s, i);
  }

  lemma PointRefused(paths: seq<Str>, s: seq<Rec>, p: Str, q: Str) returns (n: nat)
    requires Listing(paths, s) && p in paths && q in paths && Above(p, q)
    ensures n < |s| && !Acceptable(s, n)
  {
    OpenListed(paths, s, q);
    n :| 0 <= n < |s| && s[n] == Point(q);
    assert BelowSome(paths, q);
    SweepDecides(paths, s, n);
  }
}
