/** Recovery from manifests alone: the search for logical paths, and the choice among equivalent
    physical representations of each edge. */
module RecoverySearch {
  import opened Model
  import opened Bytes

  // ---- logical edges ------------------------------------------------------------------------

  datatype EdgeKind = Full | Incremental

  /** What makes two manifests descriptions of the same edge. */
  datatype Edge = Edge(uuid: string, sequence: nat, base: string, tip: string, kind: EdgeKind)

  datatype Representation = Representation(edge: Edge, key: string)

  predicate Distinct<T(==)>(s: seq<T>) {
    forall i, j | 0 <= i < j < |s| :: s[i] != s[j]
  }

  /** Groups the candidates by edge identity. */
  method GroupEdges(candidates: seq<Representation>) returns (edges: seq<Edge>, alternatives: map<Edge, seq<Representation>>)
    ensures Distinct(edges) && |edges| <= |candidates|
    ensures forall e :: e in edges <==> exists i | 0 <= i < |candidates| :: candidates[i].edge == e
    ensures forall e | e in edges :: e in alternatives && alternatives[e] != []
    ensures forall e, r | e in alternatives :: r in alternatives[e] <==> r in candidates && r.edge == e
  {
    edges, alternatives := [], map[];
    for i := 0 to |candidates|
      invariant Distinct(edges) && |edges| <= i
      invariant forall e :: e in edges <==> e in alternatives
      invariant forall e :: e in edges <==> exists k | 0 <= k < i :: candidates[k].edge == e
      invariant forall e | e in alternatives :: alternatives[e] != []
      invariant forall e, r | e in alternatives :: r in alternatives[e] <==> r in candidates[..i] && r.edge == e
    {
      var r := candidates[i];
      Longer(candidates, i);
      if r.edge !in alternatives {
        edges := edges + [r.edge];
        alternatives := alternatives[r.edge := [r]];
      } else {
        alternatives := alternatives[r.edge := alternatives[r.edge] + [r]];
      }
    }
    assert candidates[..|candidates|] == candidates;
  }

  function ByTip(edges: seq<Edge>, tip: string): seq<Edge> {
    if edges == [] then []
    else (if edges[0].tip == tip then [edges[0]] else []) + ByTip(edges[1..], tip)
  }

  lemma {:induction false} ByTipHas(edges: seq<Edge>, tip: string)
    ensures forall e :: e in ByTip(edges, tip) <==> e in edges && e.tip == tip
    ensures Distinct(edges) ==> Distinct(ByTip(edges, tip))
  {
    if edges != [] {
      ByTipHas(edges[1..], tip);
      assert edges == [edges[0]] + edges[1..];
      assert Distinct(edges) ==> edges[0] !in edges[1..];
    }
  }

  // ---- paths --------------------------------------------------------------------------------

  /** `child` continues the history that `parent` ends. */
  predicate Joins(parent: Edge, child: Edge) {
    && child.kind == Incremental && child.sequence > 0 && child.base == parent.tip
    && parent.uuid == child.uuid && parent.sequence == child.sequence - 1
  }

  /** From a full edge, step by step. */
  predicate Path(edges: seq<Edge>, p: seq<Edge>) {
    && p != [] && p[0].kind == Full
    && (forall i | 0 <= i < |p| :: p[i] in edges)
    && forall i | 0 < i < |p| :: Joins(p[i - 1], p[i])
  }

  predicate PathTo(edges: seq<Edge>, p: seq<Edge>, e: Edge) {
    Path(edges, p) && p[|p| - 1] == e
  }

  /** A path to `e` is `e` alone when it is full, else a path to a parent and `e`. */
  lemma PathSplit(edges: seq<Edge>, p: seq<Edge>, e: Edge)
    requires PathTo(edges, p, e)
    ensures e.kind == Full ==> p == [e]
    ensures e.kind == Incremental ==> |p| > 1 && Joins(p[|p| - 2], e) && PathTo(edges, p[..|p| - 1], p[|p| - 2]) && p == p[..|p| - 1] + [e]
  {
    if |p| > 1 { assert Joins(p[|p| - 2], p[|p| - 1]); }
  }

  lemma PathJoin(edges: seq<Edge>, p: seq<Edge>, parent: Edge, e: Edge)
    requires PathTo(edges, p, parent) && Joins(parent, e) && e in edges
    ensures PathTo(edges, p + [e], e)
  {}

  /** The part of a path already walked, nearest edge first in time: each joins the next. */
  predicate Tail(edges: seq<Edge>, e: Edge, rest: seq<Edge>) {
    && e in edges && (forall i | 0 <= i < |rest| :: rest[i] in edges)
    && (rest != [] ==> Joins(e, rest[0])) && forall i | 0 < i < |rest| :: Joins(rest[i - 1], rest[i])
  }

  lemma {:induction false} TailSequences(edges: seq<Edge>, e: Edge, rest: seq<Edge>, i: nat)
    requires Tail(edges, e, rest) && i < |rest|
    ensures rest[i].sequence == e.sequence + i + 1
  {
    if i > 0 {
      TailSequences(edges, e, rest, i - 1);
      assert Joins(rest[i - 1], rest[i]);
    } else {
      assert Joins(e, rest[0]);
    }
  }

  /** The walked part never holds more edges than there are: sequence numbers rise along it. */
  lemma TailShort(edges: seq<Edge>, e: Edge, rest: seq<Edge>)
    requires Tail(edges, e, rest)
    ensures |rest| < |edges|
  {
    var all := [e] + rest;
    forall i, j | 0 <= i < j < |all| ensures all[i] != all[j] {
      TailSequences(edges, e, rest, j - 1);
      if i > 0 { TailSequences(edges, e, rest, i - 1); }
    }
    DistinctFits(all, edges);
  }

  lemma {:induction false} DistinctFits(a: seq<Edge>, b: seq<Edge>)
    requires Distinct(a) && forall i | 0 <= i < |a| :: a[i] in b
    ensures |a| <= |b|
  {
    if a != [] {
      var n := |a| - 1;
      var k :| 0 <= k < |b| && b[k] == a[n];
      var c := b[..k] + b[k + 1..];
      forall i | 0 <= i < n ensures a[..n][i] in c {
        assert a[i] in b && a[i] != a[n];
        var m :| 0 <= m < |b| && b[m] == a[i];
        assert if m < k then c[m] == a[i] else c[m - 1] == a[i];
      }
      DistinctFits(a[..n], c);
    }
  }

  const MAX_CHOICES := 1_000_000
  const MAX_PATHS := 10_000
  const MAX_ATTEMPTS := 10_000

  datatype Search = Found(paths: seq<seq<Edge>>, choices: nat) | TooLarge

  /** `x` is a path to `e` continued by `rest`. */
  predicate Continues(edges: seq<Edge>, e: Edge, rest: seq<Edge>, x: seq<Edge>) {
    |x| > |rest| && x[|x| - |rest|..] == rest && PathTo(edges, x[..|x| - |rest|], e)
  }

  /** Everything the walk from `e` adds: each path to `e`, continued by what was walked before, once. */
  ghost predicate Walked(edges: seq<Edge>, e: Edge, rest: seq<Edge>, found: seq<seq<Edge>>) {
    && Distinct(found)
    && (forall k | 0 <= k < |found| :: Continues(edges, e, rest, found[k]))
    && forall p | PathTo(edges, p, e) :: p + rest in found
  }

  lemma WalkedFull(edges: seq<Edge>, e: Edge, rest: seq<Edge>)
    requires e in edges && e.kind == Full
    ensures Walked(edges, e, rest, [[e] + rest])
  {
    var x := [e] + rest;
    assert x[..|x| - |rest|] == [e] && x[|x| - |rest|..] == rest;
    forall p | PathTo(edges, p, e) ensures p + rest in [x] { PathSplit(edges, p, e); }
  }

  lemma WalkedNone(edges: seq<Edge>, e: Edge, rest: seq<Edge>)
    requires e.kind == Incremental && e.sequence == 0
    ensures Walked(edges, e, rest, [])
  {
    forall p ensures !PathTo(edges, p, e) {
      if PathTo(edges, p, e) { PathSplit(edges, p, e); }
    }
  }

  /** The edge before `e` in such a path. */
  function Before(x: seq<Edge>, rest: seq<Edge>): Edge
    requires |x| > |rest| + 1
  {
    x[|x| - |rest| - 2]
  }

  /** What the loop over the parents has gathered. */
  ghost predicate Gathered(edges: seq<Edge>, e: Edge, rest: seq<Edge>, parents: seq<Edge>, found: seq<seq<Edge>>) {
    && Distinct(found)
    && (forall k | 0 <= k < |found| :: |found[k]| > |rest| + 1 && Continues(edges, e, rest, found[k]) && Before(found[k], rest) in parents)
    && forall p, q | q in parents && Joins(q, e) && PathTo(edges, p, q) :: p + ([e] + rest) in found
  }

  lemma ContinuesThrough(edges: seq<Edge>, q: Edge, e: Edge, rest: seq<Edge>, x: seq<Edge>)
    requires Continues(edges, q, [e] + rest, x) && Joins(q, e) && e in edges
    ensures |x| > |rest| + 1 && Continues(edges, e, rest, x) && Before(x, rest) == q
  {
    var n := |x| - |rest|;
    var front := x[..n - 1];
    assert x[n - 1..] == [e] + rest;
    assert x[n - 1] == ([e] + rest)[0] && x[n..] == x[n - 1..][1..] == ([e] + rest)[1..] == rest;
    PathJoin(edges, front, q, e);
    assert x[..n] == front + [e];
  }

  lemma GatherStep(edges: seq<Edge>, e: Edge, rest: seq<Edge>, parents: seq<Edge>, found: seq<seq<Edge>>, q: Edge, sub: seq<seq<Edge>>)
    requires Gathered(edges, e, rest, parents, found) && Walked(edges, q, [e] + rest, sub)
    requires Joins(q, e) && q !in parents && e in edges
    ensures Gathered(edges, e, rest, parents + [q], found + sub)
  {
    forall k | 0 <= k < |sub| ensures |sub[k]| > |rest| + 1 && Continues(edges, e, rest, sub[k]) && Before(sub[k], rest) == q {
      ContinuesThrough(edges, q, e, rest, sub[k]);
    }
    var all := found + sub;
    forall i, j | 0 <= i < j < |all| ensures all[i] != all[j] {
      if i < |found| <= j { assert Before(found[i], rest) in parents; }
    }
    forall p, r | r in parents + [q] && Joins(r, e) && PathTo(edges, p, r) ensures p + ([e] + rest) in all {
      if r == q { assert p + ([e] + rest) in sub; } else { assert p + ([e] + rest) in found; }
    }
  }

  lemma GatherSkip(edges: seq<Edge>, e: Edge, rest: seq<Edge>, parents: seq<Edge>, found: seq<seq<Edge>>, q: Edge)
    requires Gathered(edges, e, rest, parents, found) && !Joins(q, e)
    ensures Gathered(edges, e, rest, parents + [q], found)
  {}

  lemma GatherAll(edges: seq<Edge>, e: Edge, rest: seq<Edge>, parents: seq<Edge>, found: seq<seq<Edge>>)
    requires Gathered(edges, e, rest, parents, found) && e.kind == Incremental
    requires forall q | q in edges && q.tip == e.base :: q in parents
    ensures Walked(edges, e, rest, found)
  {
    forall p | PathTo(edges, p, e) ensures p + rest in found {
      PathSplit(edges, p, e);
      var front, q := p[..|p| - 1], p[|p| - 2];
      assert q in parents && Joins(q, e) && PathTo(edges, front, q);
      assert front + ([e] + rest) in found;
      assert front + ([e] + rest) == p + rest;
    }
  }

  /** How many edges the walk from `e` enters, and how many paths it completes. */
  function Visits(edges: seq<Edge>, e: Edge): nat
    decreases e.sequence, 1, 0
  {
    1 + if e.kind == Incremental && e.sequence > 0 then VisitsOf(edges, ByTip(edges, e.base), e) else 0
  }

  function VisitsOf(edges: seq<Edge>, parents: seq<Edge>, e: Edge): nat
    decreases e.sequence, 0, |parents|
  {
    if parents == [] then 0
    else
      var q := parents[|parents| - 1];
      VisitsOf(edges, parents[..|parents| - 1], e) + if Joins(q, e) then Visits(edges, q) else 0
  }

  function Count(edges: seq<Edge>, e: Edge): nat
    decreases e.sequence, 1, 0
  {
    if e.kind == Full then 1
    else if e.sequence > 0 then CountOf(edges, ByTip(edges, e.base), e)
    else 0
  }

  function CountOf(edges: seq<Edge>, parents: seq<Edge>, e: Edge): nat
    decreases e.sequence, 0, |parents|
  {
    if parents == [] then 0
    else
      var q := parents[|parents| - 1];
      CountOf(edges, parents[..|parents| - 1], e) + if Joins(q, e) then Count(edges, q) else 0
  }

  lemma SumStep(edges: seq<Edge>, parents: seq<Edge>, e: Edge, k: nat)
    requires k < |parents|
    ensures VisitsOf(edges, parents[..k + 1], e) == VisitsOf(edges, parents[..k], e) + (if Joins(parents[k], e) then Visits(edges, parents[k]) else 0)
    ensures CountOf(edges, parents[..k + 1], e) == CountOf(edges, parents[..k], e) + (if Joins(parents[k], e) then Count(edges, parents[k]) else 0)
  {
    assert parents[..k + 1][..k] == parents[..k];
  }

  lemma {:induction false} SumGrows(edges: seq<Edge>, parents: seq<Edge>, e: Edge, k: nat)
    requires k <= |parents|
    ensures VisitsOf(edges, parents[..k], e) <= VisitsOf(edges, parents, e) && CountOf(edges, parents[..k], e) <= CountOf(edges, parents, e)
    decreases |parents| - k
  {
    if k < |parents| {
      SumStep(edges, parents, e, k);
      SumGrows(edges, parents, e, k + 1);
    } else {
      assert parents[..k] == parents;
    }
  }

  /** What a search reports: its exact cost within the budgets, or a budget that the search exceeds. */
  predicate Fair(s: Search, choices: nat, total: nat, visits: nat, count: nat) {
    if s.Found? then s.choices == choices + visits && |s.paths| == count && Affordable(choices, total, visits, count)
    else choices + visits > MAX_CHOICES || total + count > MAX_PATHS
  }

  /** Nothing more was spent than the budgets have left. */
  predicate Affordable(choices: nat, total: nat, visits: nat, count: nat) {
    (visits > 0 ==> choices + visits <= MAX_CHOICES) && (count > 0 ==> total + count <= MAX_PATHS)
  }

  /** The depth-first walk towards full edges. `manifests` bounds the path length. */
  method Walk(edges: seq<Edge>, manifests: nat, e: Edge, rest: seq<Edge>, choices: nat, total: nat) returns (s: Search)
    requires Distinct(edges) && |edges| <= manifests && Tail(edges, e, rest)
    ensures s.Found? ==> Walked(edges, e, rest, s.paths)
    ensures Fair(s, choices, total, Visits(edges, e), Count(edges, e))
    decreases e.sequence, 1, 0
  {
    var c: nat := choices + 1;
    if c > MAX_CHOICES { return TooLarge; }
    TailShort(edges, e, rest);
    if |rest| >= manifests {
      assert false;  // no path is longer than the manifest count
    }
    if e.kind == Full {
      WalkedFull(edges, e, rest);
      if total + 1 > MAX_PATHS { return TooLarge; }
      return Found([[e] + rest], c);
    }
    if e.sequence == 0 {
      WalkedNone(edges, e, rest);
      return Found([], c);
    }
    s := WalkParents(edges, manifests, e, rest, c, total);
  }

  method WalkParents(edges: seq<Edge>, manifests: nat, e: Edge, rest: seq<Edge>, choices: nat, total: nat) returns (s: Search)
    requires Distinct(edges) && |edges| <= manifests && Tail(edges, e, rest) && e.kind == Incremental && e.sequence > 0
    ensures s.Found? ==> Walked(edges, e, rest, s.paths)
    ensures Fair(s, choices, total, VisitsOf(edges, ByTip(edges, e.base), e), CountOf(edges, ByTip(edges, e.base), e))
    decreases e.sequence, 0, 2
  {
    var parents := ByTip(edges, e.base);
    ByTipHas(edges, e.base);
    s := Found([], choices);
    for k := 0 to |parents|
      invariant s.Found? && ParentsWalked(edges, e, rest, parents, k, choices, total, s)
    {
      s := NextParent(edges, manifests, e, rest, parents, k, choices, total, s);
      if s.TooLarge? { return; }
    }
    Whole(parents);
    GatherAll(edges, e, rest, parents, s.paths);
  }

  /** The first `k` parents were walked, at their exact cost. */
  ghost predicate ParentsWalked(edges: seq<Edge>, e: Edge, rest: seq<Edge>, parents: seq<Edge>, k: nat, choices: nat, total: nat, s: Search) {
    && s.Found? && k <= |parents| && Gathered(edges, e, rest, parents[..k], s.paths)
    && Fair(s, choices, total, VisitsOf(edges, parents[..k], e), CountOf(edges, parents[..k], e))
  }

  method NextParent(edges: seq<Edge>, manifests: nat, e: Edge, rest: seq<Edge>, parents: seq<Edge>, k: nat, choices: nat, total: nat, done: Search)
    returns (s: Search)
    requires Distinct(edges) && |edges| <= manifests && Tail(edges, e, rest) && e.kind == Incremental && e.sequence > 0
    requires Distinct(parents) && k < |parents| && (forall q | q in parents :: q in edges && q.tip == e.base)
    requires ParentsWalked(edges, e, rest, parents, k, choices, total, done)
    ensures s.Found? ==> ParentsWalked(edges, e, rest, parents, k + 1, choices, total, s)
    ensures s.TooLarge? ==> Fair(s, choices, total, VisitsOf(edges, parents, e), CountOf(edges, parents, e))
    decreases e.sequence, 0, 1
  {
    NotPassed(parents, k);
    var sub := WalkParent(edges, manifests, e, rest, parents[..k], done.paths, parents[k], done.choices, total + |done.paths|);
    SumStep(edges, parents, e, k);
    SumGrows(edges, parents, e, k + 1);
    if sub.TooLarge? { return TooLarge; }
    Longer(parents, k);
    s := Found(done.paths + sub.paths, sub.choices);
  }

  lemma Whole(parents: seq<Edge>)
    ensures parents[..|parents|] == parents
  {}

  lemma NotPassed(parents: seq<Edge>, k: nat)
    requires Distinct(parents) && k < |parents|
    ensures parents[k] in parents && parents[k] !in parents[..k]
  {}

  method WalkParent(edges: seq<Edge>, manifests: nat, e: Edge, rest: seq<Edge>, ghost passed: seq<Edge>, ghost found: seq<seq<Edge>>, q: Edge, choices: nat, total: nat)
    returns (s: Search)
    requires Distinct(edges) && |edges| <= manifests && Tail(edges, e, rest) && e.kind == Incremental && e.sequence > 0
    requires q in edges && q.tip == e.base && q !in passed && Gathered(edges, e, rest, passed, found)
    ensures s.Found? ==> Gathered(edges, e, rest, passed + [q], found + s.paths)
    ensures Fair(s, choices, total, if Joins(q, e) then Visits(edges, q) else 0, if Joins(q, e) then Count(edges, q) else 0)
    decreases e.sequence, 0, 0
  {
    if q.uuid != e.uuid || q.sequence != e.sequence - 1 {
      GatherSkip(edges, e, rest, passed, found, q);
      assert found + [] == found;
      return Found([], choices);
    }
    TailGrows(edges, q, e, rest);
    s := Walk(edges, manifests, q, [e] + rest, choices, total);
    if s.Found? { GatherStep(edges, e, rest, passed, found, q, s.paths); }
  }

  lemma TailGrows(edges: seq<Edge>, q: Edge, e: Edge, rest: seq<Edge>)
    requires Tail(edges, e, rest) && q in edges && Joins(q, e)
    ensures Tail(edges, q, [e] + rest)
  {}

  /** Cost of the searches from all edges that end at the tip. */
  function AllVisits(edges: seq<Edge>, ends: seq<Edge>): nat {
    if ends == [] then 0 else AllVisits(edges, ends[..|ends| - 1]) + Visits(edges, ends[|ends| - 1])
  }

  function AllCount(edges: seq<Edge>, ends: seq<Edge>): nat {
    if ends == [] then 0 else AllCount(edges, ends[..|ends| - 1]) + Count(edges, ends[|ends| - 1])
  }

  lemma {:induction false} AllGrows(edges: seq<Edge>, ends: seq<Edge>, k: nat)
    requires k <= |ends|
    ensures AllVisits(edges, ends[..k]) <= AllVisits(edges, ends) && AllCount(edges, ends[..k]) <= AllCount(edges, ends)
    decreases |ends| - k
  {
    if k < |ends| {
      assert ends[..k + 1][..k] == ends[..k];
      AllGrows(edges, ends, k + 1);
    } else {
      assert ends[..k] == ends;
    }
  }

  /** The whole search for a tip takes more choices or finds more paths than the budgets allow. */
  predicate Exceeds(edges: seq<Edge>, tip: string) {
    AllVisits(edges, ByTip(edges, tip)) > MAX_CHOICES || AllCount(edges, ByTip(edges, tip)) > MAX_PATHS
  }

  method WalkEnds(edges: seq<Edge>, manifests: nat, ends: seq<Edge>) returns (s: Search)
    requires Distinct(edges) && |edges| <= manifests && Distinct(ends) && forall e | e in ends :: e in edges
    ensures s.Found? ==> EndsGathered(edges, ends, s.paths)
    ensures Fair(s, 0, 0, AllVisits(edges, ends), AllCount(edges, ends))
  {
    s := Found([], 0);
    for k := 0 to |ends|
      invariant EndsWalked(edges, ends, k, s)
    {
      s := NextEnd(edges, manifests, ends, k, s);
      if s.TooLarge? { return; }
    }
    assert ends[..|ends|] == ends;
  }

  /** The searches from the first `k` ends are done, at their exact cost. */
  ghost predicate EndsWalked(edges: seq<Edge>, ends: seq<Edge>, k: nat, s: Search) {
    && s.Found? && k <= |ends| && EndsGathered(edges, ends[..k], s.paths)
    && Fair(s, 0, 0, AllVisits(edges, ends[..k]), AllCount(edges, ends[..k]))
  }

  lemma AllStep(edges: seq<Edge>, ends: seq<Edge>, k: nat)
    requires k < |ends|
    ensures AllVisits(edges, ends[..k + 1]) == AllVisits(edges, ends[..k]) + Visits(edges, ends[k])
    ensures AllCount(edges, ends[..k + 1]) == AllCount(edges, ends[..k]) + Count(edges, ends[k])
  {
    assert ends[..k + 1][..k] == ends[..k];
  }

  method NextEnd(edges: seq<Edge>, manifests: nat, ends: seq<Edge>, k: nat, done: Search) returns (s: Search)
    requires Distinct(edges) && |edges| <= manifests && Distinct(ends) && forall e | e in ends :: e in edges
    requires k < |ends| && EndsWalked(edges, ends, k, done)
    ensures s.Found? ==> EndsWalked(edges, ends, k + 1, s)
    ensures s.TooLarge? ==> Fair(s, 0, 0, AllVisits(edges, ends), AllCount(edges, ends))
  {
    AllStep(edges, ends, k);
    AllGrows(edges, ends, k + 1);
    var sub := Walk(edges, manifests, ends[k], [], done.choices, |done.paths|);
    if sub.TooLarge? { return TooLarge; }
    Longer(ends, k);
    EndStep(edges, ends[..k], done.paths, ends[k], sub.paths);
    s := Found(done.paths + sub.paths, sub.choices);
  }

  /** Exactly the paths from a full edge to the tip, each once, unless the search exceeds a budget. */
  method LogicalPaths(edges: seq<Edge>, manifests: nat, tip: string) returns (s: Search)
    requires Distinct(edges) && |edges| <= manifests
    ensures s.Found? ==> Distinct(s.paths)
    ensures s.Found? ==> forall p: seq<Edge> :: p in s.paths <==> Path(edges, p) && p[|p| - 1].tip == tip
    ensures Fair(s, 0, 0, AllVisits(edges, ByTip(edges, tip)), AllCount(edges, ByTip(edges, tip)))
    ensures s.TooLarge? <==> Exceeds(edges, tip)
  {
    ByTipHas(edges, tip);
    s := WalkEnds(edges, manifests, ByTip(edges, tip));
    if s.Found? {
      forall p: seq<Edge> ensures p in s.paths <==> Path(edges, p) && p[|p| - 1].tip == tip {
        EndsMean(edges, ByTip(edges, tip), s.paths, tip, p);
      }
    }
  }

  lemma EndsMean(edges: seq<Edge>, ends: seq<Edge>, paths: seq<seq<Edge>>, tip: string, p: seq<Edge>)
    requires EndsGathered(edges, ends, paths) && forall e :: e in ends <==> e in edges && e.tip == tip
    ensures p in paths <==> Path(edges, p) && p[|p| - 1].tip == tip
  {
    if Path(edges, p) && p[|p| - 1].tip == tip { assert PathTo(edges, p, p[|p| - 1]); }
    if p in paths { var k :| 0 <= k < |paths| && paths[k] == p; }
  }

  ghost predicate EndsGathered(edges: seq<Edge>, ends: seq<Edge>, paths: seq<seq<Edge>>) {
    && Distinct(paths)
    && (forall k | 0 <= k < |paths| :: Path(edges, paths[k]) && paths[k][|paths[k]| - 1] in ends)
    && forall p, e | e in ends && PathTo(edges, p, e) :: p in paths
  }

  lemma EndStep(edges: seq<Edge>, ends: seq<Edge>, paths: seq<seq<Edge>>, e: Edge, sub: seq<seq<Edge>>)
    requires EndsGathered(edges, ends, paths) && Walked(edges, e, [], sub) && e !in ends
    ensures EndsGathered(edges, ends + [e], paths + sub)
  {
    forall k | 0 <= k < |sub| ensures PathTo(edges, sub[k], e) { assert sub[k][..|sub[k]|] == sub[k]; }
    var all := paths + sub;
    forall i, j | 0 <= i < j < |all| ensures all[i] != all[j] {
      if i < |paths| <= j { assert paths[i][|paths[i]| - 1] in ends; }
    }
    forall p, f | f in ends + [e] && PathTo(edges, p, f) ensures p in all {
      if f == e { assert p + [] == p; assert p + [] in sub; } else { assert p in paths; }
    }
  }

  /** Grouping and search together. */
  method RecoveryLogicalPaths(candidates: seq<Representation>, tip: string)
    returns (s: Search, alternatives: map<Edge, seq<Representation>>, ghost edges: seq<Edge>)
    ensures Distinct(edges) && forall e :: e in edges <==> e in EdgesOf(candidates)
    ensures Fair(s, 0, 0, AllVisits(edges, ByTip(edges, tip)), AllCount(edges, ByTip(edges, tip)))
    ensures s.TooLarge? <==> Exceeds(edges, tip)
    ensures s.Found? ==> Distinct(s.paths)
    ensures s.Found? ==> forall p: seq<Edge> :: p in s.paths <==> Path(EdgesOf(candidates), p) && p[|p| - 1].tip == tip
    ensures s.Found? ==> forall p, i | p in s.paths && 0 <= i < |p| :: p[i] in alternatives && alternatives[p[i]] != []
    ensures forall e, r | e in alternatives :: r in alternatives[e] <==> r in candidates && r.edge == e
  {
    var grouped;
    grouped, alternatives := GroupEdges(candidates);
    edges := grouped;
    s := LogicalPaths(grouped, |candidates|, tip);
    SameEdges(candidates, edges);
    forall p ensures Path(edges, p) <==> Path(EdgesOf(candidates), p) { SamePaths(candidates, edges, p); }
  }

  lemma SameEdges(candidates: seq<Representation>, edges: seq<Edge>)
    requires forall e :: e in edges <==> exists i | 0 <= i < |candidates| :: candidates[i].edge == e
    ensures forall e :: e in edges <==> e in EdgesOf(candidates)
  {
    forall e ensures e in edges <==> e in EdgesOf(candidates) {
      if e in edges {
        var i :| 0 <= i < |candidates| && candidates[i].edge == e;
        assert EdgesOf(candidates)[i] == e;
      }
    }
  }

  function EdgesOf(candidates: seq<Representation>): seq<Edge> {
    seq(|candidates|, i requires 0 <= i < |candidates| => candidates[i].edge)
  }

  lemma SamePaths(candidates: seq<Representation>, edges: seq<Edge>, p: seq<Edge>)
    requires forall e :: e in edges <==> exists i | 0 <= i < |candidates| :: candidates[i].edge == e
    ensures Path(edges, p) <==> Path(EdgesOf(candidates), p)
  {
    SameEdges(candidates, edges);
  }

  // ---- the choice among representations -----------------------------------------------------

  /** Whether importing a representation of an edge succeeds; equivalent representations rebuild the
      same commits, so the answer does not depend on the choices for earlier edges. */
  type Import = (nat, Representation) -> bool

  /** The first usable alternative from `k` on, or their number. */
  function FirstFrom(alternatives: seq<Representation>, i: nat, k: nat, usable: Import): (n: nat)
    requires k <= |alternatives|
    ensures k <= n <= |alternatives| && (n < |alternatives| ==> usable(i, alternatives[n]))
    ensures forall j | k <= j < n :: !usable(i, alternatives[j])
    decreases |alternatives| - k
  {
    if k == |alternatives| || usable(i, alternatives[k]) then k else FirstFrom(alternatives, i, k + 1, usable)
  }

  function First(chain: seq<seq<Representation>>, i: nat, usable: Import): nat
    requires i < |chain|
  {
    FirstFrom(chain[i], i, 0, usable)
  }

  predicate Recoverable(chain: seq<seq<Representation>>, usable: Import) {
    forall i | 0 <= i < |chain| :: First(chain, i, usable) < |chain[i]|
  }

  function Firsts(chain: seq<seq<Representation>>, usable: Import): seq<nat> {
    seq(|chain|, i requires 0 <= i < |chain| => First(chain, i, usable))
  }

  function Sum(s: seq<nat>): nat {
    if s == [] then 0 else Sum(s[..|s| - 1]) + s[|s| - 1]
  }

  lemma {:induction false} SumUpdate(s: seq<nat>, i: nat)
    requires i < |s|
    ensures Sum(s[i := s[i] + 1]) == Sum(s) + 1
  {
    var t, n := s[i := s[i] + 1], |s| - 1;
    if i < n {
      SumUpdate(s[..n], i);
      assert t[..n] == s[..n][i := s[i] + 1];
    } else {
      assert t[..n] == s[..n];
    }
  }

  lemma {:induction false} SumAtMost(a: seq<nat>, b: seq<nat>)
    requires |a| == |b| && forall i | 0 <= i < |a| :: a[i] <= b[i]
    ensures Sum(a) <= Sum(b)
  {
    if a != [] { SumAtMost(a[..|a| - 1], b[..|b| - 1]); }
  }

  lemma {:induction false} SumZero(s: seq<nat>)
    requires forall i | 0 <= i < |s| :: s[i] == 0
    ensures Sum(s) == 0
  {
    if s != [] { SumZero(s[..|s| - 1]); }
  }

  /** No choice has skipped a usable representation. */
  predicate Pending(chain: seq<seq<Representation>>, choices: seq<nat>, usable: Import) {
    |choices| == |chain| && forall i | 0 <= i < |chain| :: choices[i] < |chain[i]| && choices[i] <= First(chain, i, usable)
  }

  /** One attempt imports the chosen representations in order up to the first failure. */
  method Attempt(chain: seq<seq<Representation>>, choices: seq<nat>, usable: Import) returns (chosen: seq<Representation>)
    requires Pending(chain, choices, usable)
    ensures |chosen| <= |chain|
    ensures forall i | 0 <= i < |chosen| :: chosen[i] == chain[i][choices[i]] && usable(i, chosen[i])
    ensures |chosen| < |chain| ==> !usable(|chosen|, chain[|chosen|][choices[|chosen|]])
  {
    chosen := [];
    for i := 0 to |chain|
      invariant |chosen| == i
      invariant forall k | 0 <= k < i :: chosen[k] == chain[k][choices[k]] && usable(k, chosen[k])
    {
      if !usable(i, chain[i][choices[i]]) { return; }
      chosen := chosen + [chain[i][choices[i]]];
    }
  }

  /** Succeeds exactly when every edge has a usable representation within the attempt limit, chooses the
      first usable one everywhere, and needs one attempt more than representations it rejects. */
  method MaterializeChain(chain: seq<seq<Representation>>, usable: Import) returns (r: Option<seq<Representation>>, attempts: nat)
    ensures r.Some? <==> chain != [] && Recoverable(chain, usable) && 1 + Sum(Firsts(chain, usable)) <= MAX_ATTEMPTS
    ensures r.Some? ==> |r.value| == |chain| && forall i | 0 <= i < |chain| :: r.value[i] == chain[i][First(chain, i, usable)]
    ensures r.Some? ==> attempts == 1 + Sum(Firsts(chain, usable))
  {
    r, attempts := None, 0;
    if chain == [] { return; }
    for i := 0 to |chain|
      invariant forall k | 0 <= k < i :: chain[k] != []
    {
      if chain[i] == [] {
        assert First(chain, i, usable) == |chain[i]|;
        return;
      }
    }
    var choices: seq<nat> := seq(|chain|, i => 0);
    SumZero(choices);
    while attempts < MAX_ATTEMPTS
      invariant Pending(chain, choices, usable) && Sum(choices) == attempts <= MAX_ATTEMPTS && r.None?
    {
      attempts := attempts + 1;
      var chosen := Attempt(chain, choices, usable);
      if |chosen| == |chain| {
        FirstsChosen(chain, choices, usable, chosen);
        return Some(chosen), attempts;
      }
      var e := |chosen|;
      SumUpdate(choices, e);
      choices := choices[e := choices[e] + 1];
      if choices[e] == |chain[e]| {
        assert First(chain, e, usable) == |chain[e]|;
        return;
      }
    }
    SumAtMost(choices, Firsts(chain, usable));
  }

  lemma FirstsChosen(chain: seq<seq<Representation>>, choices: seq<nat>, usable: Import, chosen: seq<Representation>)
    requires Pending(chain, choices, usable) && |chosen| == |chain|
    requires forall i | 0 <= i < |chosen| :: chosen[i] == chain[i][choices[i]] && usable(i, chosen[i])
    ensures choices == Firsts(chain, usable) && Recoverable(chain, usable)
  {
    forall i | 0 <= i < |chain| ensures choices[i] == First(chain, i, usable) { assert usable(i, chain[i][choices[i]]); }
  }

  function Spare(chain: seq<seq<Representation>>): seq<nat>
    requires forall i | 0 <= i < |chain| :: chain[i] != []
  {
    seq(|chain|, i requires 0 <= i < |chain| => |chain[i]| - 1)
  }

  /** A chain whose spare representations fit the limit is recovered whenever it can be. */
  lemma WithinLimit(chain: seq<seq<Representation>>, usable: Import)
    requires Recoverable(chain, usable) && (forall i | 0 <= i < |chain| :: chain[i] != []) && 1 + Sum(Spare(chain)) <= MAX_ATTEMPTS
    ensures 1 + Sum(Firsts(chain, usable)) <= 1 + Sum(Spare(chain)) <= MAX_ATTEMPTS
  {
    SumAtMost(Firsts(chain, usable), Spare(chain));
  }
}
