/** Validation of a whole history, from genesis or resumed at a cached anchor. */
module HistoryCache {
  import opened Bytes
  import opened Model
  import opened ExternalSort
  import opened Canonical
  import opened CatalogCheck
  import opened Transitions
  import AncestorSweep
  import RunFiles

  // ---- mirror topology ----------------------------------------------------------------------

  predicate Bound(rows: seq<Mirror>) {
    forall i, j | 0 <= i < |rows| && 0 <= j < |rows| :: rows[i].name == rows[j].name ==> rows[i] == rows[j]
  }

  /** One row per name, sorted, the same rows. */
  ghost predicate Compacts(rows: seq<Mirror>, out: seq<Mirror>) {
    Strict(Names(out)) && forall m: Mirror :: m in out <==> m in rows
  }

  function MirrorLine(m: Mirror): Str {
    m.name + [TAB] + m.binding
  }

  predicate Nameable(rows: seq<Mirror>) {
    forall i | 0 <= i < |rows| :: MirrorOk(rows[i])
  }

  lemma MirrorRecord(m: Mirror)
    requires MirrorOk(m)
    ensures HasKey(AncestorSweep.FirstField, MirrorLine(m)) && Unbroken(MirrorLine(m))
    ensures RecordOf(AncestorSweep.FirstField, MirrorLine(m)) == Rec(m.name, MirrorLine(m))
    ensures FromRecord(Rec(m.name, MirrorLine(m))) == m
  {
    CutUnique(m.name, TAB, m.binding);
    assert MirrorLine(m)[..|m.name|] == m.name && MirrorLine(m)[|m.name| + 1..] == m.binding;
  }

  function FromRecord(r: Rec): Mirror {
    Mirror(r.key, if |r.key| < |r.data| then r.data[|r.key| + 1..] else [])
  }

  function MirrorLines(rows: seq<Mirror>): seq<Str> {
    seq(|rows|, i requires 0 <= i < |rows| => MirrorLine(rows[i]))
  }

  function FromRecords(s: seq<Rec>): seq<Mirror> {
    seq(|s|, i requires 0 <= i < |s| => FromRecord(s[i]))
  }

  /** The sorted file holds the rows, ordered by name. */
  ghost predicate SortedRows(rows: seq<Mirror>, t: seq<Mirror>) {
    SameRows(t, rows) && Nameable(t) && forall i, j | 0 <= i < j < |t| :: AtMost(t[i].name, t[j].name)
  }

  ghost predicate SameRows(a: seq<Mirror>, b: seq<Mirror>) {
    forall m: Mirror :: m in a <==> m in b
  }

  lemma RecordIsRow(rows: seq<Mirror>, s: seq<Rec>, i: nat)
    requires Nameable(rows) && Rearranged(MirrorLines(rows), s) && i < |s|
    ensures FromRecord(s[i]) in rows && FromRecord(s[i]).name == s[i].key
  {
    var k := RecordSource(MirrorLines(rows), s, i);
    MirrorRecord(rows[k]);
  }

  lemma RowIsRecord(rows: seq<Mirror>, s: seq<Rec>, k: nat)
    requires Nameable(rows) && Rearranged(MirrorLines(rows), s) && k < |rows|
    ensures rows[k] in FromRecords(s)
  {
    MirrorRecord(rows[k]);
    var i := RecordTarget(MirrorLines(rows), s, k);
    assert FromRecords(s)[i] == rows[k];
  }

  lemma SortGivesRows(rows: seq<Mirror>, s: seq<Rec>)
    requires Nameable(rows) && Rearranged(MirrorLines(rows), s)
    ensures SortedRows(rows, FromRecords(s))
  {
    var t := FromRecords(s);
    forall i | 0 <= i < |t| ensures t[i] in rows && t[i].name == s[i].key { RecordIsRow(rows, s, i); }
    forall k | 0 <= k < |rows| ensures rows[k] in t { RowIsRecord(rows, s, k); }
    forall i, j | 0 <= i < j < |t| ensures AtMost(t[i].name, t[j].name) { assert Le(s[i], s[j]); }
  }

  /** Rows written so far for the first `i` sorted rows. */
  ghost predicate Written(t: seq<Mirror>, i: nat, out: seq<Mirror>) {
    && i <= |t| && Strict(Names(out)) && SameRows(out, t[..i])
    && (out == [] <==> i == 0) && (i > 0 ==> out[|out| - 1] == t[i - 1])
  }

  lemma NamesExtend(out: seq<Mirror>, m: Mirror)
    requires Strict(Names(out)) && (out != [] ==> Less(out[|out| - 1].name, m.name))
    ensures Strict(Names(out + [m]))
  {
    StrictExtend(Names(out), m.name);
    assert Names(out + [m]) == Names(out) + [m.name];
  }

  lemma WriteRow(t: seq<Mirror>, i: nat, out: seq<Mirror>)
    requires Written(t, i, out) && i < |t| && (i > 0 ==> Less(t[i - 1].name, t[i].name))
    ensures Written(t, i + 1, out + [t[i]])
  {
    NamesExtend(out, t[i]);
    assert t[..i + 1] == t[..i] + [t[i]];
  }

  lemma SkipRow(t: seq<Mirror>, i: nat, out: seq<Mirror>)
    requires Written(t, i, out) && 0 < i < |t| && t[i - 1] == t[i]
    ensures Written(t, i + 1, out)
  {
    assert t[..i + 1] == t[..i] + [t[i]];
    assert t[..i][i - 1] == t[i];
  }

  lemma Rebound(rows: seq<Mirror>, t: seq<Mirror>, i: nat)
    requires SortedRows(rows, t) && 0 < i < |t| && t[i - 1].name == t[i].name && t[i - 1] != t[i]
    ensures !Bound(rows)
  {
    assert t[i - 1] in rows && t[i] in rows;
    var j :| 0 <= j < |rows| && rows[j] == t[i - 1];
    var k :| 0 <= k < |rows| && rows[k] == t[i];
  }

  lemma CompactsBound(rows: seq<Mirror>, out: seq<Mirror>)
    requires Compacts(rows, out)
    ensures Bound(rows)
  {
    forall i, j | 0 <= i < |rows| && 0 <= j < |rows| && rows[i].name == rows[j].name ensures rows[i] == rows[j] {
      assert rows[i] in rows && rows[j] in rows;
      SameNameSameRow(out, rows[i], rows[j]);
    }
  }

  lemma NamesDiffer(out: seq<Mirror>, i: nat, j: nat)
    requires Strict(Names(out)) && i < j < |out|
    ensures out[i].name != out[j].name
  {
    assert Less(Names(out)[i], Names(out)[j]);
    LessIrreflexive(out[i].name);
  }

  lemma SameNameSameRow(out: seq<Mirror>, a: Mirror, b: Mirror)
    requires Strict(Names(out)) && a in out && b in out && a.name == b.name
    ensures a == b
  {
    var i :| 0 <= i < |out| && out[i] == a;
    var j :| 0 <= j < |out| && out[j] == b;
    if i < j { NamesDiffer(out, i, j); } else if j < i { NamesDiffer(out, j, i); }
  }

  /** Compaction succeeds exactly when every name keeps one binding. */
  method CompactMirrorTopology(rows: seq<Mirror>, options: RunFiles.Options) returns (r: Option<seq<Mirror>>)
    requires Nameable(rows) && !options.unique
    ensures r.Some? <==> Bound(rows)
    ensures r.Some? ==> Compacts(rows, r.value)
  {
    forall i | 0 <= i < |rows| ensures HasKey(AncestorSweep.FirstField, MirrorLines(rows)[i]) && Unbroken(MirrorLines(rows)[i]) {
      MirrorRecord(rows[i]);
    }
    var sorted := RunFiles.SortLines(MirrorLines(rows), AncestorSweep.FirstField, options);
    SortGivesRows(rows, sorted.value);
    r := CompactSorted(rows, FromRecords(sorted.value));
  }

  method CompactSorted(ghost rows: seq<Mirror>, t: seq<Mirror>) returns (r: Option<seq<Mirror>>)
    requires SortedRows(rows, t)
    ensures r.Some? <==> Bound(rows)
    ensures r.Some? ==> Compacts(rows, r.value)
  {
    var out: seq<Mirror> := [];
    var previousName: Str, previousRow: Option<Mirror> := [], None;
    for i := 0 to |t|
      invariant Written(t, i, out)
      invariant if i == 0 then previousName == [] else previousName == t[i - 1].name && previousRow == Some(t[i - 1])
    {
      if t[i].name == previousName {
        if Some(t[i]) != previousRow {
          Rebound(rows, t, i);
          return None;
        }
        SkipRow(t, i, out);
        continue;
      }
      assert i > 0 ==> AtMost(t[i - 1].name, t[i].name);
      WriteRow(t, i, out);
      out := out + [t[i]];
      previousName, previousRow := t[i].name, Some(t[i]);
    }
    assert t[..|t|] == t;
    CompactsBound(rows, out);
    r := Some(out);
  }

  /** What a compaction returns depends only on which rows there are. */
  lemma {:induction false} CompactsOnce(rows: seq<Mirror>, a: seq<Mirror>, b: seq<Mirror>)
    requires Compacts(rows, a) && Compacts(rows, b)
    ensures a == b
  {
    StrictSame(a, b);
  }

  lemma SomeRow(b: seq<Mirror>) returns (m: Mirror)
    requires b != []
    ensures m in b
  {
    m := b[0];
  }

  lemma {:induction false} StrictSame(a: seq<Mirror>, b: seq<Mirror>)
    requires Strict(Names(a)) && Strict(Names(b)) && forall m: Mirror :: m in a <==> m in b
    ensures a == b
  {
    if a == [] {
      if b != [] { var m := SomeRow(b); }
    } else {
      assert a[|a| - 1] in b;
      assert b != [];
      LastSame(a, b);
      var p, q := a[..|a| - 1], b[..|b| - 1];
      assert a == p + [a[|a| - 1]] && b == q + [b[|b| - 1]];
      PrefixStrict(a);
      PrefixStrict(b);
      forall m: Mirror ensures m in p <==> m in q {
        LastOnce(a);
        LastOnce(b);
        assert m in a <==> m in p || m == a[|a| - 1];
        assert m in b <==> m in q || m == b[|b| - 1];
      }
      StrictSame(p, q);
    }
  }

  lemma PrefixStrict(a: seq<Mirror>)
    requires Strict(Names(a)) && a != []
    ensures Strict(Names(a[..|a| - 1]))
  {
    assert Names(a[..|a| - 1]) == Names(a)[..|a| - 1];
  }

  lemma LastOnce(a: seq<Mirror>)
    requires Strict(Names(a)) && a != []
    ensures a[|a| - 1] !in a[..|a| - 1]
  {
    forall i | 0 <= i < |a| - 1 ensures a[i] != a[|a| - 1] {
      assert Less(Names(a)[i], Names(a)[|a| - 1]);
      LessIrreflexive(a[i].name);
    }
  }

  lemma LastSame(a: seq<Mirror>, b: seq<Mirror>)
    requires Strict(Names(a)) && Strict(Names(b)) && a != [] && b != [] && forall m: Mirror :: m in a <==> m in b
    ensures a[|a| - 1] == b[|b| - 1]
  {
    var x, y := a[|a| - 1], b[|b| - 1];
    assert x in b && y in a;
    var i :| 0 <= i < |b| && b[i] == x;
    var j :| 0 <= j < |a| && a[j] == y;
    if i < |b| - 1 && j < |a| - 1 {
      assert Less(Names(b)[i], Names(b)[|b| - 1]) && Less(Names(a)[j], Names(a)[|a| - 1]);
      LessAsymmetric(x.name, y.name);
    }
  }

  // ---- histories ----------------------------------------------------------------------------

  type Oid = nat

  /** Commit objects by their content address; `state` is absent where the tree does not parse. */
  datatype GitCommit = GitCommit(parents: seq<Oid>, state: Option<RepoState>)
  type Repo = map<Oid, GitCommit>

  datatype ValidatedCommit = ValidatedCommit(id: Oid, parent: Option<Oid>, state: RepoState)

  function ValidateCommit(repo: Repo, id: Oid): Option<ValidatedCommit> {
    if id in repo && |repo[id].parents| <= 1 && repo[id].state.Some? && StateOk(repo[id].state.value)
    then Some(ValidatedCommit(id, if repo[id].parents == [] then None else Some(repo[id].parents[0]), repo[id].state.value))
    else None
  }

  /** The enumeration lists parents before children. */
  predicate Topological(repo: Repo, ids: seq<Oid>) {
    forall k, p | 0 <= k < |ids| && ids[k] in repo && p in repo[ids[k]].parents :: p in ids[..k]
  }

  predicate GenesisOk(s: RepoState) {
    s.index == [] && s.objects == [] && s.packs == [] && s.mirrors != []
  }

  function KindOf(before: RepoState, after: RepoState, keysOk: bool): TransitionKind {
    if RepairStep(before, after, keysOk) then TransitionKind.Repair
    else if OrdinaryStep(before, after, keysOk) then TransitionKind.Ordinary
    else Invalid
  }

  type KeyRule = (Str, Str) -> bool

  function StepKind(before: RepoState, after: RepoState, rule: KeyRule): TransitionKind {
    KindOf(before, after, rule(before.keys, after.keys))
  }

  /** A commit with the one listed before it as its only parent, or a genesis. */
  predicate Link(repo: Repo, previous: Option<Oid>, id: Oid, rule: KeyRule) {
    var c := ValidateCommit(repo, id);
    && c.Some? && c.value.parent == previous
    && if previous.None? then GenesisOk(c.value.state)
       else
         var p := ValidateCommit(repo, previous.value);
         p.Some? && StepKind(p.value.state, c.value.state, rule) != Invalid
  }

  function Previous(ids: seq<Oid>, k: nat): Option<Oid>
    requires k < |ids|
  {
    if k == 0 then None else Some(ids[k - 1])
  }

  predicate Linked(repo: Repo, ids: seq<Oid>, k: nat, rule: KeyRule)
    requires k < |ids|
  {
    Link(repo, Previous(ids, k), ids[k], rule)
  }

  predicate AllLinked(repo: Repo, ids: seq<Oid>, rule: KeyRule) {
    forall k | 0 <= k < |ids| :: Linked(repo, ids, k, rule)
  }

  function MirrorsOf(repo: Repo, id: Oid): seq<Mirror> {
    if ValidateCommit(repo, id).Some? then ValidateCommit(repo, id).value.state.mirrors else []
  }

  function AllMirrors(repo: Repo, ids: seq<Oid>): seq<Mirror> {
    if ids == [] then [] else AllMirrors(repo, ids[..|ids| - 1]) + MirrorsOf(repo, ids[|ids| - 1])
  }

  /** What validation from genesis accepts. */
  predicate Accepts(repo: Repo, ids: seq<Oid>, tip: Oid, rule: KeyRule) {
    ids != [] && ids[|ids| - 1] == tip && AllLinked(repo, ids, rule) && Bound(AllMirrors(repo, ids))
  }

  datatype History = History(tip: ValidatedCommit, transition: TransitionKind, format: Str, count: nat, topology: seq<Mirror>)

  function LastKind(repo: Repo, ids: seq<Oid>, rule: KeyRule): TransitionKind
    requires ids != [] && AllLinked(repo, ids, rule)
  {
    var n := |ids| - 1;
    assert Linked(repo, ids, n, rule);
    if n == 0 then Invalid
    else StepKind(ValidateCommit(repo, ids[n - 1]).value.state, ValidateCommit(repo, ids[n]).value.state, rule)
  }

  /** What validation from genesis reports. */
  ghost predicate Reports(repo: Repo, ids: seq<Oid>, rule: KeyRule, h: History)
    requires ids != [] && AllLinked(repo, ids, rule)
  {
    && ValidateCommit(repo, ids[|ids| - 1]) == Some(h.tip)
    && h.transition == LastKind(repo, ids, rule) && h.count == |ids|
    && ValidateCommit(repo, ids[0]).Some? && h.format == ValidateCommit(repo, ids[0]).value.state.format
    && Compacts(AllMirrors(repo, ids), h.topology)
  }

  // ---- the cache ----------------------------------------------------------------------------

  datatype Cache = Cache(commit: Oid, sequence: nat, transition: TransitionKind, blobs: RepoState, topology: seq<Mirror>)

  /** The cache was written after validating the history `past`, which ends at its commit. */
  ghost predicate Genuine(repo: Repo, c: Cache, past: seq<Oid>, rule: KeyRule) {
    && Accepts(repo, past, c.commit, rule) && |past| == c.sequence + 1
    && c.transition == LastKind(repo, past, rule)
    && ValidateCommit(repo, c.commit).Some? && ValidateCommit(repo, c.commit).value.state == c.blobs
    && Compacts(AllMirrors(repo, past), c.topology)
  }

  /** Each element of `past` is listed after the one before it. */
  predicate ListedInOrder(ids: seq<Oid>, past: seq<Oid>) {
    forall k, j | 0 < k < |past| && 0 <= j < |ids| && ids[j] == past[k] :: past[k - 1] in ids[..j]
  }

  lemma SameUpTo(ids: seq<Oid>, past: seq<Oid>, s: nat)
    requires |past| == s + 1 && s < |ids| && ids[..s] == past[..s] && ids[s] == past[s]
    ensures ids[..s + 1] == past
  {
    forall k | 0 <= k <= s ensures ids[k] == past[k] {
      if k < s { assert ids[..s][k] == past[..s][k]; }
    }
  }

  /** A chain of n + 1 elements that ends at position n or before fills the first n + 1 positions. */
  lemma {:induction false} ChainFills(ids: seq<Oid>, past: seq<Oid>, n: nat)
    requires ListedInOrder(ids, past) && past != [] && n < |ids| && n <= |past| - 1 && ids[n] == past[|past| - 1]
    ensures n == |past| - 1 && ids[..n + 1] == past
    decreases |past|
  {
    var s := |past| - 1;
    if s > 0 {
      assert past[s - 1] in ids[..n];
      var m :| 0 <= m < n && ids[m] == past[s - 1];
      ChainFills(ids, past[..s], m);
      SameUpTo(ids, past, s);
    } else {
      SameUpTo(ids, past, 0);
    }
  }

  lemma OrderFromLinks(repo: Repo, ids: seq<Oid>, past: seq<Oid>, rule: KeyRule)
    requires Topological(repo, ids) && AllLinked(repo, past, rule)
    ensures ListedInOrder(ids, past)
  {
    forall k, j | 0 < k < |past| && 0 <= j < |ids| && ids[j] == past[k] ensures past[k - 1] in ids[..j] {
      assert Linked(repo, past, k, rule);
      assert past[k - 1] in repo[ids[j]].parents;
    }
  }

  /** In a topological enumeration a history of n + 1 commits that ends at position n or before fills
      the first n + 1 positions. */
  lemma PrefixIsPast(repo: Repo, ids: seq<Oid>, past: seq<Oid>, n: nat, rule: KeyRule)
    requires Topological(repo, ids) && AllLinked(repo, past, rule) && past != []
    requires n < |ids| && n <= |past| - 1 && ids[n] == past[|past| - 1]
    ensures n == |past| - 1 && ids[..n + 1] == past
  {
    OrderFromLinks(repo, ids, past, rule);
    ChainFills(ids, past, n);
  }

  /** Links depend on a position and the one before it. */
  lemma PrefixLinked(repo: Repo, ids: seq<Oid>, n: nat, rule: KeyRule)
    requires n <= |ids| && AllLinked(repo, ids[..n], rule)
    ensures forall k | 0 <= k < n :: Linked(repo, ids, k, rule)
  {
    forall k | 0 <= k < n ensures Linked(repo, ids, k, rule) { assert Linked(repo, ids[..n], k, rule); }
  }

  lemma {:induction false} FormatKept(repo: Repo, ids: seq<Oid>, k: nat, rule: KeyRule)
    requires k < |ids| && forall j | 0 <= j <= k :: Linked(repo, ids, j, rule)
    ensures ValidateCommit(repo, ids[0]).Some? && ValidateCommit(repo, ids[k]).Some?
    ensures ValidateCommit(repo, ids[k]).value.state.format == ValidateCommit(repo, ids[0]).value.state.format
  {
    assert Linked(repo, ids, k, rule);
    if k > 0 { FormatKept(repo, ids, k - 1, rule); }
  }

  datatype Run = Run(rows: seq<Mirror>, tip: ValidatedCommit, transition: TransitionKind, format: Str)

  /** Where the run stands before position `k`: everything linked, the rows collected. */
  ghost predicate Standing(repo: Repo, ids: seq<Oid>, k: nat, rule: KeyRule, run: Run) {
    && 0 < k <= |ids| && AllLinked(repo, ids[..k], rule)
    && SameRows(run.rows, AllMirrors(repo, ids[..k]))
    && ValidateCommit(repo, ids[k - 1]) == Some(run.tip)
    && run.transition == LastKind(repo, ids[..k], rule)
    && ValidateCommit(repo, ids[0]).Some? && run.format == ValidateCommit(repo, ids[0]).value.state.format
  }

  lemma LinkedAppend(repo: Repo, ids: seq<Oid>, k: nat, rule: KeyRule)
    requires k < |ids| && AllLinked(repo, ids[..k], rule) && Linked(repo, ids, k, rule)
    ensures AllLinked(repo, ids[..k + 1], rule)
  {
    var next := ids[..k + 1];
    forall j | 0 <= j < |next| ensures Linked(repo, next, j, rule) {
      if j < k { assert Linked(repo, ids[..k], j, rule); }
    }
  }

  lemma MirrorsAppend(repo: Repo, ids: seq<Oid>, k: nat, rows: seq<Mirror>)
    requires k < |ids| && SameRows(rows, AllMirrors(repo, ids[..k]))
    ensures SameRows(rows + MirrorsOf(repo, ids[k]), AllMirrors(repo, ids[..k + 1]))
  {
    assert ids[..k + 1][..k] == ids[..k];
  }

  /** The checks on one commit; `before` is the state of the commit listed before it. */
  method CheckLink(repo: Repo, previous: Option<Oid>, before: Option<RepoState>, id: Oid, rule: KeyRule, options: RunFiles.Options)
    returns (r: Option<ValidatedCommit>, kind: TransitionKind)
    requires !options.unique
    requires if previous.None? then before.None? else before.Some? && ValidateCommit(repo, previous.value).Some? && ValidateCommit(repo, previous.value).value.state == before.value
    ensures r.Some? <==> Link(repo, previous, id, rule)
    ensures r.Some? ==> r == ValidateCommit(repo, id) && kind == if before.None? then Invalid else StepKind(before.value, r.value.state, rule)
  {
    r, kind := ValidateCommit(repo, id), TransitionKind.Invalid;
    if r.None? { return; }
    var commit := r.value;
    if previous.None? {
      if commit.parent.Some? || !GenesisOk(commit.state) { r := None; }
    } else {
      if commit.parent != previous { return None, kind; }
      kind := ValidateTransition(before.value, commit.state, rule(before.value.keys, commit.state.keys), options);
      if kind == Invalid { r := None; }
    }
  }

  lemma NextStanding(repo: Repo, ids: seq<Oid>, k: nat, run: Run, rule: KeyRule, c: ValidatedCommit, kind: TransitionKind)
    requires k < |ids| && 0 < k && Standing(repo, ids, k, rule, run) && Linked(repo, ids, k, rule)
    requires ValidateCommit(repo, ids[k]) == Some(c) && kind == StepKind(run.tip.state, c.state, rule)
    ensures Standing(repo, ids, k + 1, rule, Run(run.rows + c.state.mirrors, c, kind, run.format))
  {
    MirrorsAppend(repo, ids, k, run.rows);
    LinkedAppend(repo, ids, k, rule);
    LastKindAt(repo, ids, k, rule);
  }

  lemma LastKindAt(repo: Repo, ids: seq<Oid>, k: nat, rule: KeyRule)
    requires 0 < k < |ids| && AllLinked(repo, ids[..k + 1], rule)
    requires ValidateCommit(repo, ids[k - 1]).Some? && ValidateCommit(repo, ids[k]).Some?
    ensures LastKind(repo, ids[..k + 1], rule) ==
            StepKind(ValidateCommit(repo, ids[k - 1]).value.state, ValidateCommit(repo, ids[k]).value.state, rule)
  {}

  lemma FirstStanding(repo: Repo, ids: seq<Oid>, rule: KeyRule, c: ValidatedCommit)
    requires ids != [] && Linked(repo, ids, 0, rule) && ValidateCommit(repo, ids[0]) == Some(c)
    ensures Standing(repo, ids, 1, rule, Run(c.state.mirrors, c, Invalid, c.state.format))
  {
    MirrorsAppend(repo, ids, 0, []);
    LinkedAppend(repo, ids, 0, rule);
    assert [] + c.state.mirrors == c.state.mirrors;
  }

  /** One turn of the loop: the commit at `k` is checked against what precedes it. */
  method ValidateNext(repo: Repo, ids: seq<Oid>, k: nat, run: Option<Run>, rule: KeyRule, options: RunFiles.Options) returns (next: Option<Run>)
    requires k < |ids| && !options.unique
    requires StandsAt(repo, ids, k, rule, run)
    ensures next.None? ==> !AllLinked(repo, ids, rule)
    ensures next.Some? ==> StandsAt(repo, ids, k + 1, rule, next)
  {
    var before := if k == 0 then None else Some(run.value.tip.state);
    var c, kind := CheckLink(repo, Previous(ids, k), before, ids[k], rule, options);
    if c.None? {
      assert !Linked(repo, ids, k, rule);
      return None;
    }
    if k == 0 {
      FirstStanding(repo, ids, rule, c.value);
      next := Some(Run(c.value.state.mirrors, c.value, kind, c.value.state.format));
    } else {
      NextStanding(repo, ids, k, run.value, rule, c.value, kind);
      next := Some(Run(run.value.rows + c.value.state.mirrors, c.value, kind, run.value.format));
    }
  }

  /** Resumes at the cached commit where it still stands at its position. */
  method TryAnchor(repo: Repo, ids: seq<Oid>, c: Cache, rule: KeyRule, ghost past: seq<Oid>) returns (run: Option<Run>)
    requires Topological(repo, ids) && Genuine(repo, c, past, rule)
    ensures run.Some? <==> c.sequence < |ids| && ids[c.sequence] == c.commit
    ensures run.Some? ==> Standing(repo, ids, c.sequence + 1, rule, run.value)
  {
    if c.sequence >= |ids| || ids[c.sequence] != c.commit { return None; }
    var n := c.sequence;
    PrefixIsPast(repo, ids, past, n, rule);
    PrefixLinked(repo, ids, n + 1, rule);
    assert Linked(repo, ids, n, rule);
    var anchor := ValidateCommit(repo, c.commit);
    var parentOk := if n == 0 then anchor.value.parent.None? else anchor.value.parent == Some(ids[n - 1]);
    var genesisOk := n != 0 || GenesisOk(anchor.value.state);
    assert anchor.Some? && anchor.value.state == c.blobs && parentOk && genesisOk;  // so no test falls back to genesis
    FormatKept(repo, ids, n, rule);
    AnchorRows(repo, past, c);
    run := Some(Run(c.topology + anchor.value.state.mirrors, anchor.value, c.transition, anchor.value.state.format));
  }

  lemma AnchorRows(repo: Repo, past: seq<Oid>, c: Cache)
    requires past != [] && past[|past| - 1] == c.commit && Compacts(AllMirrors(repo, past), c.topology)
    ensures SameRows(c.topology + MirrorsOf(repo, c.commit), AllMirrors(repo, past))
  {}

  lemma RowsNameable(repo: Repo, ids: seq<Oid>, rows: seq<Mirror>)
    requires SameRows(rows, AllMirrors(repo, ids))
    ensures Nameable(rows)
  {
    MirrorsNameable(repo, ids);
    forall i | 0 <= i < |rows| ensures MirrorOk(rows[i]) { assert rows[i] in AllMirrors(repo, ids); }
  }

  lemma {:induction false} MirrorsNameable(repo: Repo, ids: seq<Oid>)
    ensures Nameable(AllMirrors(repo, ids))
  {
    if ids != [] { MirrorsNameable(repo, ids[..|ids| - 1]); }
  }

  lemma BoundSame(a: seq<Mirror>, b: seq<Mirror>)
    requires SameRows(a, b)
    ensures Bound(a) <==> Bound(b)
  {
    if Bound(a) { BoundCarries(a, b); }
    if Bound(b) { BoundCarries(b, a); }
  }

  lemma BoundCarries(a: seq<Mirror>, b: seq<Mirror>)
    requires SameRows(a, b) && Bound(a)
    ensures Bound(b)
  {
    forall i, j | 0 <= i < |b| && 0 <= j < |b| && b[i].name == b[j].name ensures b[i] == b[j] {
      assert b[i] in a && b[j] in a;
    }
  }

  /** With or without a genuine cache the same histories are accepted and the same facts reported. */
  method ValidateHistory(repo: Repo, ids: seq<Oid>, tip: Oid, cache: Option<Cache>, rule: KeyRule, options: RunFiles.Options, ghost past: seq<Oid>)
    returns (r: Option<History>)
    requires Topological(repo, ids) && !options.unique
    requires cache.Some? ==> Genuine(repo, cache.value, past, rule)
    ensures r.Some? <==> Accepts(repo, ids, tip, rule)
    ensures r.Some? ==> Reports(repo, ids, rule, r.value)
  {
    if ids == [] { return None; }
    var run, index := Resume(repo, ids, cache, rule, past);
    var walked := WalkHistory(repo, ids, index, run, rule, options);
    if walked.None? { return None; }
    r := FinishHistory(repo, ids, tip, walked.value, rule, options);
  }

  /** The loop over the listed commits, from `index` on. */
  method WalkHistory(repo: Repo, ids: seq<Oid>, index: nat, run: Option<Run>, rule: KeyRule, options: RunFiles.Options) returns (r: Option<Run>)
    requires ids != [] && index <= |ids| && StandsAt(repo, ids, index, rule, run) && !options.unique
    ensures r.None? ==> !AllLinked(repo, ids, rule)
    ensures r.Some? ==> StandsAt(repo, ids, |ids|, rule, r)
    decreases |ids| - index, 1
  {
    if index == |ids| { return run; }
    r := WalkOn(repo, ids, index, run, rule, options);
  }

  method WalkOn(repo: Repo, ids: seq<Oid>, index: nat, run: Option<Run>, rule: KeyRule, options: RunFiles.Options) returns (r: Option<Run>)
    requires index < |ids| && StandsAt(repo, ids, index, rule, run) && !options.unique
    ensures r.None? ==> !AllLinked(repo, ids, rule)
    ensures r.Some? ==> StandsAt(repo, ids, |ids|, rule, r)
    decreases |ids| - index, 0
  {
    r := ValidateNext(repo, ids, index, run, rule, options);
    if r.Some? { r := WalkHistory(repo, ids, index + 1, r, rule, options); }
  }

  ghost predicate StandsAt(repo: Repo, ids: seq<Oid>, k: nat, rule: KeyRule, run: Option<Run>) {
    if k == 0 then run.None? else run.Some? && Standing(repo, ids, k, rule, run.value)
  }

  method Resume(repo: Repo, ids: seq<Oid>, cache: Option<Cache>, rule: KeyRule, ghost past: seq<Oid>) returns (run: Option<Run>, index: nat)
    requires Topological(repo, ids) && (cache.Some? ==> Genuine(repo, cache.value, past, rule))
    ensures index <= |ids| && StandsAt(repo, ids, index, rule, run)
  {
    if cache.None? { return None, 0; }
    run := TryAnchor(repo, ids, cache.value, rule, past);
    index := if run.None? then 0 else cache.value.sequence + 1;
  }

  method FinishHistory(repo: Repo, ids: seq<Oid>, tip: Oid, run: Run, rule: KeyRule, options: RunFiles.Options) returns (r: Option<History>)
    requires ids != [] && Standing(repo, ids, |ids|, rule, run) && !options.unique
    ensures AllLinked(repo, ids, rule)
    ensures r.Some? <==> Accepts(repo, ids, tip, rule)
    ensures r.Some? ==> Reports(repo, ids, rule, r.value)
  {
    assert ids[..|ids|] == ids;
    if run.tip.id != tip { return None; }
    BoundSame(run.rows, AllMirrors(repo, ids));
    RowsNameable(repo, ids, run.rows);
    var topology := CompactMirrorTopology(run.rows, options);
    if topology.None? { return None; }
    r := Some(History(run.tip, run.transition, run.format, |ids|, topology.value));
  }

  /** What is reported is determined by the history alone. */
  lemma ReportsOnce(repo: Repo, ids: seq<Oid>, rule: KeyRule, g: History, h: History)
    requires ids != [] && AllLinked(repo, ids, rule) && Reports(repo, ids, rule, g) && Reports(repo, ids, rule, h)
    ensures g == h
  {
    CompactsOnce(AllMirrors(repo, ids), g.topology, h.topology);
  }

  /** The cache written after an accepted history is genuine. */
  lemma WrittenCacheIsGenuine(repo: Repo, ids: seq<Oid>, tip: Oid, rule: KeyRule, h: History)
    requires Accepts(repo, ids, tip, rule) && Reports(repo, ids, rule, h)
    ensures Genuine(repo, Cache(h.tip.id, h.count - 1, h.transition, h.tip.state, h.topology), ids, rule)
  {}

  /** Objects are only ever added to a repository: a genuine cache stays genuine. */
  lemma GenuineStays(repo: Repo, larger: Repo, c: Cache, past: seq<Oid>, rule: KeyRule)
    requires Genuine(repo, c, past, rule) && forall id | id in repo :: id in larger && larger[id] == repo[id]
    ensures Genuine(larger, c, past, rule)
  {
    forall k | 0 <= k < |past| ensures Linked(larger, past, k, rule) && ValidateCommit(larger, past[k]) == ValidateCommit(repo, past[k]) {
      assert Linked(repo, past, k, rule);
    }
    SameMirrors(repo, larger, past);
  }

  lemma {:induction false} SameMirrors(repo: Repo, larger: Repo, ids: seq<Oid>)
    requires forall k | 0 <= k < |ids| :: ValidateCommit(larger, ids[k]) == ValidateCommit(repo, ids[k])
    ensures AllMirrors(larger, ids) == AllMirrors(repo, ids)
  {
    if ids != [] { SameMirrors(repo, larger, ids[..|ids| - 1]); }
  }

  /** Accepted histories never rebind a mirror name, not even after dropping it. */
  lemma OneBinding(repo: Repo, ids: seq<Oid>, tip: Oid, rule: KeyRule, i: nat, j: nat, a: Mirror, b: Mirror)
    requires Accepts(repo, ids, tip, rule) && i < |ids| && j < |ids|
    requires a in MirrorsOf(repo, ids[i]) && b in MirrorsOf(repo, ids[j]) && a.name == b.name
    ensures a == b
  {
    MirrorsCollected(repo, ids, i, a);
    MirrorsCollected(repo, ids, j, b);
  }

  lemma {:induction false} MirrorsCollected(repo: Repo, ids: seq<Oid>, i: nat, m: Mirror)
    requires i < |ids| && m in MirrorsOf(repo, ids[i])
    ensures m in AllMirrors(repo, ids)
  {
    if i < |ids| - 1 { MirrorsCollected(repo, ids[..|ids| - 1], i, m); }
  }

  // ---- what accepted histories keep -----------------------------------------------------------

  /** The states of linked commits, in order. */
  function StatesOf(repo: Repo, ids: seq<Oid>): (states: seq<RepoState>)
    requires forall k | 0 <= k < |ids| :: ValidateCommit(repo, ids[k]).Some?
    ensures |states| == |ids|
    ensures forall k | 0 <= k < |ids| :: states[k] == ValidateCommit(repo, ids[k]).value.state
  {
    seq(|ids|, k requires 0 <= k < |ids| => ValidateCommit(repo, ids[k]).value.state)
  }

  predicate StepTo(repo: Repo, previous: Oid, id: Oid) {
    && ValidateCommit(repo, previous).Some? && ValidateCommit(repo, id).Some?
    && Step(ValidateCommit(repo, previous).value.state, ValidateCommit(repo, id).value.state)
  }

  lemma LinkedStep(repo: Repo, ids: seq<Oid>, k: nat, rule: KeyRule)
    requires k < |ids| && Linked(repo, ids, k, rule)
    ensures ValidateCommit(repo, ids[k]).Some?
    ensures k > 0 ==> StepTo(repo, ids[k - 1], ids[k])
  {}

  /** What the validator accepts is a history of allowed steps. */
  lemma AcceptedIsHistory(repo: Repo, ids: seq<Oid>, tip: Oid, rule: KeyRule)
    requires Accepts(repo, ids, tip, rule)
    ensures forall k | 0 <= k < |ids| :: ValidateCommit(repo, ids[k]).Some?
    ensures Histories(StatesOf(repo, ids))
  {
    forall k | 0 <= k < |ids|
      ensures ValidateCommit(repo, ids[k]).Some?
      ensures k > 0 ==> StepTo(repo, ids[k - 1], ids[k])
    {
      assert Linked(repo, ids, k, rule);
      LinkedStep(repo, ids, k, rule);
    }
    HistoryOfSteps(StatesOf(repo, ids));
  }

  lemma HistoryOfSteps(states: seq<RepoState>)
    requires forall k | 0 <= k < |states| :: StateOk(states[k])
    requires forall k | 0 < k < |states| :: Step(states[k - 1], states[k])
    ensures Histories(states)
  {}

  /** In every accepted history, with or without a cache, each state's object rows survive unchanged in
      every later state and its pack rows up to their object ID. */
  lemma AcceptedPreserves(repo: Repo, ids: seq<Oid>, tip: Oid, rule: KeyRule, i: nat, j: nat)
    requires Accepts(repo, ids, tip, rule) && i <= j < |ids|
    ensures ValidateCommit(repo, ids[i]).Some? && ValidateCommit(repo, ids[j]).Some?
    ensures Preserves(ValidateCommit(repo, ids[i]).value.state, ValidateCommit(repo, ids[j]).value.state)
  {
    AcceptedIsHistory(repo, ids, tip, rule);
    HistoryPreserves(StatesOf(repo, ids), i, j);
  }

  /** So any snapshot of an accepted history can be read through any later catalog of it. */
  method AcceptedReadable(repo: Repo, ids: seq<Oid>, tip: Oid, rule: KeyRule, i: nat, j: nat) returns (ok: bool)
    requires Accepts(repo, ids, tip, rule) && i <= j < |ids|
    ensures ok
  {
    AcceptedIsHistory(repo, ids, tip, rule);
    ok := SnapshotReadable(StatesOf(repo, ids), i, j);
  }
}
