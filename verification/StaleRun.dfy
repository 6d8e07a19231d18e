/** A run from the empty repository to a ledger row for a mirror that lacks a part. An event is one
    durable step of a command, with the observations it rests on; a command may stop between any two
    events, and the next one starts from the saved records. */
module StaleRun {
  import opened Model
  import opened Ancestry
  import opened Evidence
  import opened Stability
  import opened Records
  import Operations

  const MIRRORS: seq<Name> := ["a", "b", "c"]

  datatype World = World(file: Option<Txn>, ledger: Ledger, head: Option<Commit>, env: Env, log: Log)

  const START := World(None, Ledger(map[], 0, {}, None), None, Env(None, 0, {}, {}, {}, false), Log({}, {}, {}, {}, {}))

  datatype Event =
    | Elapses(next: Env)
    | Audits(m: Name, k: Key)
    | Begins(other: nat)
    | Marks
    | Commits
    | Accepts
    | Stages(staged: Staged)
    | Attempts
    | Sends
    | Confirms
    | Uploads(m: Name)
    | Completes(m: Name)
    | Finishes
    | Plans
    | Starts
    | Captures(parts: map<Slot, Id>, mirrors: set<Name>)
    | Finalizes(other: nat)
    | Quarantines(m: Name)
    | Verifies(m: Name)
    | Revalidates(passed: set<Name>)

  /** The record after the marks of every mirror were recomputed and saved. */
  function Marked(t: Txn, l: Ledger): Txn {
    var u := t.(mirrors := map m | m in MIRRORS :: Remarked(t, l, m));
    t.(mirrors := map m | m in MIRRORS :: MarkedData(u, l, m))
  }

  /** What a commit checks before it does anything. */
  predicate Pending(w: World) {
    && w.file.Some? && w.file.value.candidate.Some? && !w.file.value.resetting && StagedDataOk(w.file.value)
    && BackupEligible(w.file.value, w.ledger, MIRRORS)
    && (w.file.value.local.None? && w.file.value.base.Some? ==> w.head == w.file.value.base)
  }

  /** A plan that a commit may capture. */
  predicate Planned(w: World) {
    && w.file.Some? && w.file.value.candidate.None? && w.file.value.base.Some? && w.head == w.file.value.base
    && BackupEligible(w.file.value, w.ledger, MIRRORS)
  }

  predicate Committed(w: World) {
    Pending(w) && w.file.value.local.Some? && w.file.value.incident == w.ledger.incident
  }

  predicate Published(w: World, m: Name) {
    && Committed(w) && w.file.value.confirmed && w.file.value.metadata.Some? && m in MIRRORS
    && P(w.file.value, m).dataComplete && !P(w.file.value, m).revisionComplete
  }

  ghost predicate Enabled(w: World, event: Event) {
    match event
    case Elapses(next) => EnvStep(w.env, next)
    case Audits(m, k) => (m, k) in w.env.held
    case Begins(other) => w.file.None? && w.head.None?
    case Marks => Pending(w) && w.file.value.local.None? && w.file.value.parts == []
    case Commits =>
      && Pending(w) && w.file.value.local.None? && w.file.value == Marked(w.file.value, w.ledger)
      && w.file.value.incident == w.ledger.incident
      && exists m | m in w.file.value.mirrors :: w.file.value.mirrors[m].dataComplete
    case Accepts => Committed(w) && !w.file.value.accepted && w.head == w.file.value.base
    case Stages(s) =>
      Committed(w) && w.file.value.accepted && w.file.value.metadata.None?
      && Describes(s.manifest, w.file.value.local.value) && s.manifest.parts != []
    case Attempts => Committed(w) && w.file.value.metadata.Some? && !w.file.value.confirmed
    case Sends => Committed(w) && w.file.value.attempted && w.head == w.file.value.local
    case Confirms => Committed(w) && w.file.value.attempted && w.env.remote == w.file.value.local
    case Uploads(m) => Published(w, m) && P(w.file.value, m).metaCursor < MetaCount(w.file.value)
    case Completes(m) => Published(w, m) && P(w.file.value, m).metaCursor == MetaCount(w.file.value)
    case Finishes =>
      Committed(w) && !w.file.value.kind.Repair? && w.file.value.confirmed
      && exists m | m in MIRRORS :: w.ledger.Eligible(m, w.file.value.local)
    case Plans => w.file.None? && w.head.Some? && w.head == w.env.remote
    case Starts => Planned(w) && w.file.value.capture.None?
    case Captures(parts, mirrors) =>
      Planned(w) && w.file.value.capture.Some? && w.file.value.incident == w.ledger.incident
      && mirrors != {} && mirrors <= w.file.value.capture.value.mirrors
    case Finalizes(other) =>
      Planned(w) && w.file.value.capture.Some?
      && !Operations.Displaces(w.file.value.capture.value.parts, w.file.value.base.value.state)
    case Quarantines(m) => m in MIRRORS && m !in w.ledger.quarantined
    case Verifies(m) => m in MIRRORS && w.head.Some? && Complete(w.log.recent, m, w.head.value)
    case Revalidates(passed) =>
      && Pending(w) && w.file.value.local.None? && w.file.value == Marked(w.file.value, w.ledger)
      && w.file.value.incident != w.ledger.incident && passed != {}
      && forall m | m in passed :: m in MIRRORS && w.ledger.Eligible(m, w.file.value.base) && ReadyOn(w.log.recent, w.file.value, m)
  }

  function Noted(w: World, facts: Facts): World {
    w.(env := w.env.(held := w.env.held + facts),
       log := w.log.(seen := w.log.seen + facts, recent := w.log.recent + facts))
  }

  function Saved(w: World, t: Txn): World {
    w.(file := Some(t))
  }

  ghost function Next(w: World, event: Event): World
    requires Enabled(w, event)
  {
    match event
    case Elapses(next) => w.(env := next)
    case Audits(m, k) => Noted(w, {(m, k)})
    case Begins(other) => Saved(w, NewTxn(Genesis, None).(candidate := Some(State(map[], other))))
    case Marks => Saved(w, Marked(w.file.value, w.ledger))
    case Commits =>
      var x := Commit(w.file.value.base, w.file.value.candidate.value, w.env.clock);
      Saved(w.(env := Records.Created(w.env, x)), w.file.value.(local := Some(x)))
    case Accepts => Saved(w.(head := w.file.value.local), w.file.value.(accepted := true))
    case Stages(s) => Saved(w, w.file.value.(metadata := Some(s)))
    case Attempts => Saved(w, w.file.value.(attempted := true))
    case Sends => w.(env := w.env.(sent := w.env.sent + {w.file.value.local.value}))
    case Confirms => Saved(w, w.file.value.(confirmed := true))
    case Uploads(m) =>
      var t := w.file.value;
      var i := P(t, m).metaCursor;
      Saved(Noted(w, {(m, PartKey(t.metadata.value.manifest.parts[i]))}), SetP(t, m, P(t, m).(metaCursor := i + 1)))
    case Completes(m) =>
      var t := w.file.value;
      var v := Noted(w, {(m, RepresentationKey(t.metadata.value))});
      Saved(v.(ledger := Verified(v.ledger, m, t.local.value), log := v.log.(stale := MoreStale(v.log, t, m))),
            SetP(t, m, P(t, m).(manifest := true, revisionComplete := true)))
    case Finishes => if w.file.value.kind.Genesis? then Saved(w, NewTxn(Ordinary, w.file.value.local)) else w.(file := None)
    case Plans => Saved(w, NewTxn(Ordinary, w.head))
    case Starts =>
      var eligible := set m | m in MIRRORS && w.ledger.Eligible(m, w.file.value.base);
      Saved(w.(log := w.log.(kept := {})),
            w.file.value.(incident := w.ledger.incident, capture := Some(Capture(map[], false, eligible))))
    case Captures(parts, mirrors) =>
      var c := w.file.value.capture.value;
      Saved(Noted(w, set m, x | m in mirrors && x in parts :: (m, DataKey(x.hash, parts[x]))),
            w.file.value.(capture := Some(Capture(c.parts + parts, false, mirrors))))
    case Finalizes(other) => Saved(w, Operations.Finalized(w.file.value, other))
    case Quarantines(m) => w.(ledger := Incident(w.ledger, m), log := Outdated(w.log))
    case Verifies(m) => w.(ledger := Verified(w.ledger, m, w.head.value), log := w.log.(stale := w.log.stale - {m}))
    case Revalidates(passed) =>
      Saved(w.(log := w.log.(kept := Unaudited(w.file.value, passed))), Revalidated(w.file.value, w.ledger, MIRRORS, passed))
  }

  ghost predicate Runs(w: World, events: seq<Event>, v: World)
    decreases |events|
  {
    if events == [] then v == w else Enabled(w, events[0]) && Runs(Next(w, events[0]), events[1..], v)
  }

  ghost predicate Reached(w: World) {
    exists events: seq<Event> :: Runs(START, events, w)
  }

  lemma {:induction false} RunsOn(w: World, events: seq<Event>, v: World, event: Event)
    requires Runs(w, events, v) && Enabled(v, event)
    ensures Runs(w, events + [event], Next(v, event))
    decreases |events|
  {
    if events == [] {
      assert [event][1..] == [];
    } else {
      RunsOn(Next(w, events[0]), events[1..], v, event);
      assert (events + [event])[1..] == events[1..] + [event];
    }
  }

  lemma Take(w: World, event: Event) returns (v: World)
    requires Reached(w) && Enabled(w, event)
    ensures v == Next(w, event) && Reached(v)
  {
    var events: seq<Event> :| Runs(START, events, w);
    RunsOn(START, events, w, event);
    v := Next(w, event);
  }

  // ---- the run --------------------------------------------------------------------------------

  const BASE := Commit(None, State(map[], 0), 0)
  const PART := Slot("pack", 0, "part-hash")
  const KEY := DataKey("part-hash", 1)
  const NEXT := Commit(Some(BASE), State(map[PART := 1], 1), 1)
  const BUNDLE := MetaPart("bundle-hash", 2)
  const EDGE := Staged(Manifest(0, None, BASE, [BUNDLE]), 3)
  const NEXT_EDGE := Staged(Manifest(1, Some(BASE), NEXT, [BUNDLE]), 4)

  /** A commit whose base is the tip of the remote branch. */
  ghost predicate Ready(w: World) {
    && Enabled(w, Commits) && w.head == w.env.remote == w.file.value.base
    && w.file.value == w.file.value.(accepted := false, metadata := None, attempted := false, confirmed := false)
    && (w.head.Some? ==> Older(w.head.value, w.env.clock)) && forall y | y in w.env.created :: InRemote(y, w.env.remote)
  }

  function Local(w: World): Commit
    requires w.file.Some? && w.file.value.candidate.Some?
  {
    Commit(w.file.value.base, w.file.value.candidate.value, w.env.clock)
  }

  lemma Create(w: World, s: Staged) returns (v: World)
    requires Reached(w) && Ready(w) && Describes(s.manifest, Local(w)) && s.manifest.parts != []
    ensures Reached(v) && Committed(v)
    ensures v == World(Some(w.file.value.(local := Some(Local(w)), accepted := true, metadata := Some(s))), w.ledger,
                       Some(Local(w)), Records.Created(w.env, Local(w)), w.log)
  {
    v := Take(w, Commits);
    assert Committed(v);
    v := Take(v, Accepts);
    assert Committed(v);
    v := Take(v, Stages(s));
  }

  lemma Push(w: World) returns (v: World)
    requires Reached(w) && Committed(w) && w.file.value.metadata.Some? && !w.file.value.confirmed
    requires w.head == w.file.value.local && Older(w.head.value, w.env.clock) && w.file.value.base == w.env.remote
    requires w.head.value.parent == w.env.remote
    requires forall y | y in w.env.created :: InRemote(y, w.env.remote) || y == w.head.value
    ensures Reached(v) && Committed(v)
    ensures v == World(Some(w.file.value.(attempted := true, confirmed := true)), w.ledger, w.head,
                       w.env.(sent := w.env.sent + {w.head.value}, remote := w.head), w.log)
  {
    v := Take(w, Attempts);
    assert Committed(v);
    v := Take(v, Sends);
    assert InHistory(w.head.value, w.head.value) && w.head.value in v.env.sent;
    if w.env.remote.Some? { assert InHistory(w.env.remote.value, w.env.remote.value); }
    assert EnvStep(v.env, v.env.(remote := w.head));
    v := Take(v, Elapses(v.env.(remote := w.head)));
    assert Committed(v);
    v := Take(v, Confirms);
  }

  function EdgeFacts(m: Name, s: Staged): Facts
    requires |s.manifest.parts| == 1
  {
    {(m, PartKey(s.manifest.parts[0])), (m, RepresentationKey(s))}
  }

  /** The metadata edge is uploaded to `m` and the row written. */
  lemma WriteRow(w: World, m: Name) returns (v: World)
    requires Reached(w) && Published(w, m) && MetaCount(w.file.value) == 1 && P(w.file.value, m).metaCursor == 0
    ensures Reached(v) && v.head == w.head && v.ledger == Verified(w.ledger, m, w.file.value.local.value)
    ensures v.log == Noted(w, EdgeFacts(m, w.file.value.metadata.value)).log.(stale := MoreStale(w.log, w.file.value, m))
    ensures v.env == Noted(w, EdgeFacts(m, w.file.value.metadata.value)).env
    ensures v.file == Some(SetP(w.file.value, m, P(w.file.value, m).(metaCursor := 1, manifest := true, revisionComplete := true)))
  {
    var t := w.file.value;
    v := Take(w, Uploads(m));
    var u := v.file.value;
    assert u == SetP(t, m, P(t, m).(metaCursor := 1));
    assert Published(v, m);
    v := Take(v, Completes(m));
    assert w.env.held + EdgeFacts(m, t.metadata.value) == w.env.held + {(m, PartKey(t.metadata.value.manifest.parts[0]))} + {(m, RepresentationKey(t.metadata.value))};
    assert v.file.value.mirrors == t.mirrors[m := P(t, m).(metaCursor := 1, manifest := true, revisionComplete := true)];
  }

  /** Marking is idempotent, so a resumed commit saves what it finds. */
  lemma MarkedOnce(t: Txn, l: Ledger)
    requires t.parts == []
    ensures Marked(Marked(t, l), l) == Marked(t, l)
  {
    var u := Marked(t, l);
    forall m | m in MIRRORS ensures m in u.mirrors && m in Marked(u, l).mirrors && Marked(u, l).mirrors[m] == u.mirrors[m] {
      MarkedAt(t, l, m);
      MarkedAt(u, l, m);
      MarkTwice(t, u.mirrors, l, m, P(t, m));
    }
    SameMarks(u, Marked(u, l));
  }

  lemma SameMarks(t: Txn, u: Txn)
    requires u == t.(mirrors := u.mirrors) && forall m :: m in t.mirrors <==> m in MIRRORS
    requires forall m :: m in u.mirrors <==> m in MIRRORS
    requires forall m | m in MIRRORS :: u.mirrors[m] == t.mirrors[m]
    ensures u == t
  {
    assert u.mirrors == t.mirrors;
  }

  lemma MarkTwice(t: Txn, mirrors: map<Name, Progress>, l: Ledger, m: Name, p: Progress)
    ensures MarkOf(t.(mirrors := mirrors), l, m, MarkOf(t, l, m, p)) == MarkOf(t, l, m, p)
  {}

  function MarkOf(t: Txn, l: Ledger, m: Name, p: Progress): Progress {
    var eligible := (t.base.None? && m !in l.quarantined) || l.Eligible(m, t.base);
    var complete := eligible && (if t.capture.Some? then m in t.capture.value.mirrors else p.dataCursor == 0);
    var q := if t.incident != l.incident then p.(metaCursor := 0, manifest := false) else p;
    q.(revisionComplete := false, dataComplete := complete)
  }

  lemma MarkedAt(t: Txn, l: Ledger, m: Name)
    requires t.parts == [] && m in MIRRORS
    ensures m in Marked(t, l).mirrors && Marked(t, l).mirrors[m] == MarkOf(t, l, m, P(t, m))
  {}

  /** The marks of a mirror before any metadata was sent to it. */
  predicate OnlyData(t: Txn, m: Name) {
    P(t, m).dataComplete && P(t, m).metaCursor == 0 && !P(t, m).revisionComplete
  }

  const GENESIS := NewTxn(Genesis, None).(candidate := Some(BASE.state))

  lemma MarkGenesis() returns (w: World)
    ensures Reached(w) && Ready(w) && OnlyData(w.file.value, "a") && OnlyData(w.file.value, "b")
    ensures w == START.(file := Some(GENESIS.(mirrors := w.file.value.mirrors)))
  {
    assert Runs(START, [], START);
    w := Take(START, Begins(0));
    MarkedOnce(w.file.value, w.ledger);
    assert "a" in MIRRORS && "b" in MIRRORS;
    MarkedAt(w.file.value, w.ledger, "a");
    MarkedAt(w.file.value, w.ledger, "b");
    w := Take(w, Marks);
  }

  /** The genesis, published but not yet complete on any mirror. */
  ghost predicate GenesisPushed(w: World) {
    && w.file.Some? && w.head == w.file.value.local == Some(BASE) && w.file.value.metadata == Some(EDGE)
    && w.file.value.kind.Genesis? && Committed(w) && w.file.value.confirmed && w.ledger.incident == 0
  }

  lemma PushGenesis() returns (w: World)
    ensures Reached(w) && GenesisPushed(w) && OnlyData(w.file.value, "a") && OnlyData(w.file.value, "b")
    ensures w.ledger == START.ledger && w.log == START.log && w.env == Env(Some(BASE), 1, {BASE}, {BASE}, {}, false)
  {
    w := MarkGenesis();
    var t := w.file.value;
    assert Older(BASE, 1) && Local(w) == BASE;
    w := Create(w, EDGE);
    w := Push(w);
    assert w.file.value.mirrors == t.mirrors;
  }

  lemma GenesisRow(w: World, m: Name, n: Name) returns (v: World)
    requires Reached(w) && GenesisPushed(w) && OnlyData(w.file.value, m) && m in MIRRORS && m != n
    requires w.log.kept == {} && w.log.stale == {}
    ensures Reached(v) && GenesisPushed(v) && P(v.file.value, n) == P(w.file.value, n)
    ensures v.ledger == Verified(w.ledger, m, BASE) && v.env == w.env.(held := w.env.held + EdgeFacts(m, EDGE))
    ensures v.log.kept == {} && v.log.stale == {}
  {
    v := WriteRow(w, m);
  }

  const ROWS := map["a" := BASE, "b" := BASE]

  /** The genesis is complete on a and b and the next plan begins. */
  lemma PublishGenesis() returns (w: World)
    ensures Reached(w) && w.file == Some(NewTxn(Ordinary, Some(BASE))) && w.head == Some(BASE)
    ensures w.ledger == Ledger(ROWS, 0, {}, None) && w.log.kept == {} && w.log.stale == {}
    ensures w.env == Env(Some(BASE), 1, {BASE}, {BASE}, EdgeFacts("a", EDGE) + EdgeFacts("b", EDGE), false)
  {
    assert "a" in MIRRORS && "b" in MIRRORS;
    w := PushGenesis();
    w := GenesisRow(w, "a", "b");
    w := GenesisRow(w, "b", "a");
    assert w.ledger.mirrors == ROWS;
    assert w.ledger.Eligible("a", Some(BASE));
    w := Take(w, Finishes);
    assert w.env.held == EdgeFacts("a", EDGE) + EdgeFacts("b", EDGE);
  }

  const PARTS := map[PART := 1]
  const PENDING := Operations.Finalized(
    NewTxn(Ordinary, Some(BASE)).(capture := Some(Capture(PARTS, false, {"a", "b"}))), 1)

  lemma StartPlan() returns (w: World)
    ensures Reached(w) && w.head == Some(BASE) && w.ledger == Ledger(ROWS, 0, {}, None)
    ensures w.file == Some(NewTxn(Ordinary, Some(BASE)).(capture := Some(Capture(map[], false, {"a", "b"}))))
    ensures w.env == Env(Some(BASE), 1, {BASE}, {BASE}, EdgeFacts("a", EDGE) + EdgeFacts("b", EDGE), false)
    ensures w.log.kept == {} && w.log.stale == {}
  {
    w := PublishGenesis();
    assert "a" in MIRRORS && w.ledger.Eligible("a", Some(BASE));
    var eligible := set m | m in MIRRORS && w.ledger.Eligible(m, Some(BASE));
    assert eligible == {"a", "b"};
    w := Take(w, Starts);
  }

  lemma PartFacts()
    ensures (set m, x | m in {"a", "b"} && x in PARTS :: (m, DataKey(x.hash, PARTS[x]))) == {("a", KEY), ("b", KEY)}
  {
    assert PART in PARTS && forall x | x in PARTS :: x == PART;
  }

  /** Mirrors a and b capture the part. */
  lemma CapturePart() returns (w: World)
    ensures Reached(w) && w.file == Some(PENDING) && w.head == Some(BASE)
    ensures w.ledger == Ledger(ROWS, 0, {}, None) && w.log.kept == {} && w.log.stale == {}
    ensures w.env == Env(Some(BASE), 1, {BASE}, {BASE}, EdgeFacts("a", EDGE) + EdgeFacts("b", EDGE) + {("a", KEY), ("b", KEY)}, false)
  {
    w := StartPlan();
    assert w.ledger.Eligible("a", Some(BASE));
    PartFacts();
    w := CaptureAll(w, PARTS, {"a", "b"}, "a");
    w := Finalize(w, "a", 1);
  }

  lemma CaptureAll(w: World, parts: map<Slot, Id>, mirrors: set<Name>, m: Name) returns (v: World)
    requires Reached(w) && w.file.Some? && w.head == w.file.value.base && m in MIRRORS && w.ledger.Eligible(m, w.head)
    requires w.file.value == NewTxn(Ordinary, w.head).(incident := w.ledger.incident, capture := Some(Capture(map[], false, mirrors)))
    requires mirrors != {} && w.ledger.forwardRepair.None?
    ensures Reached(v) && v == Noted(w, set m, x | m in mirrors && x in parts :: (m, DataKey(x.hash, parts[x]))).(
              file := Some(w.file.value.(capture := Some(Capture(parts, false, mirrors)))))
  {
    v := Take(w, Captures(parts, mirrors));
    assert map[] + parts == parts;
  }

  lemma Finalize(w: World, m: Name, other: nat) returns (v: World)
    requires Reached(w) && w.file.Some? && w.head.Some? && w.head == w.file.value.base && m in MIRRORS && w.ledger.Eligible(m, w.head)
    requires w.file.value.candidate.None? && w.file.value.capture.Some? && w.ledger.forwardRepair.None?
    requires !Operations.Displaces(w.file.value.capture.value.parts, w.head.value.state)
    ensures Reached(v) && v == w.(file := Some(Operations.Finalized(w.file.value, other)))
  {
    v := Take(w, Finalizes(other));
  }

  /** An incident on c clears the rows; a and b are verified anew, then b loses the part. */
  lemma LosePart() returns (w: World)
    ensures Reached(w) && w.file == Some(PENDING) && w.head == Some(BASE)
    ensures w.ledger == Ledger(ROWS, 1, {"c"}, None)
    ensures w.env == Env(Some(BASE), 1, {BASE}, {BASE}, EdgeFacts("a", EDGE) + EdgeFacts("b", EDGE) + {("a", KEY)}, true)
    ensures w.log.recent == EdgeFacts("a", EDGE) + EdgeFacts("b", EDGE) && w.log.kept == {} && w.log.stale == {}
  {
    w := VerifyAnew();
    w := Lose(w, "b", KEY);
    assert w.env.held == EdgeFacts("a", EDGE) + EdgeFacts("b", EDGE) + {("a", KEY)};
  }

  lemma VerifyAnew() returns (w: World)
    ensures Reached(w) && w.file == Some(PENDING) && w.head == Some(BASE) && w.ledger == Ledger(ROWS, 1, {"c"}, None)
    ensures w.env == Env(Some(BASE), 1, {BASE}, {BASE}, EdgeFacts("a", EDGE) + EdgeFacts("b", EDGE) + {("a", KEY), ("b", KEY)}, false)
    ensures w.log.recent == EdgeFacts("a", EDGE) + EdgeFacts("b", EDGE) && w.log.kept == {} && w.log.stale == {}
  {
    w := CapturePart();
    assert "a" in MIRRORS && "b" in MIRRORS && "c" in MIRRORS;
    w := Take(w, Quarantines("c"));
    w := VerifyBase(w, "a");
    w := VerifyBase(w, "b");
    assert {} + EdgeFacts("a", EDGE) == EdgeFacts("a", EDGE);
    assert w.ledger.mirrors == ROWS;
  }

  lemma Lose(w: World, m: Name, k: Key) returns (v: World)
    requires Reached(w)
    ensures Reached(v) && v == w.(env := w.env.(held := w.env.held - {(m, k)}, lost := true))
  {
    v := Take(w, Elapses(w.env.(held := w.env.held - {(m, k)}, lost := true)));
  }

  lemma VerifyBase(w: World, m: Name) returns (v: World)
    requires Reached(w) && w.head == Some(BASE) && m in MIRRORS && EdgeFacts(m, EDGE) <= w.env.held && m !in w.log.stale
    ensures Reached(v) && v.ledger == Verified(w.ledger, m, BASE) && v.file == w.file && v.head == w.head && v.env == w.env
    ensures v.log == w.log.(seen := w.log.seen + EdgeFacts(m, EDGE), recent := w.log.recent + EdgeFacts(m, EDGE))
  {
    v := Take(w, Audits(m, PartKey(BUNDLE)));
    v := Take(v, Audits(m, RepresentationKey(EDGE)));
    assert v.log.recent == w.log.recent + EdgeFacts(m, EDGE);
    BaseChain(v.log.recent, m);
    v := Take(v, Verifies(m));
    assert w.log.stale - {m} == w.log.stale && v.env.held == w.env.held;
  }

  lemma BaseChain(f: Facts, m: Name)
    requires EdgeFacts(m, EDGE) <= f
    ensures ChainHeld(f, m, BASE)
  {
    assert RepresentationHeld(f, m, EDGE) && Describes(EDGE.manifest, BASE);
  }

  /** A captured transaction at the head, with one mirror recorded complete for the base. */
  predicate Resumable(w: World, m: Name) {
    && w.file.Some? && w.head.Some? && w.head == w.file.value.base && m in MIRRORS && w.ledger.Eligible(m, w.head)
    && w.file.value == PENDING.(incident := w.file.value.incident, mirrors := w.file.value.mirrors)
    && w.ledger.forwardRepair.None?
  }

  lemma Mark(w: World, m: Name) returns (v: World)
    requires Reached(w) && Resumable(w, m)
    ensures Reached(v) && Resumable(v, m) && Pending(v) && v == w.(file := v.file) && v.file.value.incident == w.file.value.incident
    ensures v.file.value == Marked(w.file.value, w.ledger) == Marked(v.file.value, v.ledger)
  {
    MarkedOnce(w.file.value, w.ledger);
    v := Take(w, Marks);
  }

  lemma CapturedMark(t: Txn, l: Ledger, m: Name)
    requires t.capture.Some? && t.base.Some? && t.parts == [] && m in MIRRORS
    ensures m in Marked(t, l).mirrors
    ensures Marked(t, l).mirrors[m].dataComplete <==> l.Eligible(m, t.base) && m in t.capture.value.mirrors
    ensures t.incident != l.incident || (m in t.mirrors && t.mirrors[m].metaCursor == 0) ==> P(Marked(t, l), m).metaCursor == 0
    ensures !Marked(t, l).mirrors[m].revisionComplete
  {
    MarkedAt(t, l, m);
  }

  /** The interrupted commit starts to audit the candidate. */
  lemma AuditPart() returns (w: World)
    ensures Reached(w) && Resumable(w, "a") && Pending(w) && w.file.value.incident == 0
    ensures w.file.value == Marked(w.file.value, w.ledger) && P(w.file.value, "b").metaCursor == 0
    ensures w.ledger == Ledger(ROWS, 1, {"c"}, None) && w.log.kept == {} && w.log.stale == {}
    ensures w.env == Env(Some(BASE), 1, {BASE}, {BASE}, EdgeFacts("a", EDGE) + EdgeFacts("b", EDGE) + {("a", KEY)}, true)
    ensures w.log.recent == EdgeFacts("a", EDGE) + EdgeFacts("b", EDGE) + {("a", KEY)}
  {
    w := LosePart();
    assert "a" in MIRRORS && "b" in MIRRORS && w.ledger.Eligible("a", Some(BASE));
    CapturedMark(w.file.value, w.ledger, "b");
    w := Mark(w, "a");
    var held := w.env.held;
    w := Take(w, Audits("a", KEY));
    assert w.env.held == held;
  }

  lemma PassOnly(w: World, m: Name) returns (v: World)
    requires Reached(w) && Resumable(w, m) && Pending(w) && w.file.value == Marked(w.file.value, w.ledger)
    requires w.file.value.incident != w.ledger.incident && ReadyOn(w.log.recent, w.file.value, m) && m in PENDING.capture.value.mirrors
    ensures Reached(v) && v.file == Some(Revalidated(w.file.value, w.ledger, MIRRORS, {m})) && Resumable(v, m)
    ensures v == w.(file := v.file, log := w.log.(kept := PENDING.capture.value.mirrors - {m}))
  {
    v := Take(w, Revalidates({m}));
    assert PENDING.capture.value.mirrors + {m} == PENDING.capture.value.mirrors;
  }

  /** Only a passes, yet b stays in the capture set. */
  lemma Revalidate() returns (w: World)
    ensures Reached(w) && Resumable(w, "a") && w.file.value.incident == 1 && OnlyUnmarked(w.file.value, "b")
    ensures w.ledger == Ledger(ROWS, 1, {"c"}, None) && w.log.kept == {"b"} && w.log.stale == {}
    ensures w.env == Env(Some(BASE), 1, {BASE}, {BASE}, EdgeFacts("a", EDGE) + EdgeFacts("b", EDGE) + {("a", KEY)}, true)
    ensures w.log.recent == EdgeFacts("a", EDGE) + EdgeFacts("b", EDGE) + {("a", KEY)}
  {
    w := AuditPart();
    HasPart(w.log.recent, w.file.value);
    assert "b" in MIRRORS;
    w := PassOnly(w, "a");
    assert {"a", "b"} - {"a"} == {"b"};
  }

  predicate OnlyUnmarked(t: Txn, m: Name) {
    m in t.mirrors && !t.mirrors[m].dataComplete && t.mirrors[m].metaCursor == 0
  }

  lemma HasPart(f: Facts, t: Txn)
    requires t.candidate == PENDING.candidate && t.base == Some(BASE) && EdgeFacts("a", EDGE) + {("a", KEY)} <= f
    ensures ReadyOn(f, t, "a")
  {
    BaseChain(f, "a");
    assert t.candidate.value.packs == map[] + PARTS;
  }

  /** The next commit marks b from the capture set, publishes, and writes its row: b lacks the part and
      was not seen with it since the incident. */
  lemma StaleRowWritten() returns (w: World)
    ensures Reached(w) && "b" in w.ledger.mirrors && w.ledger.mirrors["b"] == NEXT && w.env.remote == Some(NEXT)
    ensures !DataHeld(w.env.held, "b", NEXT.state) && !DataHeld(w.log.recent, "b", NEXT.state) && w.log.stale == {"b"}
  {
    w := RowOfB();
    LacksPart(w.env.held, NEXT);
    LacksPart(w.log.recent, NEXT);
  }

  lemma LacksPart(f: Facts, c: Commit)
    requires ("b", KEY) !in f && PART in c.state.packs && c.state.packs[PART] == 1
    ensures !DataHeld(f, "b", c.state)
  {
    assert PackKey(c.state, PART) == KEY;
  }

  lemma RowOfB() returns (w: World)
    ensures Reached(w) && Committed(w) && w.head == w.env.remote == w.file.value.local == Some(NEXT)
    ensures w.file.value.kind.Ordinary? && w.file.value.confirmed
    ensures w.ledger == Verified(Ledger(ROWS, 1, {"c"}, None), "b", NEXT) && w.log.stale == {"b"}
    ensures w.env.clock == 2 && w.env.created == {BASE, NEXT} && ("b", KEY) !in w.env.held && ("b", KEY) !in w.log.recent
  {
    w := PushNext();
    w := WriteRow(w, "b");
    assert w.ledger.Eligible("b", Some(NEXT)) && "b" in MIRRORS;
  }

  lemma PushNext() returns (w: World)
    ensures Reached(w) && Published(w, "b") && w.head == w.env.remote == w.file.value.local == Some(NEXT)
    ensures w.file.value.kind.Ordinary? && w.file.value.metadata == Some(NEXT_EDGE) && OnlyData(w.file.value, "b")
    ensures AddsParts(w.file.value) && w.log.kept == {"b"} && w.log.stale == {} && w.ledger == Ledger(ROWS, 1, {"c"}, None)
    ensures w.env.clock == 2 && w.env.created == {BASE, NEXT} && ("b", KEY) !in w.env.held && ("b", KEY) !in w.log.recent
  {
    w := Resume();
    var t := w.file.value;
    assert IsNew(t.capture.value, t.base, PART);
    w := Push(w);
    assert w.file.value.mirrors == t.mirrors && "b" in MIRRORS;
  }

  // ---- what follows ---------------------------------------------------------------------------

  /** A commit that stopped right after saving its marks: every captured mirror that is complete for the
      base is marked, under the current incident, and yet b was kept without a pass and lacks the part. */
  lemma InterruptedMarks() returns (w: World)
    ensures Reached(w) && w.file.Some? && w.file.value.capture.Some? && w.file.value.candidate.Some?
    ensures w.file.value.incident == w.ledger.incident
    ensures forall m | m in w.file.value.capture.value.mirrors && w.ledger.Eligible(m, w.file.value.base) :: P(w.file.value, m).dataComplete
    ensures AddsParts(w.file.value) && "b" in w.log.kept && w.ledger.Eligible("b", w.file.value.base)
    ensures !DataHeld(w.env.held, "b", w.file.value.candidate.value)
  {
    w := MarkAgain();
    assert IsNew(w.file.value.capture.value, w.file.value.base, PART);
    LacksPart(w.env.held, Local(w));
    forall m | m in w.file.value.capture.value.mirrors && w.ledger.Eligible(m, w.file.value.base)
      ensures P(w.file.value, m).dataComplete
    {
      assert "a" in MIRRORS && "b" in MIRRORS;
      CapturedMark(w.file.value, w.ledger, m);
    }
  }

  const SECOND := Slot("second", 0, "second-hash")
  const THIRD := Commit(Some(NEXT), State(map[PART := 1, SECOND := 5], 2), 2)
  const THIRD_EDGE := Staged(Manifest(2, Some(NEXT), THIRD, [BUNDLE]), 6)

  const LATER := Operations.Finalized(
    NewTxn(Ordinary, Some(NEXT)).(incident := 1, capture := Some(Capture(map[SECOND := 5], false, {"b"}))), 2)

  /** The next ordinary capture starts with a clean slate, but with b, whose row names the base. */
  lemma CaptureSecond() returns (w: World)
    ensures Reached(w) && w.head == w.env.remote == Some(NEXT) && w.log.kept == {} && w.log.stale == {"b"}
    ensures w.file == Some(LATER) && w.ledger == Verified(Ledger(ROWS, 1, {"c"}, None), "b", NEXT)
    ensures w.env.clock == 2 && w.env.created == {BASE, NEXT} && ("b", KEY) !in w.env.held && ("b", KEY) !in w.log.recent
  {
    w := PlanSecond();
    assert w.ledger.Eligible("b", Some(NEXT)) && "b" in MIRRORS;
    w := CaptureAll(w, map[SECOND := 5], {"b"}, "b");
    w := Finalize(w, "b", 2);
  }

  lemma PlanSecond() returns (w: World)
    ensures Reached(w) && w.head == w.env.remote == Some(NEXT) && w.log.kept == {} && w.log.stale == {"b"}
    ensures w.file == Some(NewTxn(Ordinary, Some(NEXT)).(incident := 1, capture := Some(Capture(map[], false, {"b"}))))
    ensures w.ledger == Verified(Ledger(ROWS, 1, {"c"}, None), "b", NEXT)
    ensures w.env.clock == 2 && w.env.created == {BASE, NEXT} && ("b", KEY) !in w.env.held && ("b", KEY) !in w.log.recent
  {
    w := RowOfB();
    assert w.ledger.Eligible("b", Some(NEXT)) && "b" in MIRRORS;
    w := Take(w, Finishes);
    w := Take(w, Plans);
    var eligible := set m | m in MIRRORS && w.ledger.Eligible(m, Some(NEXT));
    assert eligible == {"b"};
    w := Take(w, Starts);
  }

  lemma MarkSecond() returns (w: World)
    ensures Reached(w) && Ready(w) && OnlyData(w.file.value, "b") && Local(w) == THIRD
    ensures w.log.kept == {} && w.log.stale == {"b"} && ("b", KEY) !in w.env.held && ("b", KEY) !in w.log.recent
  {
    w := CaptureSecond();
    assert w.ledger.Eligible("b", Some(NEXT)) && "b" in MIRRORS;
    LaterMark(w.ledger);
    NextIsOld();
    w := MarkAny(w, "b");
  }

  lemma NextIsOld()
    ensures Older(NEXT, 2) && InHistory(BASE, NEXT) && InHistory(NEXT, NEXT)
  {
    assert Older(BASE, 2) && InHistory(BASE, BASE);
  }

  lemma LaterMark(l: Ledger)
    requires l.Eligible("b", Some(NEXT)) && l.incident == 1
    ensures OnlyData(Marked(LATER, l), "b") && LATER.candidate == Some(THIRD.state)
  {
    assert "b" in MIRRORS && "b" in LATER.mirrors && LATER.mirrors["b"] == NO_PROGRESS.(dataComplete := true);
    CapturedMark(LATER, l, "b");
    assert NEXT.state.packs + map[SECOND := 5] == THIRD.state.packs;
  }

  /** Marking a captured candidate whose base is the tip, under the current incident. */
  lemma MarkAny(w: World, m: Name) returns (v: World)
    requires Reached(w) && w.file.Some? && w.head.Some? && w.head == w.env.remote == w.file.value.base
    requires m in MIRRORS && w.ledger.Eligible(m, w.head) && w.ledger.forwardRepair.None?
    requires var t := w.file.value;
             && t == t.(local := None, accepted := false, metadata := None, attempted := false, confirmed := false, resetting := false)
             && t.capture.Some? && m in t.capture.value.mirrors && t.candidate.Some? && StagedDataOk(t) && t.parts == [] && t.kind.Ordinary?
             && t.incident == w.ledger.incident
    requires Older(w.head.value, w.env.clock) && forall y | y in w.env.created :: InRemote(y, w.env.remote)
    ensures Reached(v) && Ready(v) && v == w.(file := Some(Marked(w.file.value, w.ledger)))
  {
    MarkedOnce(w.file.value, w.ledger);
    CapturedMark(w.file.value, w.ledger, m);
    v := Take(w, Marks);
  }

  /** A row inherits what the one before it lacked: nothing is kept any more, b passed nothing, and its
      new row again names a revision with the lost part. */
  lemma InheritedRow() returns (w: World)
    ensures Reached(w) && "b" in w.ledger.mirrors && w.ledger.mirrors["b"] == THIRD && w.log.kept == {} && w.log.stale == {"b"}
    ensures !DataHeld(w.env.held, "b", THIRD.state) && !DataHeld(w.log.recent, "b", THIRD.state)
  {
    w := PushThird();
    w := WriteRow(w, "b");
    LacksPart(w.env.held, THIRD);
    LacksPart(w.log.recent, THIRD);
  }

  lemma PushThird() returns (w: World)
    ensures Reached(w) && Published(w, "b") && w.file.value.local == Some(THIRD) && w.file.value.metadata == Some(THIRD_EDGE)
    ensures OnlyData(w.file.value, "b") && w.log.kept == {} && w.log.stale == {"b"}
    ensures ("b", KEY) !in w.env.held && ("b", KEY) !in w.log.recent
  {
    w := MarkSecond();
    var t := w.file.value;
    w := Create(w, THIRD_EDGE);
    w := Push(w);
    assert w.file.value.mirrors == t.mirrors && "b" in MIRRORS;
  }

  /** The commit is started again: b is marked with a. */
  lemma MarkAgain() returns (w: World)
    ensures Reached(w) && Ready(w) && OnlyData(w.file.value, "b") && Local(w) == NEXT
    ensures w.file.value == PENDING.(incident := 1, mirrors := w.file.value.mirrors)
    ensures w.ledger == Ledger(ROWS, 1, {"c"}, None) && w.log.kept == {"b"} && w.log.stale == {}
    ensures w.env == Env(Some(BASE), 1, {BASE}, {BASE}, EdgeFacts("a", EDGE) + EdgeFacts("b", EDGE) + {("a", KEY)}, true)
    ensures w.log.recent == EdgeFacts("a", EDGE) + EdgeFacts("b", EDGE) + {("a", KEY)}
  {
    w := Revalidate();
    assert "b" in MIRRORS && w.ledger.Eligible("b", Some(BASE));
    CapturedMark(w.file.value, w.ledger, "b");
    w := Mark(w, "a");
    assert map[] + PARTS == PARTS;
    assert Older(BASE, 1);
  }

  lemma Resume() returns (w: World)
    ensures Reached(w) && Committed(w) && w.head == w.file.value.local == Some(NEXT) && w.file.value.metadata == Some(NEXT_EDGE)
    ensures w.file.value.base == Some(BASE) && !w.file.value.confirmed && OnlyData(w.file.value, "b")
    ensures w.file.value.kind.Ordinary? && w.file.value.capture == PENDING.capture
    ensures w.ledger == Ledger(ROWS, 1, {"c"}, None) && w.log.kept == {"b"} && w.log.stale == {}
    ensures w.env == Env(Some(BASE), 2, {BASE}, {BASE, NEXT}, EdgeFacts("a", EDGE) + EdgeFacts("b", EDGE) + {("a", KEY)}, true)
    ensures w.log.recent == EdgeFacts("a", EDGE) + EdgeFacts("b", EDGE) + {("a", KEY)}
  {
    w := MarkAgain();
    var t := w.file.value;
    w := Create(w, NEXT_EDGE);
    assert w.file.value.mirrors == t.mirrors;
  }
}
