/** The commands that share the publication state: add, capture, verify, sync, reset and repair, and
    the theorem about every run of them. */
module Operations {
  import opened Model
  import opened Ancestry
  import opened Evidence
  import opened Records
  import opened Publication

  /** Audits and copies may quarantine mirrors, which never lowers the incident number. */
  twostate predicate Examined(run: Runtime)
    reads run
  {
    && run.txnFile == old(run.txnFile) && run.head == old(run.head)
    && run.Forward() && (run.ledger.incident == old(run.ledger.incident) ==> Undisturbed(run))
    && forall t: Txn :: old(run.Holds(t)) ==> run.Holds(t)
  }

  twostate predicate Undisturbed(run: Runtime)
    reads run
  {
    && run.ledger == old(run.ledger) && old(run.log.recent) <= run.log.recent
    && run.log.kept == old(run.log.kept) && run.log.stale == old(run.log.stale)
  }

  /** The branch head, fast-forwarded to the fetched remote tip if asked. */
  method ValidatedHead(run: Runtime, fetch: bool) returns (tip: Option<Commit>)
    requires run.Inv()
    modifies run`env, run`head
    ensures run.Inv() && run.Forward()
    ensures tip.Some? ==> tip == run.head
    ensures forall t: Txn :: old(run.Holds(t)) ==> run.Holds(t)
    ensures !fetch ==> run.head == old(run.head)
  {
    tip := run.head;
    if tip.None? || !fetch { return; }
    var remote := run.RemoteTip();
    tip := None;
    if remote.None? || !InHistory(run.head.value, remote.value) { return; }
    if run.head != remote {
      var ok := run.ApplyCommit(remote, run.head);
      if !ok { return; }
    }
    tip := remote;
  }

  // ---- planning and capture -----------------------------------------------------------------

  /** Only a plan without commit progress may be replaced. */
  predicate Replaceable(t: Txn) {
    t.capture.None? && t.candidate.None?
  }

  method Add(run: Runtime)
    requires run.Inv()
    modifies run`txnFile, run`env, run`head
    ensures run.Inv() && run.Forward()
  {
    if run.txnFile.Some? && !Replaceable(run.txnFile.value) { return; }
    var tip := ValidatedHead(run, true);
    if tip.None? { return; }
    var ok := run.SaveTxn(NewTxn(Ordinary, tip));
  }

  method StartGenesis(run: Runtime, other: nat)
    requires run.Inv()
    modifies run`txnFile
    ensures run.Inv() && run.Forward()
  {
    if run.txnFile.Some? || run.head.Some? { return; }
    var ok := run.SaveTxn(NewTxn(Genesis, None).(candidate := Some(State(map[], other))));
  }

  /** Mirrors that did not take the part drop out. */
  method UploadCapturedPart(run: Runtime, x: Slot, id: Id, names: set<Name>) returns (kept: set<Name>)
    requires run.Inv()
    modifies run`env, run`log
    ensures run.Inv() && run.Waited() && kept <= names
    ensures forall m | m in kept :: (m, DataKey(x.hash, id)) in run.log.seen && (m, DataKey(x.hash, id)) in run.log.recent
  {
    kept := {};
    var todo := names;
    while todo != {}
      invariant run.Inv() && run.Waited() && kept <= names && todo <= names
      invariant forall m | m in kept :: (m, DataKey(x.hash, id)) in run.log.seen && (m, DataKey(x.hash, id)) in run.log.recent
      decreases todo
    {
      var m :| m in todo;
      todo := todo - {m};
      var reachable: bool := *;
      if reachable {
        var done, doubt := run.Ensure(m, DataKey(x.hash, id));
        if done { kept := kept + {m}; }
      }
    }
  }

  method UploadPack(run: Runtime, parts: map<Slot, Id>, names: set<Name>) returns (kept: set<Name>)
    requires run.Inv()
    modifies run`env, run`log
    ensures run.Inv() && run.Waited() && kept <= names
    ensures forall m, x | m in kept && x in parts ::
              (m, DataKey(x.hash, parts[x])) in run.log.seen && (m, DataKey(x.hash, parts[x])) in run.log.recent
  {
    kept := names;
    var todo := parts.Keys;
    while todo != {}
      invariant run.Inv() && run.Waited() && kept <= names && todo <= parts.Keys
      invariant forall m, x | m in kept && x in parts && x !in todo ::
                  (m, DataKey(x.hash, parts[x])) in run.log.seen && (m, DataKey(x.hash, parts[x])) in run.log.recent
      decreases todo
    {
      var x :| x in todo;
      todo := todo - {x};
      kept := UploadCapturedPart(run, x, parts[x], kept);
    }
  }

  method AuditCapturedParts(run: Runtime, parts: map<Slot, Id>, m: Name) returns (pass: bool)
    requires run.Inv()
    modifies run`env, run`log
    ensures run.Inv() && run.Waited()
    ensures pass ==> forall x | x in parts ::
              (m, DataKey(x.hash, parts[x])) in run.log.seen && (m, DataKey(x.hash, parts[x])) in run.log.recent
  {
    var todo := parts.Keys;
    while todo != {}
      invariant run.Inv() && run.Waited() && todo <= parts.Keys
      invariant forall x | x in parts && x !in todo ::
                  (m, DataKey(x.hash, parts[x])) in run.log.seen && (m, DataKey(x.hash, parts[x])) in run.log.recent
      decreases todo
    {
      var x :| x in todo;
      todo := todo - {x};
      var r := run.Audit(m, DataKey(x.hash, parts[x]));
      if !r.Pass? { return false; }
    }
    pass := true;
  }

  /** Unlike revalidation of a candidate, this one replaces the capture set by what it audited. */
  method RevalidateCapture(run: Runtime, t: Txn, l: Ledger) returns (ok: bool, u: Txn)
    requires run.Inv() && run.Holds(t) && t.capture.Some? && t.candidate.None? && l == run.ledger
    modifies run`txnFile, run`env, run`log
    ensures run.Inv() && run.Forward() && run.ledger == l
    ensures ok ==> run.Holds(u) && run.txnFile == Some(u) && u == WithCaptured(t, l, Captured(u)) && Captured(u) != {}
    ensures ok ==> forall m | m in Captured(u) ::
              Qualifies(run.mirrors, t, l, m) && PartsCaptured(run.log.recent, t.capture.value, m)
    ensures ok && t.incident == l.incident ==> forall m | Qualifies(run.mirrors, t, l, m) :: m in Captured(u)
  {
    ok, u := false, t;
    var c, eligible := t.capture.value, {};
    for i := 0 to |run.mirrors|
      invariant run.Inv() && run.Waited() && run.Holds(t)
      invariant forall m | m in eligible :: Qualifies(run.mirrors, t, l, m) && PartsCaptured(run.log.recent, c, m)
      invariant t.incident == l.incident ==> forall m | Qualifies(run.mirrors[..i], t, l, m) :: m in eligible
    {
      var m := run.mirrors[i];
      if m in c.mirrors && l.Eligible(m, t.base) {
        var pass, reachable: bool := t.incident == l.incident, *;
        if !pass && reachable { pass := AuditCapturedParts(run, c.parts, m); }
        if pass { eligible := eligible + {m}; }
      }
    }
    if eligible == {} { return; }
    u := WithCaptured(t, l, eligible);
    RecapturedGood(t, eligible, run.mirrors, l, run.env, run.log);
    ok := run.SaveTxn(u);
  }

  lemma RecapturedGood(t: Txn, names: set<Name>, mirrors: seq<Name>, l: Ledger, e: Env, g: Log)
    requires Good(t, mirrors, l, e, g) && t.capture.Some? && t.candidate.None? && names <= t.capture.value.mirrors
    requires forall m | m in names :: PartsCaptured(g.recent, t.capture.value, m)
    ensures Good(WithCaptured(t, l, names), mirrors, l, e, g)
  {
    forall m | m in names ensures m in mirrors && PartsCaptured(g.seen, t.capture.value, m) {}
  }

  function Captured(t: Txn): set<Name> {
    if t.capture.Some? then t.capture.value.mirrors else {}
  }

  /** A capture continued under the ledger's incident by the given mirrors. */
  function WithCaptured(t: Txn, l: Ledger, names: set<Name>): Txn
    requires t.capture.Some?
  {
    t.(incident := l.incident, capture := Some(t.capture.value.(mirrors := names)))
  }

  predicate Qualifies(mirrors: seq<Name>, t: Txn, l: Ledger, m: Name) {
    m in mirrors && m in Captured(t) && l.Eligible(m, t.base)
  }

  method StartCapture(run: Runtime, t: Txn, l: Ledger) returns (ok: bool, u: Txn)
    requires run.Inv() && run.Holds(t) && t.capture.None? && t.candidate.None? && l == run.ledger
    modifies run`txnFile, run`log
    ensures run.Inv() && run.Forward()
    ensures ok ==> run.Holds(u) && run.txnFile == Some(u) && u.incident == l.incident && u.candidate.None?
    ensures ok ==> u.capture.Some? && run.log.kept == {}
  {
    ok, u := false, t;
    var eligible := set m | m in run.mirrors && l.Eligible(m, t.base);
    if eligible == {} { return; }
    u := t.(incident := l.incident, capture := Some(Capture(map[], false, eligible)));
    ok := run.SaveAudited(u, {});
  }

  /** One pack: every part is offered, then the segment is recorded. */
  method CapturePack(run: Runtime, t: Txn, parts: map<Slot, Id>) returns (ok: bool, u: Txn)
    requires run.Inv() && run.Holds(t) && t.capture.Some? && t.candidate.None?
    requires t.incident == run.ledger.incident
    modifies run`txnFile, run`env, run`log
    ensures run.Inv() && run.Forward() && run.ledger == old(run.ledger)
    ensures ok ==> run.Holds(u) && u.capture.Some? && u.candidate.None? && u.incident == t.incident
    ensures ok ==> u.base == t.base && u.capture.value.parts == t.capture.value.parts + parts
  {
    ok, u := false, t;
    var c := t.capture.value;
    var kept := UploadPack(run, parts, c.mirrors);
    if kept == {} { return; }
    u := t.(capture := Some(Capture(c.parts + parts, false, kept)));
    forall m | m in kept ensures PartsCaptured(run.log.seen, u.capture.value, m) && PartsCaptured(run.log.recent, u.capture.value, m) {
      assert PartsCaptured(run.log.seen, c, m) && PartsCaptured(run.log.recent, c, m);
    }
    ok := run.SaveTxn(u);
  }

  /** Ends the capture: the candidate extends the base by exactly the captured parts. */
  method FinalizeCapture(run: Runtime, t: Txn, other: nat) returns (ok: bool)
    requires run.Inv() && run.Holds(t) && t.capture.Some? && t.candidate.None?
    modifies run`txnFile
    ensures run.Inv() && run.Forward()
    ensures var base, u := t.base.value.state, Finalized(t, other);
            if u.candidate.value == base then
              (run.txnFile == old(run.txnFile) || run.txnFile.None?) && (ok ==> run.txnFile.None?)
            else if Captured(t) == {} || Displaces(t.capture.value.parts, base) then !ok && run.txnFile == old(run.txnFile)
            else (run.txnFile == old(run.txnFile) || run.txnFile == Some(u)) && (ok ==> run.txnFile == Some(u)) && StagedDataOk(u)
  {
    var base, u := t.base.value.state, Finalized(t, other);
    if u.candidate.value == base {
      ok := run.ClearTxn();
      return;
    }
    if Captured(t) == {} || Displaces(t.capture.value.parts, base) { return false; }
    forall m | m in u.mirrors ensures m in run.mirrors && ProgressOk(u, run.ledger, run.log, m, u.mirrors[m]) {}
    ok := run.SaveTxn(u);
  }

  /** A captured part may not take the place of one the base has. */
  predicate Displaces(parts: map<Slot, Id>, base: State) {
    exists x | x in base.packs && x in parts :: parts[x] != base.packs[x]
  }

  /** The captured transaction as a candidate: base and captured parts, its mirrors data-complete. */
  function Finalized(t: Txn, other: nat): (u: Txn)
    requires t.capture.Some? && t.base.Some?
    ensures u.candidate.Some?
  {
    var c := t.capture.value;
    t.(candidate := Some(State(t.base.value.state.packs + c.parts, other)), capture := Some(c.(complete := true)),
       mirrors := map m | m in c.mirrors :: NO_PROGRESS.(dataComplete := true))
  }

  method CapturePlan(run: Runtime, t: Txn)
    requires run.Inv() && run.txnFile == Some(t) && t.candidate.None?
    modifies run`txnFile, run`env, run`log
    ensures run.Inv() && run.Forward()
  {
    var l := run.ledger;
    if !BackupEligible(t, l, run.mirrors) { return; }
    var ok, u;
    if t.capture.Some? {
      ok, u := RevalidateCapture(run, t, l);
    } else {
      ok, u := StartCapture(run, t, l);
    }
    if !ok { return; }
    var packs: int := *;
    for n := 0 to if packs < 0 then 0 else packs
      invariant run.Inv() && run.Forward() && run.ledger == l
      invariant run.Holds(u) && u.capture.Some? && u.candidate.None? && u.incident == l.incident
    {
      var parts: map<Slot, Id> := *;
      ok, u := CapturePack(run, u, parts);
      if !ok { return; }
    }
    var other: int := *;
    ok := FinalizeCapture(run, u, if other < 0 then 0 else other);
  }

  method Commit(run: Runtime) returns (r: Snapshot)
    requires run.Inv()
    modifies run`txnFile, run`env, run`ledger, run`log, run`head
    ensures run.Inv() && run.Forward() && run.Reported(r)
  {
    r := Stopped;
    if run.txnFile.None? { return; }
    var t := run.txnFile.value;
    if t.local.None? && t.base.Some? && run.head != t.base { return; }
    if t.candidate.None? {
      CapturePlan(run, t);
      if run.txnFile.None? || run.txnFile.value.candidate.None? { return; }
    }
    r := run.CommitTransaction(run.txnFile.value);
  }

  // ---- verify -------------------------------------------------------------------------------

  datatype Verdict = Verdict(passed: set<Name>) | Aborted

  function Configured(mirrors: seq<Name>): set<Name> {
    set m | m in mirrors
  }

  /** One pass over all mirrors. Without an incident its results stand together. */
  method VerifyPass(run: Runtime, tip: Commit, c: Commit) returns (broken: bool, passed: set<Name>)
    requires run.Inv()
    modifies run`env, run`ledger, run`log
    ensures run.Inv() && Examined(run)
    ensures old(run.ledger.quarantined) <= run.ledger.quarantined
    ensures run.ledger.incident != old(run.ledger.incident) ==>
              exists m :: m in run.mirrors && m in run.ledger.quarantined && m !in old(run.ledger.quarantined)
    ensures run.ledger.incident == old(run.ledger.incident) ==>
              forall m | m in passed :: m in run.mirrors &&
                Complete(run.log.seen, m, c) && Complete(run.log.recent, m, c)
  {
    broken, passed := false, {};
    for i := 0 to |run.mirrors|
      invariant run.Inv() && Examined(run)
      invariant old(run.ledger.quarantined) <= run.ledger.quarantined
      invariant run.ledger.incident != old(run.ledger.incident) ==>
          exists m :: m in run.mirrors && m in run.ledger.quarantined && m !in old(run.ledger.quarantined)
      invariant run.ledger.incident == old(run.ledger.incident) ==>
          forall m | m in passed :: m in run.mirrors && Complete(run.log.seen, m, c) && Complete(run.log.recent, m, c)
    {
      var m := run.mirrors[i];
      ghost var before := run.log;
      var r := run.AuditMirror(m, tip, c, run.txnFile);
      if run.ledger.incident == old(run.ledger.incident) {
        forall n | n in passed ensures Complete(run.log.seen, n, c) && Complete(run.log.recent, n, c) {
          CompleteMonotone(before.seen, run.log.seen, n, c);
          CompleteMonotone(before.recent, run.log.recent, n, c);
        }
      }
      if r.Broken? { broken := true; return; }
      if r.Pass? { passed := passed + {m}; }
    }
  }

  method RecordPassed(run: Runtime, c: Commit, passed: set<Name>) returns (ok: bool)
    requires run.Inv()
    requires forall m | m in passed :: Complete(run.log.seen, m, c) && Complete(run.log.recent, m, c)
    modifies run`ledger, run`log
    ensures run.Inv() && run.Forward() && run.ledger.incident == old(run.ledger.incident) && run.log.recent == old(run.log.recent)
    ensures ok ==> forall m | m in passed :: run.ledger.Eligible(m, Some(c))
    ensures ok ==> run.ledger.quarantined == old(run.ledger.quarantined) - passed && run.log.stale == old(run.log.stale) - passed
  {
    var todo := passed;
    while todo != {}
      invariant run.Inv() && run.ledger.incident == old(run.ledger.incident) && todo <= passed
      invariant run.log == old(run.log).(stale := old(run.log.stale) - (passed - todo))
      invariant forall m | m in passed && m !in todo :: run.ledger.Eligible(m, Some(c))
      invariant run.ledger.quarantined == old(run.ledger.quarantined) - (passed - todo)
      decreases todo
    {
      var m :| m in todo;
      todo := todo - {m};
      ok := run.RecordVerified(m, c);
      if !ok { return; }
    }
    ok := true;
  }

  /** What a verdict on `c` means for the record. */
  ghost predicate Decides(run: Runtime, c: Commit, v: Verdict)
    reads run
  {
    v.Verdict? ==>
      && (forall m | m in v.passed :: m in run.mirrors && Complete(run.log.recent, m, c))
      && (run.head == Some(c) ==> forall m | m in v.passed :: run.ledger.Eligible(m, Some(c)) && m !in run.log.stale)
  }

  twostate predicate MoreQuarantined(run: Runtime)
    reads run
  {
    && old(run.ledger.quarantined) <= run.ledger.quarantined
    && exists m :: m in run.mirrors && m in run.ledger.quarantined && m !in old(run.ledger.quarantined)
  }

  /** One pass and, without a new incident, its record. */
  method VerifyOnce(run: Runtime, tip: Commit, c: Commit) returns (decided: bool, v: Verdict)
    requires run.Inv() && run.head == Some(tip)
    modifies run`env, run`ledger, run`log
    ensures run.Inv() && run.Forward() && Decides(run, c, v)
    ensures !decided ==> MoreQuarantined(run)
  {
    v := Aborted;
    var before := run.ledger;
    var broken, passed := VerifyPass(run, tip, c);
    if broken { return true, v; }
    if run.ledger.incident != before.incident { return false, v; }
    if tip == c {
      var ok := RecordPassed(run, c, passed);
      if !ok { return true, v; }
    }
    return true, Verdict(passed);
  }

  /** Restarts the audit after new negative evidence. Every restart has quarantined one more
      configured mirror, so the loop decides within one pass more than there are mirrors. */
  method Verify(run: Runtime, c: Commit) returns (v: Verdict)
    requires run.Inv()
    modifies run`env, run`head, run`ledger, run`log
    ensures run.Inv() && run.Forward() && Decides(run, c, v)
  {
    v := Aborted;
    var t := run.txnFile;
    var tip := ValidatedHead(run, t.None? || !t.value.accepted);
    if tip.None? || !InHistory(c, tip.value) { return; }
    ghost var names := Configured(run.mirrors);
    for attempt := 0 to |run.mirrors| + 1
      invariant run.Inv() && run.Forward() && tip == run.head
      invariant attempt <= |names * run.ledger.quarantined|
    {
      ghost var q := run.ledger.quarantined;
      var decided;
      decided, v := VerifyOnce(run, tip.value, c);
      if decided { return; }
      MoreNames(names, q, run.ledger.quarantined);
    }
    ConfiguredSize(run.mirrors);
    CardinalityAtMost(names * run.ledger.quarantined, names);
    assert false;  // integrity cannot change throughout the verification
  }

  lemma MoreNames(names: set<Name>, q: set<Name>, r: set<Name>)
    requires q <= r && exists m :: m in names && m in r && m !in q
    ensures |names * q| < |names * r|
  {
    var m :| m in names && m in r && m !in q;
    CardinalityAtMost(names * q + {m}, names * r);
  }

  lemma {:induction false} CardinalityAtMost<T>(a: set<T>, b: set<T>)
    requires a <= b
    ensures |a| <= |b|
  {
    if a != {} {
      var x :| x in a;
      CardinalityAtMost(a - {x}, b - {x});
    }
  }

  lemma {:induction false} ConfiguredSize(names: seq<Name>)
    ensures |Configured(names)| <= |names|
  {
    if names == [] {
      assert Configured(names) == {};
    } else {
      ConfiguredSize(names[1..]);
      assert Configured(names) == Configured(names[1..]) + {names[0]};
    }
  }

  // ---- sync ---------------------------------------------------------------------------------

  /** An object absent from the destination is read from the source and created. */
  method CopyObject(run: Runtime, source: Name, destination: Name, k: Key) returns (ok: bool)
    requires run.Inv()
    modifies run`env, run`ledger, run`log
    ensures run.Inv() && Examined(run)
    ensures ok ==> (destination, k) in run.log.seen && (destination, k) in run.log.recent
  {
    var r := run.Audit(destination, k);
    if r.Pass? { return true; }
    ok := run.ObserveDataFailure(destination, k, r.failure);
    if !ok { return; }
    r := run.Audit(source, k);
    if !r.Pass? {
      ok := run.ObserveDataFailure(source, k, r.failure);
      return false;
    }
    var doubt;
    ok, doubt := run.Ensure(destination, k);
  }

  method CopyRevision(run: Runtime, source: Name, destination: Name, keys: set<Key>) returns (ok: bool)
    requires run.Inv()
    modifies run`env, run`ledger, run`log
    ensures run.Inv() && Examined(run)
    ensures ok ==> forall k | k in keys :: (destination, k) in run.log.seen
  {
    var todo := keys;
    while todo != {}
      invariant run.Inv() && Examined(run) && todo <= keys
      invariant forall k | k in keys && k !in todo :: (destination, k) in run.log.seen
      decreases todo
    {
      var k :| k in todo;
      todo := todo - {k};
      ok := CopyObject(run, source, destination, k);
      if !ok { return; }
    }
    ok := true;
  }

  /** A historical sync keeps stronger current evidence. */
  function SyncRow(l: Ledger, m: Name, c: Commit, tip: Commit): Option<Ledger> {
    var k := if c == tip then l.(quarantined := l.quarantined - {m}) else l;
    if m in k.quarantined then Some(k)
    else if m !in k.mirrors || k.mirrors[m] == c then Some(k.(mirrors := k.mirrors[m := c]))
    else if !InHistory(k.mirrors[m], tip) || !InHistory(c, tip) then None
    else if Depth(c) < Depth(k.mirrors[m]) then Some(k)
    else Some(k.(mirrors := k.mirrors[m := c]))
  }

  /** The row of `m` is new or as before, and it only moves forward along the history of the tip. */
  predicate RowForward(l: Ledger, k: Ledger, m: Name, c: Commit) {
    && k.mirrors.Keys - {m} == l.mirrors.Keys - {m}
    && (forall n | n in l.mirrors && n != m :: n in k.mirrors && k.mirrors[n] == l.mirrors[n])
    && (m in l.mirrors ==> m in k.mirrors && InHistory(l.mirrors[m], k.mirrors[m]))
    && (m in k.mirrors ==> k.mirrors[m] == c || (m in l.mirrors && k.mirrors[m] == l.mirrors[m]))
  }

  /** Recording a sync changes only the row and quarantine of `m`: the quarantine of a mirror is lifted
      only by a sync of the tip, a quarantined one gets no row, and no row moves to an older revision.
      It fails exactly where the recorded revision has left the history of the tip. */
  lemma SyncRowMoves(l: Ledger, m: Name, c: Commit, tip: Commit)
    requires InHistory(c, tip) && l.mirrors.Keys !! l.quarantined
    ensures SyncRow(l, m, c, tip).None? <==> m in l.mirrors && l.mirrors[m] != c && !InHistory(l.mirrors[m], tip)
    ensures SyncRow(l, m, c, tip).Some? ==>
              var k := SyncRow(l, m, c, tip).value;
              && RowForward(l, k, m, c) && k.incident == l.incident && k.forwardRepair == l.forwardRepair
              && k.quarantined == (if c == tip then l.quarantined - {m} else l.quarantined)
              && (m in k.mirrors <==> m in l.mirrors || m !in k.quarantined)
              && (m in k.mirrors && m !in l.mirrors ==> k.mirrors[m] == c)
  {
    if m in l.mirrors && InHistory(l.mirrors[m], tip) {
      HistoryLinear(l.mirrors[m], c, tip);
      if InHistory(c, l.mirrors[m]) { HistoryDepth(c, l.mirrors[m]); }
    }
  }

  /** The stale mirrors after a sync: those recorded for the audited revision are stale no longer. */
  function SyncStale(stale: set<Name>, k: Ledger, m: Name, c: Commit): set<Name> {
    if m in k.mirrors && k.mirrors[m] == c then stale - {m} else stale
  }

  lemma SyncRowOk(l: Ledger, g: Log, m: Name, c: Commit, tip: Commit)
    requires LedgerOk(l, g) && Complete(g.seen, m, c) && Complete(g.recent, m, c)
    ensures SyncRow(l, m, c, tip).Some? ==>
              var k := SyncRow(l, m, c, tip).value;
              LedgerOk(k, g.(stale := SyncStale(g.stale, k, m, c))) && k.incident == l.incident
  {
    if SyncRow(l, m, c, tip).Some? {
      var k := SyncRow(l, m, c, tip).value;
      forall n | n in k.mirrors ensures RowOk(g.(stale := SyncStale(g.stale, k, m, c)), n, k.mirrors[n]) {
        if n != m || k.mirrors[n] != c { assert RowOk(g, n, l.mirrors[n]); }
      }
    }
  }

  /** What a sync of `c` records for the two ends, if anything. */
  function SyncRows(l: Ledger, source: Name, destination: Name, c: Commit, tip: Commit): Option<Ledger> {
    var first := SyncRow(l, source, c, tip);
    if first.None? then None else SyncRow(first.value, destination, c, tip)
  }

  /** Both ends are audited after the copy; without an incident both rows are recorded, together. */
  method RecordSync(run: Runtime, source: Name, destination: Name, c: Commit, tip: Commit) returns (ok: bool)
    requires run.Inv()
    modifies run`env, run`ledger, run`log
    ensures run.Inv() && run.Forward()
    ensures ok ==> Complete(run.log.recent, source, c) && Complete(run.log.recent, destination, c)
    ensures ok ==> SyncRows(old(run.ledger), source, destination, c, tip) == Some(run.ledger)
    ensures run.ledger.incident == old(run.ledger.incident) ==>
              run.ledger == old(run.ledger) || SyncRows(old(run.ledger), source, destination, c, tip) == Some(run.ledger)
  {
    ok := false;
    var before := run.ledger;
    var r := run.AuditMirror(source, tip, c, run.txnFile);
    if !r.Pass? { return; }
    ghost var g := run.log;
    r := run.AuditMirror(destination, tip, c, run.txnFile);
    if !r.Pass? { return; }
    if run.ledger.incident != before.incident { return; }
    CompleteMonotone(g.seen, run.log.seen, source, c);
    CompleteMonotone(g.recent, run.log.recent, source, c);
    var first := SyncRow(run.ledger, source, c, tip);
    SyncRowOk(run.ledger, run.log, source, c, tip);
    if first.None? { return; }
    var second := SyncRow(first.value, destination, c, tip);
    ghost var stale := SyncStale(run.log.stale, first.value, source, c);
    SyncRowOk(first.value, run.log.(stale := stale), destination, c, tip);
    if second.None? { return; }
    ok := run.SaveLedger(second.value, SyncStale(stale, second.value, destination, c));
  }

  method Sync(run: Runtime, source: Name, destination: Name, c: Commit, metadata: set<Key>)
    requires run.Inv()
    modifies run`env, run`head, run`ledger, run`log
    ensures run.Inv() && run.Forward()
  {
    if source == destination || source !in run.mirrors || destination !in run.mirrors { return; }
    var t := run.txnFile;
    var tip := ValidatedHead(run, t.None? || !t.value.accepted);
    if tip.None? || !InHistory(c, tip.value) { return; }
    var r := run.AuditMirror(source, tip.value, c, t);
    if !r.Pass? { return; }
    r := run.AuditMirror(destination, tip.value, c, t);
    if r.Broken? { return; }
    var data := set x | x in c.state.packs :: PackKey(c.state, x);
    var ok := CopyRevision(run, source, destination, data + metadata);
    if !ok { return; }
    ok := RecordSync(run, source, destination, c, tip.value);
  }

  // ---- reset --------------------------------------------------------------------------------

  /** Drops a resetting transaction once the branch is back at its base; its commit can never be
      published afterwards. */
  method Abandon(run: Runtime, t: Txn) returns (ok: bool)
    requires run.Inv() && run.txnFile == Some(t) && t.resetting && run.head == t.base
    modifies run`txnFile, run`log
    ensures run.Inv() && run.Forward()
    ensures ok ==> run.txnFile.None?
    ensures run.txnFile.None? && t.local.Some? ==> t.local.value in run.log.abandoned
  {
    ok := *;
    var durable: bool := *;
    if ok || durable {
      if t.local.Some? {
        if t.base.Some? { ChildNotInParent(t.local.value, t.base.value); }
        run.log := run.log.(abandoned := run.log.abandoned + {t.local.value});
      }
      run.txnFile := None;
    }
  }

  /** Moves the branch back from the local commit to the base, then drops the transaction. */
  method FinishReset(run: Runtime, t: Txn) returns (ok: bool)
    requires run.Inv() && run.txnFile == Some(t) && t.resetting && t.candidate.Some?
    modifies run`txnFile, run`head, run`log
    ensures run.Inv() && run.Forward()
    ensures ok ==> run.txnFile.None? && run.head == t.base
    ensures run.txnFile.None? && t.local.Some? ==> t.local.value in run.log.abandoned
  {
    if !t.accepted {
      ok := run.ApplyCommit(t.base, t.base);
      if ok { ok := Abandon(run, t); }
      return;
    }
    ok := false;
    if run.head != t.local && run.head != t.base { return; }
    ok := run.ApplyCommit(t.base, run.head);
    if !ok { return; }
    var u := t.(accepted := false);
    UnacceptedGood(t, run.mirrors, run.ledger, run.env, run.log);
    ok := run.SaveTxn(u);
    if ok { ok := Abandon(run, u); }
  }

  lemma UnacceptedGood(t: Txn, mirrors: seq<Name>, l: Ledger, e: Env, g: Log)
    requires Good(t, mirrors, l, e, g) && t.resetting && t.candidate.Some?
    ensures Good(t.(accepted := false), mirrors, l, e, g)
  {
    var u := t.(accepted := false);
    forall m | m in u.mirrors ensures m in mirrors && ProgressOk(u, l, g, m, u.mirrors[m]) {
      assert ProgressOk(t, l, g, m, t.mirrors[m]);
    }
  }

  /** Whether the attempted push is known to have lost. Seeing the base proves nothing. */
  method PushRejected(run: Runtime, t: Txn) returns (rejected: bool)
    requires run.Inv() && run.txnFile == Some(t) && t.attempted && t.candidate.Some?
    modifies run`env
    ensures run.Inv() && run.Waited()
    ensures rejected ==> Excluded(t.local.value, run.env)
  {
    var tip := run.RemoteTip();
    rejected := false;
    if tip.None? || tip == t.local || tip == t.base || t.base.None? { return; }
    if InHistory(t.local.value, tip.value) || !InHistory(t.base.value, tip.value) { return; }
    CompetitorBlocks(t.local.value, t.base.value, tip.value);
    rejected := true;
  }

  method Reset(run: Runtime) returns (ok: bool)
    requires run.Inv()
    modifies run`txnFile, run`env, run`head, run`log
    ensures run.Inv() && run.Forward()
    ensures ok ==> run.txnFile.None?
    ensures run.txnFile.None? && old(run.txnFile).Some? && old(run.txnFile).value.local.Some? ==>
              old(run.txnFile).value.local.value in run.log.abandoned
  {
    if run.txnFile.None? { return true; }
    var t := run.txnFile.value;
    if t.candidate.None? {
      ok := run.ClearTxn();
      return;
    }
    ok := false;
    if t.confirmed { return; }
    if t.attempted {
      var rejected := PushRejected(run, t);
      if !rejected { return; }
    }
    var u := t.(attempted := false, resetting := true);
    if !t.resetting {
      ResettingGood(t, u, run.mirrors, run.ledger, run.env, run.log);
      ok := run.SaveTxn(u);
      if !ok { return; }
    }
    ok := FinishReset(run, u);
  }

  lemma ResettingGood(t: Txn, u: Txn, mirrors: seq<Name>, l: Ledger, e: Env, g: Log)
    requires Good(t, mirrors, l, e, g) && t.candidate.Some? && !t.confirmed && !t.resetting
    requires u == t.(attempted := false, resetting := true)
    requires t.attempted ==> Excluded(t.local.value, e)
    ensures Good(u, mirrors, l, e, g)
  {
    forall m | m in u.mirrors ensures m in mirrors && ProgressOk(u, l, g, m, u.mirrors[m]) {
      assert ProgressOk(t, l, g, m, t.mirrors[m]);
    }
  }

  // ---- repair -------------------------------------------------------------------------------

  lemma UnclaimedGood(t: Txn, u: Txn, mirrors: seq<Name>, l: Ledger, e: Env, g: Log)
    requires Good(t, mirrors, l, e, g) && t.candidate.Some?
    requires u == t.(mirrors := map m | m in t.mirrors ::
                       t.mirrors[m].(dataComplete := false, revisionComplete := false, metaCursor := 0, manifest := false))
    ensures Good(u, mirrors, l, e, g)
  {
    forall m | m in u.mirrors ensures m in mirrors && ProgressOk(u, l, g, m, u.mirrors[m]) {
      assert ProgressOk(t, l, g, m, t.mirrors[m]);
    }
  }

  method SomeChainComplete(run: Runtime, t: Txn) returns (complete: bool)
    requires run.Inv() && run.Holds(t)
    requires t.local.Some?
    modifies run`env, run`log
    ensures run.Inv() && run.Waited()
    ensures complete ==> exists m :: m in run.mirrors && ChainHeld(run.log.recent, m, t.local.value)
  {
    complete := false;
    for i := 0 to |run.mirrors|
      invariant run.Inv() && run.Waited()
      invariant complete ==> exists m :: m in run.mirrors && ChainHeld(run.log.recent, m, t.local.value)
    {
      ghost var g := run.log;
      var r := run.AuditManifestChain(run.mirrors[i], t.local.value, Some(t));
      if complete {
        ghost var m :| m in run.mirrors && ChainHeld(g.recent, m, t.local.value);
        ChainMonotone(g.recent, run.log.recent, m, t.local.value);
      }
      if r.Pass? { complete := true; }
    }
  }

  /** Retires a published but damaged revision once one mirror has its whole metadata chain. */
  method PrepareForwardRepair(run: Runtime, t: Txn) returns (ok: bool)
    requires run.Inv() && run.txnFile == Some(t)
    modifies run`txnFile, run`env, run`ledger, run`log
    ensures run.Inv() && run.Forward()
    ensures ok ==> t.local.Some? && run.txnFile.None? && run.ledger.forwardRepair == t.local && InRemote(t.local.value, run.env.remote)
    ensures ok ==> exists m :: m in run.mirrors && ChainHeld(run.log.recent, m, t.local.value)
  {
    ok := false;
    if !t.attempted || t.metadata.None? || t.candidate.None? { return; }
    var l := run.ledger;
    if l.quarantined == {} && l.forwardRepair.None? { return; }
    var u;
    ok, u := run.ConfirmOrPush(t);
    if !ok { return; }
    var tip := run.RemoteTip();
    if tip != t.local { return false; }
    l := l.(forwardRepair := t.local);
    ok := run.SaveLedger(l, run.log.stale);
    if !ok { return; }
    ok := PreserveEdge(run, u, l);
  }

  /** Re-audits and completes the pending metadata without claiming the revision. */
  method PreserveEdge(run: Runtime, t: Txn, l: Ledger) returns (ok: bool)
    requires run.Inv() && run.Publishing(t) && l == run.ledger && l.forwardRepair == t.local
    modifies run`txnFile, run`env, run`ledger, run`log
    ensures run.Inv() && run.Forward()
    ensures ok ==> run.txnFile.None? && run.ledger == l && InRemote(t.local.value, run.env.remote)
    ensures ok ==> exists m :: m in run.mirrors && ChainHeld(run.log.recent, m, t.local.value)
  {
    var u := t.(mirrors := map m | m in t.mirrors ::
                  t.mirrors[m].(dataComplete := false, revisionComplete := false, metaCursor := 0, manifest := false));
    UnclaimedGood(t, u, run.mirrors, run.ledger, run.env, run.log);
    ok := run.SaveTxn(u);
    if !ok { return; }
    var k, uncertain;
    ok, u, k, uncertain := run.UploadMetadata(u, l, true);
    if !ok { return; }
    var complete := SomeChainComplete(run, u);
    if !complete {
      var rotated, moved := run.RotateMetadata(u, uncertain);
      return false;
    }
    ok := run.ClearTxn();
  }

  /** The relocation transaction, extended by one more part. */
  function Relocated(t: Txn, x: Slot, id: Id): Txn
    requires t.candidate.Some?
  {
    t.(candidate := Some(t.candidate.value.(packs := t.candidate.value.packs[x := id])),
       parts := t.parts + [DataPart(x, id)],
       mirrors := map m | m in t.mirrors :: t.mirrors[m].(dataComplete := false, revisionComplete := false))
  }

  lemma RelocatedGood(t: Txn, x: Slot, id: Id, mirrors: seq<Name>, l: Ledger, e: Env, g: Log)
    requires Good(t, mirrors, l, e, g) || t == NewTxn(Repair, t.base).(candidate := t.candidate)
    requires Good(t, mirrors, l, e, g) || (PublicationOk(t, e) && forall y | y in g.abandoned :: NotBuiltOn(y, t.base, e))
    requires t.kind.Repair? && t.base.Some? && t.candidate.Some? && t.local.None?
    requires x in t.candidate.value.packs && forall i | 0 <= i < |t.parts| :: t.parts[i].slot != x
    ensures Good(Relocated(t, x, id), mirrors, l, e, g)
  {
    var u := Relocated(t, x, id);
    forall m | m in u.mirrors ensures m in mirrors && ProgressOk(u, l, g, m, u.mirrors[m]) {
      assert ProgressOk(t, l, g, m, t.mirrors[m]);
    }
  }

  predicate Extending(t: Txn) {
    t.kind.Repair? && t.candidate.Some? && t.local.None? && !t.resetting
  }

  /** The transaction that a relocation starts from: the one it extends, or a new one at the head. */
  method RepairBase(run: Runtime, tip: Commit) returns (ok: bool, u: Txn)
    requires run.Inv() && run.head == Some(tip)
    modifies run`txnFile, run`env, run`ledger, run`log
    ensures run.Inv() && run.Forward() && run.head == Some(tip)
    ensures ok ==> u.kind.Repair? && u.base.Some? && u.candidate.Some? && u.local.None? && !u.resetting
    ensures ok ==> run.Holds(u) || u == NewTxn(Repair, Some(tip)).(candidate := Some(tip.state))
  {
    u := NewTxn(Repair, Some(tip)).(candidate := Some(tip.state));
    ok := true;
    if run.txnFile.None? { return; }
    var t := run.txnFile.value;
    if Extending(t) { return true, t; }
    ok := PrepareForwardRepair(run, t);
  }

  method RepairDataPart(run: Runtime, source: Name, x: Slot) returns (r: Snapshot)
    requires run.Inv()
    modifies run`txnFile, run`env, run`head, run`ledger, run`log
    ensures run.Inv() && run.Forward() && run.Reported(r)
  {
    r := Stopped;
    var t := run.txnFile;
    if t.Some? && !t.value.attempted && !Extending(t.value) { return; }
    var tip := ValidatedHead(run, t.None? || !t.value.accepted);
    if tip.None? || x !in tip.value.state.packs { return; }
    if t.Some? && Extending(t.value) && exists p | p in t.value.parts :: p.slot == x {
      r := run.CommitTransaction(t.value);
      return;
    }
    var k := PackKey(tip.value.state, x);
    var read := run.Audit(source, k);
    if !read.Pass? {
      var observed := run.ObserveDataFailure(source, k, read.failure);
      return;
    }
    r := Relocate(run, tip.value, x);
  }

  method Relocate(run: Runtime, tip: Commit, x: Slot) returns (r: Snapshot)
    requires run.Inv() && run.head == Some(tip)
    modifies run`txnFile, run`env, run`head, run`ledger, run`log
    ensures run.Inv() && run.Forward() && run.Reported(r)
  {
    r := Stopped;
    var ok, u := RepairBase(run, tip);
    if !ok || x !in u.candidate.value.packs || exists p | p in u.parts :: p.slot == x { return; }
    var random: int := *;
    var id: Id := if random < 0 then 0 else random;
    RelocatedGood(u, x, id, run.mirrors, run.ledger, run.env, run.log);
    u := Relocated(u, x, id);
    ok := run.SaveTxn(u);
    if ok { r := run.CommitTransaction(u); }
  }

  /** What a pending transaction keeps of its progress when a rebuilt edge replaces its metadata. */
  function Adopted(t: Txn, s: Staged, m: Name): Txn {
    var u := t.(metadata := Some(s), attempted := true, confirmed := true,
                mirrors := map n | n in t.mirrors ::
                  t.mirrors[n].(metaCursor := 0, manifest := false, revisionComplete := false));
    SetP(u, m, P(u, m).(metaCursor := |s.manifest.parts|, manifest := true))
  }

  /** A published commit has been attempted and is not being reset, so adoption skips no stage. */
  lemma AdoptedGood(t: Txn, s: Staged, m: Name, mirrors: seq<Name>, l: Ledger, e: Env, g: Log)
    requires Good(t, mirrors, l, e, g) && t.local.Some? && InRemote(t.local.value, e.remote) && m in mirrors
    requires Describes(s.manifest, t.local.value) && s.manifest.parts != []
    requires RepresentationHeld(g.seen, m, s) && RepresentationHeld(g.recent, m, s)
    ensures t.attempted && !t.resetting
    ensures Good(Adopted(t, s, m), mirrors, l, e, g)
  {
    var u := Adopted(t, s, m);
    forall n | n in u.mirrors ensures n in mirrors && ProgressOk(u, l, g, n, u.mirrors[n]) {
      if n in t.mirrors { assert ProgressOk(t, l, g, n, t.mirrors[n]); }
    }
  }

  method UploadRepresentation(run: Runtime, m: Name, s: Staged) returns (ok: bool)
    requires run.Inv()
    modifies run`env, run`log
    ensures run.Inv() && run.Waited()
    ensures ok ==> RepresentationHeld(run.log.seen, m, s) && RepresentationHeld(run.log.recent, m, s)
  {
    var parts, doubt := s.manifest.parts, false;
    for i := 0 to |parts|
      invariant run.Inv() && run.Waited()
      invariant PartsHeld(run.log.seen, m, parts, i) && PartsHeld(run.log.recent, m, parts, i)
    {
      ok, doubt := run.Ensure(m, PartKey(parts[i]));
      if !ok { return; }
    }
    ok, doubt := run.Ensure(m, RepresentationKey(s));
  }

  method RepairMetadataEdge(run: Runtime, m: Name, c: Commit) returns (ok: bool)
    requires run.Inv()
    modifies run`txnFile, run`env, run`head, run`log
    ensures run.Inv() && run.Forward()
    ensures ok ==> EdgeHeld(run.log.recent, m, c)
  {
    ok := false;
    var t := run.txnFile;
    var tip := ValidatedHead(run, t.None? || !t.value.accepted);
    if tip.None? || !InHistory(c, tip.value) || m !in run.mirrors { return; }
    var pending := t.Some? && t.value.local == Some(c);
    if pending {
      var remote := run.RemoteTip();
      if remote.None? || !InHistory(c, remote.value) { return; }
    }
    var parts: seq<MetaPart>, random: int := *, *;
    if parts == [] { return; }
    var s := Staged(Manifest(Depth(c), c.parent, c, parts), if random < 0 then 0 else random);
    ok := UploadRepresentation(run, m, s);
    if !ok { return; }
    if pending {
      AdoptedGood(t.value, s, m, run.mirrors, run.ledger, run.env, run.log);
      ok := run.SaveTxn(Adopted(t.value, s, m));
    }
  }

  // ---- every run ----------------------------------------------------------------------------

  /** What holds of every state the program can reach. */
  ghost predicate Safe(run: Runtime)
    reads run
  {
    && run.ledger.mirrors.Keys !! run.ledger.quarantined
    // without object loss, a ledger row means that the mirror holds the whole revision
    && (!run.env.lost ==> forall m | m in run.ledger.mirrors :: Complete(run.env.held, m, run.ledger.mirrors[m]))
    // a row rests on evidence since the last incident, unless a commit wrote it for a kept mirror
    && (forall m | m in run.ledger.mirrors && m !in run.log.stale :: Complete(run.log.recent, m, run.ledger.mirrors[m]))
    // a commit dropped by a finished reset is not published
    && (forall x | x in run.log.abandoned :: !InRemote(x, run.env.remote))
    && (run.txnFile.Some? ==> SafeTxn(run, run.txnFile.value))
  }

  ghost predicate SafeTxn(run: Runtime, t: Txn)
    reads run
  {
    && ValidTxn(t, run.mirrors) && !(t.resetting && t.attempted)
    && (t.confirmed ==> InRemote(t.local.value, run.env.remote))
    && (forall m | m in t.mirrors :: CursorHeld(run.log.seen, t, m, t.mirrors[m]))
    && CaptureHeld(run.log.seen, t, {})
    // so does a captured part, unless the last revalidation kept the mirror unaudited
    && (t.incident == run.ledger.incident ==> CaptureHeld(run.log.recent, t, run.log.kept))
    && (t.capture.Some? ==> run.log.kept <= t.capture.value.mirrors)
  }

  lemma InvariantIsSafe(run: Runtime)
    requires run.Inv()
    ensures Safe(run)
  {
    forall m | m in run.ledger.mirrors && !run.env.lost
      ensures Complete(run.env.held, m, run.ledger.mirrors[m])
    {
      CompleteMonotone(run.log.seen, run.env.held, m, run.ledger.mirrors[m]);
    }
    if run.txnFile.Some? {
      var t := run.txnFile.value;
      forall m | m in t.mirrors ensures ValidProgress(t, m, t.mirrors[m]) && CursorHeld(run.log.seen, t, m, t.mirrors[m]) {
        assert ProgressOk(t, run.ledger, run.log, m, t.mirrors[m]);
      }
    }
  }

  datatype Command =
    | DoAdd
    | DoGenesis(other: nat)
    | DoCommit
    | DoVerify(revision: Commit)
    | DoSync(source: Name, destination: Name, selected: Commit, metadata: set<Key>)
    | DoReset
    | DoRepairData(from: Name, slot: Slot)
    | DoRepairMetadata(to: Name, edge: Commit)

  method Perform(run: Runtime, command: Command)
    requires run.Inv()
    modifies run`txnFile, run`env, run`head, run`ledger, run`log
    ensures run.Inv() && run.Forward()
  {
    match command
    case DoAdd => Add(run);
    case DoGenesis(other) => StartGenesis(run, other);
    case DoCommit => var r := Commit(run);
    case DoVerify(c) => var v := Verify(run, c);
    case DoSync(source, destination, c, keys) => Sync(run, source, destination, c, keys);
    case DoReset => var ok := Reset(run);
    case DoRepairData(source, x) => var r := RepairDataPart(run, source, x);
    case DoRepairMetadata(m, c) => var ok := RepairMetadataEdge(run, m, c);
  }

  /** Any sequence of commands, each interrupted anywhere and against any environment, from an empty
      repository on: every state in between is safe and the record only moves forward. */
  method AnyRun(mirrors: seq<Name>, commands: seq<Command>) returns (run: Runtime)
    requires Distinct(mirrors)
    ensures run.Inv() && Safe(run)
  {
    run := new Runtime(mirrors);
    for i := 0 to |commands|
      invariant fresh(run) && run.Inv() && Safe(run)
    {
      Perform(run, commands[i]);
      InvariantIsSafe(run);
      run.Elapse();
      InvariantIsSafe(run);
    }
    InvariantIsSafe(run);
  }
}
