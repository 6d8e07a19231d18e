/** The publication protocol as the program runs it: a runtime over durable files and an environment
    that may lose objects, answer ambiguously and move the remote branch at any time.

    A save may fail without saying whether it became durable, so returning on a failed save stands
    for a crash on either side of that write. */
module Publication {
  import opened Model
  import opened Ancestry
  import opened Evidence
  import opened Stability
  import opened Records

  datatype Disposition = Acknowledged | Conflict | Ambiguous | Failed

  /** `Broken` is a failure of the local incident state, which aborts the operation. */
  datatype Outcome = Pass | Fail(failure: Failure) | Broken

  datatype Snapshot = Published(commit: Commit, complete: set<Name>) | Stopped

  predicate Distinct(names: seq<Name>) {
    forall i, j | 0 <= i < j < |names| :: names[i] != names[j]
  }

  predicate Conclusive(o: Outcome) {
    o.Fail? && !o.failure.Unavailable?
  }

  class Runtime {
    const mirrors: seq<Name>  // the configured mirrors
    var txnFile: Option<Txn>
    var ledger: Ledger
    var head: Option<Commit>
    var env: Env
    ghost var log: Log

    ghost predicate Holds(t: Txn)
      reads this
    {
      Good(t, mirrors, ledger, env, log)
    }

    ghost predicate Inv()
      reads this
    {
      && Distinct(mirrors)
      && LedgerOk(ledger, log) && EnvOk(head, env, log) && (txnFile.Some? ==> Holds(txnFile.value))
    }

    constructor (mirrors: seq<Name>)
      requires Distinct(mirrors)
      ensures Inv() && this.mirrors == mirrors
      ensures txnFile.None? && ledger.mirrors == map[] && ledger.incident == 0 && ledger.quarantined == {}
    {
      this.mirrors := mirrors;
      txnFile, head := None, None;
      ledger := Ledger(map[], 0, {}, None);
      env := Env(None, 0, {}, {}, {}, false);
      log := Log({}, {}, {}, {}, {});
    }

    // ---- the environment ------------------------------------------------------------------

    /** Time passed: nothing local changed and everything that was good still is. */
    twostate predicate Waited()
      reads this
    {
      && txnFile == old(txnFile) && head == old(head) && ledger == old(ledger)
      && Learns(old(log), log)
      && (forall c: Commit :: InRemote(c, old(env.remote)) ==> InRemote(c, env.remote))
      && forall t: Txn :: old(Holds(t)) ==> Holds(t)
    }

    /** An audit of `m` may in addition have put `m` in quarantine. */
    twostate predicate Audited(m: Name)
      reads this
    {
      && txnFile == old(txnFile) && head == old(head)
      && old(log.seen) <= log.seen && log.abandoned == old(log.abandoned)
      && (ledger == old(ledger) ==> Learns(old(log), log))
      && (ledger == old(ledger) || (m !in old(ledger.quarantined) && ledger == Incident(old(ledger), m)))
      && forall t: Txn :: old(Holds(t)) ==> Holds(t)
    }

    /** What every operation of the program does to the record over time. */
    twostate predicate Forward()
      reads this
    {
      && old(ledger.incident) <= ledger.incident && old(log.seen) <= log.seen
      && old(log.abandoned) <= log.abandoned
      && (ledger.incident == old(ledger.incident) ==> old(log.recent) <= log.recent)
    }

    method Elapse()
      requires Inv()
      modifies this`env
      ensures Inv() && Waited() && EnvStep(old(env), env)
    {
      var next: Env := *;
      if EnvStep(env, next) {
        EnvStable(head, env, next, log);
        forall c: Commit | InRemote(c, env.remote) ensures InRemote(c, next.remote) {
          if env.remote != next.remote { HistoryTransitive(c, env.remote.value, next.remote.value); }
        }
        forall t: Txn | Holds(t) ensures Good(t, mirrors, ledger, next, log) {
          GoodStable(t, mirrors, ledger, env, next, log, log);
        }
        env := next;
      }
    }

    /** Records that `m` was seen to hold `k`. */
    method Observe(m: Name, k: Key)
      requires Inv() && (env.lost || (m, k) in env.held)
      modifies this`log
      ensures Inv() && Waited()
      ensures (m, k) in log.seen && (m, k) in log.recent
    {
      ghost var next := log.(seen := log.seen + {(m, k)}, recent := log.recent + {(m, k)});
      LedgerStable(ledger, log, next);
      forall t: Txn | Holds(t) ensures Good(t, mirrors, ledger, env, next) {
        GoodStable(t, mirrors, ledger, env, env, log, next);
      }
      log := next;
    }

    /** A conditional create: nothing is ever replaced. */
    method Put(m: Name, k: Key) returns (d: Disposition)
      requires Inv()
      modifies this`env, this`log
      ensures Inv() && Waited()
      ensures d.Acknowledged? ==> (m, k) in log.seen && (m, k) in log.recent
    {
      Elapse();
      d := *;
      var stored: bool := *;
      if d.Acknowledged? || (d.Ambiguous? && stored) {
        assert EnvStep(env, env.(held := env.held + {(m, k)}));
        forall t: Txn | Holds(t) ensures Good(t, mirrors, ledger, env.(held := env.held + {(m, k)}), log) {
          GoodStable(t, mirrors, ledger, env, env.(held := env.held + {(m, k)}), log, log);
        }
        EnvStable(head, env, env.(held := env.held + {(m, k)}), log);
        env := env.(held := env.held + {(m, k)});
      }
      if d.Acknowledged? { Observe(m, k); }
    }

    /** A checksum audit. A failure may mean anything; a pass means the object is there. */
    method Audit(m: Name, k: Key) returns (r: Outcome)
      requires Inv()
      modifies this`env, this`log
      ensures Inv() && Waited() && !r.Broken?
      ensures r.Pass? ==> (m, k) in log.seen && (m, k) in log.recent
    {
      Elapse();
      var failure: Failure, readable: bool := *, *;
      r := Fail(failure);
      if readable && (m, k) in env.held {
        Observe(m, k);
        r := Pass;
      }
    }

    /** Create, and on a conflicting or ambiguous answer audit what is there. */
    method Ensure(m: Name, k: Key) returns (acknowledged: bool, uncertain: bool)
      requires Inv()
      modifies this`env, this`log
      ensures Inv() && Waited()
      ensures acknowledged ==> (m, k) in log.seen && (m, k) in log.recent
    {
      var d := Put(m, k);
      acknowledged, uncertain := d.Acknowledged?, false;
      if d.Conflict? || d.Ambiguous? {
        var r := Audit(m, k);
        acknowledged, uncertain := r.Pass?, !r.Pass?;
      }
    }

    // ---- durable writes -------------------------------------------------------------------

    /** The record must pass the validator, which is part of `Holds`. */
    method SaveTxn(t: Txn) returns (ok: bool)
      requires Inv() && Holds(t)
      modifies this`txnFile
      ensures Inv() && (txnFile == old(txnFile) || txnFile == Some(t))
      ensures ok ==> txnFile == Some(t)
    {
      var durable: bool := *;
      ok := *;
      if ok || durable { txnFile := Some(t); }
    }

    /** A record that says anew which mirrors its capture set keeps unaudited. */
    method SaveAudited(t: Txn, ghost kept: set<Name>) returns (ok: bool)
      requires Inv() && Good(t, mirrors, ledger, env, log.(kept := kept)) && (ledger.incident == 0 ==> kept == {})
      modifies this`txnFile, this`log
      ensures Inv()
      ensures (txnFile == old(txnFile) && log == old(log)) || (txnFile == Some(t) && log == old(log).(kept := kept))
      ensures ok ==> txnFile == Some(t) && log == old(log).(kept := kept)
    {
      var durable: bool := *;
      ok := *;
      if ok || durable { txnFile, log := Some(t), log.(kept := kept); }
    }

    method SaveLedger(l: Ledger, ghost stale: set<Name>) returns (ok: bool)
      requires Inv() && LedgerOk(l, log.(stale := stale)) && l.incident == ledger.incident
      modifies this`ledger, this`log
      ensures Inv()
      ensures (ledger == old(ledger) && log == old(log)) || (ledger == l && log == old(log).(stale := stale))
      ensures ok ==> ledger == l && log == old(log).(stale := stale)
      ensures forall t: Txn :: old(Holds(t)) ==> Holds(t)
    {
      var durable: bool := *;
      ok := *;
      if ok || durable { ledger, log := l, log.(stale := stale); }
    }

    /** A new incident clears every row in the same write. */
    method Quarantine(m: Name) returns (ok: bool)
      requires Inv()
      modifies this`ledger, this`log
      ensures Inv() && Audited(m)
      ensures ok ==> m in ledger.quarantined
    {
      if m in ledger.quarantined { return true; }
      if ledger.incident >= MAX_INCIDENT { return false; }
      var durable: bool := *;
      ok := *;
      if ok || durable {
        forall t: Txn | Holds(t) ensures Good(t, mirrors, Incident(ledger, m), env, Outdated(log)) {
          GoodAfterIncident(t, mirrors, ledger, env, log, m);
        }
        ledger, log := Incident(ledger, m), Outdated(log);
      }
    }

    // ---- audits ---------------------------------------------------------------------------

    /** Only a conclusive failure of an object the current revision needs is an incident, and absence
        only on a mirror that is known to have held it. */
    method ObserveDataFailure(m: Name, k: Key, f: Failure) returns (ok: bool)
      requires Inv()
      modifies this`ledger, this`log
      ensures Inv() && Audited(m)
      ensures ledger != old(ledger) ==> DataIncident(txnFile, head, old(ledger), m, k, f)
      ensures ok && DataIncident(txnFile, head, old(ledger), m, k, f) ==> m in ledger.quarantined
    {
      if !k.DataKey? || f.Unavailable? { return true; }
      if head.None? { return false; }
      if !HasObject(head.value.state, k) || m in ledger.quarantined { return true; }
      if f.Missing? {
        var acknowledged := DataAcknowledged(txnFile, head.value, m);
        if !acknowledged {
          if m !in ledger.mirrors { return true; }
          var prior := ledger.mirrors[m];
          if !InHistory(prior, head.value) { return false; }
          if !HasObject(prior.state, k) { return true; }
        }
      }
      ok := Quarantine(m);
    }

    method AuditData(m: Name, s: State) returns (r: Outcome)
      requires Inv()
      modifies this`env, this`ledger, this`log
      ensures Inv() && Audited(m)
      ensures r.Pass? ==> ledger == old(ledger) && DataHeld(log.seen, m, s) && DataHeld(log.recent, m, s)
    {
      var todo := s.packs.Keys;
      while todo != {}
        invariant Inv() && Waited() && todo <= s.packs.Keys
        invariant forall x | x in s.packs && x !in todo ::
            (m, PackKey(s, x)) in log.seen && (m, PackKey(s, x)) in log.recent
        decreases todo
      {
        var x :| x in todo;
        r := Audit(m, PackKey(s, x));
        if !r.Pass? {
          var ok := ObserveDataFailure(m, PackKey(s, x), r.failure);
          if !ok { r := Broken; }
          return;
        }
        todo := todo - {x};
      }
      r := Pass;
    }

    /** The readable manifests for a tip; an error may come with usable alternatives. */
    method ListManifests(m: Name, tip: Commit) returns (found: seq<Staged>, r: Outcome)
      requires Inv()
      modifies this`env, this`log
      ensures Inv() && Waited() && !r.Broken?
      ensures forall i | 0 <= i < |found| :: found[i].manifest.tip == tip &&
                (m, RepresentationKey(found[i])) in log.seen && (m, RepresentationKey(found[i])) in log.recent
    {
      found := [];
      Elapse();
      var count: int := *;
      for n := 0 to if count < 0 then 0 else count
        invariant Inv() && Waited()
        invariant forall i | 0 <= i < |found| :: found[i].manifest.tip == tip &&
                    (m, RepresentationKey(found[i])) in log.seen && (m, RepresentationKey(found[i])) in log.recent
      {
        var s: Staged := *;
        if s.manifest.tip == tip && (m, RepresentationKey(s)) in env.held {
          Observe(m, RepresentationKey(s));
          found := found + [s];
        }
      }
      var failure: Failure, complete: bool := *, *;
      r := if complete then Pass else Fail(failure);
    }

    method AuditRepresentation(m: Name, s: Staged) returns (r: Outcome)
      requires Inv() && (m, RepresentationKey(s)) in log.seen && (m, RepresentationKey(s)) in log.recent
      modifies this`env, this`log
      ensures Inv() && Waited() && !r.Broken?
      ensures r.Pass? ==> RepresentationHeld(log.seen, m, s) && RepresentationHeld(log.recent, m, s)
    {
      var parts := s.manifest.parts;
      r := Pass;
      for i := 0 to |parts|
        invariant Inv() && Waited() && r.Pass?
        invariant PartsHeld(log.seen, m, parts, i) && PartsHeld(log.recent, m, parts, i)
      {
        r := Audit(m, PartKey(parts[i]));
        if !r.Pass? { return; }
      }
    }

    /** Only the pinned representation can complete a pending edge. */
    method AuditEdge(m: Name, c: Commit, pending: Option<Txn>) returns (r: Outcome)
      requires Inv()
      modifies this`env, this`log
      ensures Inv() && Waited() && !r.Broken?
      ensures r.Pass? ==> EdgeHeld(log.seen, m, c) && EdgeHeld(log.recent, m, c)
    {
      var found, listed := ListManifests(m, c);
      if found == [] && !listed.Pass? { return listed; }
      var unknown, corrupt := !listed.Pass?, false;
      for i := 0 to |found|
        invariant Inv() && Waited()
        invariant forall j | 0 <= j < |found| ::
            (m, RepresentationKey(found[j])) in log.seen && (m, RepresentationKey(found[j])) in log.recent
      {
        if (pending.Some? && pending.value.local == Some(c) && pending.value.metadata != Some(found[i])) ||
           !Describes(found[i].manifest, c) {
          continue;
        }
        var audited := AuditRepresentation(m, found[i]);
        if audited.Pass? { return Pass; }
        unknown := unknown || audited.failure.Unavailable?;
        corrupt := corrupt || audited.failure.Corrupt?;
      }
      r := Fail(if corrupt then Corrupt else if unknown then Unavailable else Missing);
    }

    method AuditManifestChain(m: Name, c: Commit, pending: Option<Txn>) returns (r: Outcome)
      requires Inv()
      modifies this`env, this`log
      ensures Inv() && Waited() && !r.Broken?
      ensures r.Pass? ==> ChainHeld(log.seen, m, c) && ChainHeld(log.recent, m, c)
    {
      var h := History(c);
      r := Pass;
      for i := 0 to |h|
        invariant Inv() && Waited() && r.Pass?
        invariant forall j | 0 <= j < i :: EdgeHeld(log.seen, m, h[j]) && EdgeHeld(log.recent, m, h[j])
      {
        ghost var before := log;
        r := AuditEdge(m, h[i], pending);
        if !r.Pass? { return; }
        forall j | 0 <= j < i ensures EdgeHeld(log.seen, m, h[j]) && EdgeHeld(log.recent, m, h[j]) {
          EdgeMonotone(before.seen, log.seen, m, h[j]);
          EdgeMonotone(before.recent, log.recent, m, h[j]);
        }
      }
      ChainFromEdges(log.seen, m, c);
      ChainFromEdges(log.recent, m, c);
    }

    /** A corrupt edge is an incident. An absent one is only where the mirror acknowledged the pinned
        edge, or where the chain it is recorded complete for is found broken too. `found` and `known`
        are what the audits of the two chains said. */
    method AuditChain(m: Name, tip: Commit, c: Commit, pending: Option<Txn>) returns (r: Outcome, ghost found: Outcome, ghost known: Outcome)
      requires Inv()
      modifies this`env, this`ledger, this`log
      ensures Inv() && Audited(m)
      ensures r.Pass? ==> ledger == old(ledger) && ChainHeld(log.seen, m, c) && ChainHeld(log.recent, m, c)
      ensures r == found || r.Broken?
      ensures ledger != old(ledger) ==> ChainIncident(old(ledger), m, tip, c, pending, found, known)
      ensures !r.Broken? && ChainIncident(old(ledger), m, tip, c, pending, found, known) ==> m in ledger.quarantined
    {
      r := AuditManifestChain(m, c, pending);
      found, known := r, r;
      if !Conclusive(r) { return; }
      if r.failure.Missing? && !PinnedEdge(pending, m, c) {
        if m in ledger.quarantined || m !in ledger.mirrors { return; }
        var prior := ledger.mirrors[m];
        if !InHistory(prior, tip) { return Broken, found, known; }
        if prior != c {
          var earlier := AuditManifestChain(m, prior, pending);
          known := earlier;
          if !Conclusive(earlier) { return; }
        }
      }
      var ok := Quarantine(m);
      if !ok { r := Broken; }
    }

    ghost predicate ChainIncident(l: Ledger, m: Name, tip: Commit, c: Commit, pending: Option<Txn>, found: Outcome, known: Outcome) {
      && Conclusive(found)
      && (found.failure.Missing? ==>
            PinnedEdge(pending, m, c) || (m in l.mirrors && InHistory(l.mirrors[m], tip) && Conclusive(known)))
    }

    method AuditMirror(m: Name, tip: Commit, c: Commit, pending: Option<Txn>) returns (r: Outcome)
      requires Inv()
      modifies this`env, this`ledger, this`log
      ensures Inv() && Audited(m)
      ensures r.Pass? ==> ledger == old(ledger) && Complete(log.seen, m, c) && Complete(log.recent, m, c)
    {
      var reachable: bool := *;
      if !reachable || !InHistory(c, tip) { return Fail(Unavailable); }
      r := AuditData(m, c.state);
      if r.Broken? { return; }
      var chain, found, known := AuditChain(m, tip, c, pending);
      if r.Pass? || chain.Broken? { r := chain; }
    }

    // ---- commit: data ---------------------------------------------------------------------

    /** Everything but the per-mirror progress is as before. */
    ghost predicate SameBut(t: Txn, u: Txn) {
      u == t.(mirrors := u.mirrors)
    }

    /** Recomputes the volatile marks of every configured mirror from the ledger and the capture. */
    method Remark(t: Txn, l: Ledger) returns (u: Txn)
      requires Inv() && Holds(t) && t.candidate.Some? && l == ledger
      ensures Holds(u) && SameBut(t, u)
      ensures forall m | m in mirrors :: m in u.mirrors && u.mirrors[m] == Remarked(t, l, m)
    {
      u := t;
      for i := 0 to |mirrors|
        invariant Holds(u) && SameBut(t, u)
        invariant forall m | m in mirrors[..i] :: m in u.mirrors && u.mirrors[m] == Remarked(t, l, m)
      {
        var m := mirrors[i];
        RemarkOne(t, u, m);
        u := SetP(u, m, Remarked(t, l, m));
      }
    }

    lemma RemarkOne(t: Txn, u: Txn, m: Name)
      requires Holds(t) && Holds(u) && SameBut(t, u) && t.candidate.Some? && m in mirrors
      ensures Holds(SetP(u, m, Remarked(t, ledger, m))) && SameBut(t, SetP(u, m, Remarked(t, ledger, m)))
    {
      RemarkedOk(t, m);
      SetHolds(t, u, m, Remarked(t, ledger, m));
    }

    /** The default progress is always acceptable. */
    lemma ProgressHolds(t: Txn, m: Name)
      requires Holds(t) && t.candidate.Some?
      ensures ProgressOk(t, ledger, log, m, P(t, m))
    {
      if m !in t.mirrors && t.capture.None? && |t.parts| == 0 { assert P(t, m).dataCursor == |t.parts|; }
    }

    lemma RemarkedOk(t: Txn, m: Name)
      requires Holds(t) && t.candidate.Some?
      ensures ProgressOk(t, ledger, log, m, Remarked(t, ledger, m))
    {
      ProgressHolds(t, m);
    }

    lemma SetHolds(t: Txn, u: Txn, m: Name, p: Progress)
      requires Holds(u) && SameBut(t, u) && u.candidate.Some? && m in mirrors
      requires ProgressOk(t, ledger, log, m, p)
      ensures Holds(SetP(u, m, p)) && SameBut(t, SetP(u, m, p))
    {
      assert ProgressOk(u, ledger, log, m, p);
      GoodSetP(u, mirrors, ledger, env, log, m, p);
    }

    /** Offers part `i` to one mirror whose cursor stands there. */
    method UploadPartTo(t: Txn, m: Name, i: nat) returns (ok: bool, u: Txn, acknowledged: bool, uncertain: bool)
      requires Inv() && Holds(t) && t.candidate.Some? && i < |t.parts| && m in mirrors && P(t, m).dataCursor == i
      modifies this`txnFile, this`env, this`log
      ensures Inv() && Holds(u) && SameBut(t, u) && ledger == old(ledger) && Learns(old(log), log)
      ensures !acknowledged ==> u == t
    {
      u, ok := t, true;
      acknowledged, uncertain := Ensure(m, StagedKey(t.parts[i]));
      if acknowledged {
        ProgressHolds(t, m);
        SetHolds(t, t, m, P(t, m).(dataCursor := i + 1));
        u := SetP(t, m, P(t, m).(dataCursor := i + 1));
        ok := SaveTxn(u);
      }
    }

    /** Offers part `i` to every mirror whose cursor stands there. */
    method UploadPart(t: Txn, i: nat) returns (ok: bool, u: Txn, acknowledged: bool, uncertain: bool)
      requires Inv() && Holds(t) && t.candidate.Some? && i < |t.parts|
      modifies this`txnFile, this`env, this`log
      ensures Inv() && Holds(u) && SameBut(t, u) && ledger == old(ledger) && Learns(old(log), log)
      ensures ok && !acknowledged ==> forall m | m in u.mirrors :: u.mirrors[m].dataCursor <= i
    {
      ok, u, acknowledged, uncertain := true, t, false, false;
      for n := 0 to |mirrors|
        invariant Inv() && Holds(u) && SameBut(t, u) && ledger == old(ledger) && Learns(old(log), log)
        invariant !acknowledged ==> u == t && forall k | 0 <= k < n :: P(t, mirrors[k]).dataCursor <= i
      {
        var m := mirrors[n];
        var reachable: bool := *;
        if P(u, m).dataCursor > i {
          acknowledged := true;
        } else if P(u, m).dataCursor == i && reachable {
          var done, doubt;
          ok, u, done, doubt := UploadPartTo(u, m, i);
          if !ok { return; }
          acknowledged, uncertain := acknowledged || done, uncertain || doubt;
        }
      }
      ok := true;
    }

    /** Gives a part that no mirror acknowledged a new object ID, in the candidate too. */
    method RotateDataPart(t: Txn, i: nat) returns (ok: bool, u: Txn)
      requires Inv() && Holds(t) && t.candidate.Some? && i < |t.parts|
      modifies this`txnFile
      ensures Inv() && (txnFile == old(txnFile) || txnFile == Some(u)) && (ok ==> txnFile == Some(u))
      ensures t.local.Some? || Passed(t, i) ==> !ok && u == t && txnFile == old(txnFile)
      ensures t.local.None? && !Passed(t, i) ==> |u.parts| == |t.parts| && PartRotated(t, u, i)
    {
      u, ok := t, false;
      if t.local.Some? || Passed(t, i) { return; }
      var id: nat := 0;
      var random: int := *;
      if random > 0 { id := random; }
      var x := t.parts[i].slot;
      u := t.(
        parts := t.parts[i := DataPart(x, id)],
        candidate := Some(t.candidate.value.(packs := t.candidate.value.packs[x := id])),
        mirrors := map m | m in t.mirrors :: t.mirrors[m].(dataComplete := false));
      assert ValidCore(u);
      forall m | m in u.mirrors ensures m in mirrors && ProgressOk(u, ledger, log, m, u.mirrors[m]) {
        assert ProgressOk(t, ledger, log, m, t.mirrors[m]);
      }
      assert PublicationOk(t, env) && PublicationOk(u, env);
      ok := SaveTxn(u);
    }

    /** Marks the mirrors that hold every staged part. */
    method MarkData(t: Txn, l: Ledger) returns (ok: bool, u: Txn)
      requires Inv() && Holds(t) && t.candidate.Some? && t.local.None? && l == ledger
      modifies this`txnFile
      ensures Inv() && Holds(u) && SameBut(t, u)
      ensures ok ==> forall m | m in mirrors :: m in u.mirrors && u.mirrors[m] == MarkedData(t, l, m)
    {
      u := t;
      for i := 0 to |mirrors|
        invariant Inv() && Holds(u) && SameBut(t, u)
        invariant forall m | m in mirrors[..i] :: m in u.mirrors && u.mirrors[m] == MarkedData(t, l, m)
      {
        var m := mirrors[i];
        ProgressHolds(t, m);
        SetHolds(t, u, m, MarkedData(t, l, m));
        u := SetP(u, m, MarkedData(t, l, m));
      }
      ok := SaveTxn(u);
    }

    method UploadDataParts(t: Txn, l: Ledger) returns (ok: bool, u: Txn)
      requires Inv() && Holds(t) && t.candidate.Some? && t.local.None? && l == ledger
      modifies this`txnFile, this`env, this`log
      ensures Inv() && Holds(u) && SameBut(t, u) && ledger == l && Learns(old(log), log)
      ensures ok ==> forall m | m in u.mirrors && u.mirrors[m].dataComplete :: t.parts == [] ==> DataClaim(t, l, m)
      ensures ok ==> forall m | m in u.mirrors :: P(u, m).metaCursor == 0 && !P(u, m).manifest
    {
      u := t;
      for i := 0 to |t.parts|
        invariant Inv() && Holds(u) && SameBut(t, u) && ledger == l && Learns(old(log), log)
      {
        var acknowledged, uncertain;
        ok, u, acknowledged, uncertain := UploadPart(u, i);
        if !ok { return; }
        if !acknowledged && uncertain {
          var relocated, moved := RotateDataPart(u, i);
          ok := false;
          return;  // retried with the new object ID
        }
      }
      ok, u := MarkData(u, l);
    }

    // ---- commit: fresh evidence after an incident or for a repair -----------------------------

    /** What revalidation asks of a mirror: the candidate's data and the base's metadata chain. */
    method AuditCandidate(t: Txn, m: Name) returns (r: Outcome)
      requires Inv() && Holds(t) && t.candidate.Some? && t.base.Some?
      modifies this`env, this`ledger, this`log
      ensures Inv() && Audited(m)
      ensures r.Pass? ==> ledger == old(ledger) && ReadyOn(log.seen, t, m) && ReadyOn(log.recent, t, m)
    {
      var reachable: bool := *;
      if !reachable { return Fail(Unavailable); }
      r := AuditData(m, t.candidate.value);
      if !r.Pass? { return; }
      var tip := if t.local.Some? then t.local.value else t.base.value;
      ghost var found, known;
      r, found, known := AuditChain(m, tip, t.base.value, Some(t));
    }

    /** Every eligible mirror (for a repair: every mirror) is audited against the candidate. */
    method AuditCandidates(t: Txn, l: Ledger) returns (broken: bool, pass: set<Name>)
      requires Inv() && Holds(t) && t.candidate.Some? && t.base.Some? && l == ledger
      modifies this`env, this`ledger, this`log
      ensures Inv() && Forward() && Holds(t) && (ledger == l ==> Learns(old(log), log))
      ensures ledger == l || ledger.incident > l.incident
      ensures ledger == l ==> forall m | m in pass :: m in mirrors && ReadyOn(log.seen, t, m) && ReadyOn(log.recent, t, m)
    {
      broken, pass := false, {};
      for i := 0 to |mirrors|
        invariant Inv() && Forward() && Holds(t) && (ledger == l ==> Learns(old(log), log))
        invariant ledger == l || ledger.incident > l.incident
        invariant ledger == l ==> forall m | m in pass :: m in mirrors && ReadyOn(log.seen, t, m) && ReadyOn(log.recent, t, m)
      {
        var m := mirrors[i];
        if !t.kind.Repair? && !l.Eligible(m, t.base) && !l.Eligible(m, t.local) { continue; }
        ghost var before := log;
        var r := AuditCandidate(t, m);
        if ledger == l {
          forall n | n in pass ensures ReadyOn(log.seen, t, n) && ReadyOn(log.recent, t, n) {
            ReadyOnMonotone(before.seen, log.seen, t, n);
            ReadyOnMonotone(before.recent, log.recent, t, n);
          }
        }
        if r.Broken? { broken := true; return; }
        if r.Pass? { pass := pass + {m}; }
      }
    }

    /** Fresh evidence for the candidate. A mirror already in the capture set stays there even if it
        was skipped or failed; the ghost set `kept` records which. */
    method RevalidateCandidate(t: Txn, l: Ledger) returns (ok: bool, u: Txn, ghost passed: set<Name>)
      requires Inv() && Holds(t) && t.candidate.Some? && StagedDataOk(t) && l == ledger
      requires t.kind.Repair? || t.incident != l.incident
      requires t.incident != l.incident ==> forall m | m in t.mirrors :: MetadataUnclaimed(t.mirrors[m])
      modifies this`txnFile, this`env, this`ledger, this`log
      ensures Inv() && Forward()
      ensures ok ==> ledger == l && Holds(u) && txnFile == Some(u)
      ensures ok ==> u == Revalidated(t, l, mirrors, passed) && AllReady(u, log)
      ensures ok ==> log.kept == Unaudited(t, passed) && log.stale == old(log.stale)
    {
      passed, u, ok := {}, t, false;
      if t.base.None? { return; }
      var broken, pass := AuditCandidates(t, l);
      passed := pass;
      if broken || ledger.incident != l.incident || pass == {} { return; }
      u := Revalidated(t, l, mirrors, pass);
      RevalidatedGood(t, mirrors, l, env, log, pass);
      ok := SaveAudited(u, Unaudited(t, pass));
    }

    // ---- commit: the local revision --------------------------------------------------------

    /** Moves the branch, worktree and index together; write-ahead recovery makes this one step. */
    method ApplyCommit(target: Option<Commit>, expected: Option<Commit>) returns (ok: bool)
      requires Inv()
      requires target.Some? ==> Older(target.value, env.clock)
      requires forall x | x in log.abandoned :: NotBuiltOn(x, target, env)
      modifies this`head
      ensures Inv() && (head == old(head) || head == target)
      ensures ok ==> head == target
    {
      ok := *;
      var durable: bool := *;
      if head != expected { return false; }
      if ok || durable { head := target; }
    }

    method RecordLocalCommit(t: Txn) returns (ok: bool, u: Txn)
      requires Inv() && Holds(t) && t.candidate.Some? && t.local.None? && AllReady(t, log) && !t.resetting
      modifies this`txnFile, this`env
      ensures Inv() && Holds(u) && AllReady(u, log)
      ensures ok ==> txnFile == Some(u) && u.local.Some? && u == t.(local := u.local)
    {
      u, ok := t, false;
      if !exists m | m in t.mirrors :: t.mirrors[m].dataComplete { return; }
      var x := Commit(t.base, t.candidate.value, env.clock);
      if txnFile.Some? { CreateKeeps(txnFile.value, mirrors, ledger, head, env, log, x); }
      CreateEnv(head, env, log, x);
      LocalGood(t, mirrors, ledger, head, env, log, x);
      env := Created(env, x);
      u := t.(local := Some(x));
      ok := SaveTxn(u);
    }

    method AcceptLocally(t: Txn) returns (ok: bool, u: Txn)
      requires Inv() && Holds(t) && t.local.Some? && AllReady(t, log) && !t.resetting
      modifies this`txnFile, this`head
      ensures Inv() && Holds(u) && AllReady(u, log)
      ensures ok ==> txnFile == Some(u) && u == t.(accepted := true)
    {
      u, ok := t.(accepted := true), false;
      if head != t.local {
        if t.base.Some? && head != t.base { return; }
        ok := ApplyCommit(t.local, t.base);
        if !ok { return; }
      }
      ok := SaveTxn(u);
    }

    method StageMetadata(t: Txn) returns (ok: bool, u: Txn)
      requires Inv() && Holds(t) && t.local.Some? && t.metadata.None? && AllReady(t, log) && !t.resetting
      modifies this`txnFile
      ensures Inv() && Holds(u) && AllReady(u, log)
      ensures ok ==> txnFile == Some(u) && u == t.(metadata := u.metadata)
      ensures ok ==> u.metadata.Some? && Describes(u.metadata.value.manifest, t.local.value)
    {
      u, ok := t, false;
      var parts: seq<MetaPart>, random: int := *, *;
      if parts == [] { return; }
      var id: Id := if random < 0 then 0 else random;
      var manifest := Manifest(Depth(t.local.value), t.base, t.local.value, parts);
      u := t.(metadata := Some(Staged(manifest, id)));
      StagedGood(t, u, mirrors, ledger, env, log);
      ok := SaveTxn(u);
    }

    /** A fetch and validation of the remote branch. */
    method RemoteTip() returns (tip: Option<Commit>)
      requires Inv()
      modifies this`env
      ensures Inv() && Waited() && (tip.Some? ==> tip == env.remote)
    {
      Elapse();
      var reachable: bool := *;
      tip := if reachable then env.remote else None;
    }

    /** Once sent, a push may land at any later time. */
    method Push(t: Txn) returns (ok: bool)
      requires Inv() && txnFile == Some(t) && t.attempted && t.candidate.Some?
      modifies this`env
      ensures Inv() && txnFile == old(txnFile)
      ensures if head == t.local then EnvStep(old(env).(sent := old(env.sent) + {t.local.value}), env) else env == old(env) && !ok
    {
      if head != t.local { return false; }
      SendKeeps(t, mirrors, ledger, head, env, log);
      env := env.(sent := env.sent + {t.local.value});
      Elapse();
      ok := *;
    }

    method ConfirmOrPush(t: Txn) returns (ok: bool, u: Txn)
      requires Inv() && Holds(t) && t.candidate.Some? && t.accepted && !t.resetting
      modifies this`txnFile, this`env
      ensures Inv() && Holds(u) && (AllReady(t, log) ==> AllReady(u, log))
      ensures ok ==> txnFile == Some(u) && u == t.(attempted := true, confirmed := true)
    {
      u := t;
      if t.attempted {
        var tip := RemoteTip();
        if tip.Some? && InHistory(t.local.value, tip.value) {
          u := t.(confirmed := true);
          ConfirmGood(t, u, mirrors, ledger, env, log);
          ok := SaveTxn(u);
          return;
        }
      }
      u := t.(attempted := true);
      ConfirmGood(t, u, mirrors, ledger, env, log);
      ok := SaveTxn(u);
      if ok { ok, u := PushAndConfirm(u); }
    }

    /** The intent to push is saved; the tip seen afterwards says whether the push has landed. */
    method PushAndConfirm(t: Txn) returns (ok: bool, u: Txn)
      requires Inv() && txnFile == Some(t) && t.candidate.Some? && t.accepted && t.attempted && !t.resetting
      modifies this`txnFile, this`env
      ensures Inv() && Holds(u) && (u == t || u == t.(confirmed := true))
      ensures ok ==> txnFile == Some(u) && u == t.(confirmed := true)
    {
      u := t;
      ok := Push(t);
      if !ok { return; }
      var tip := RemoteTip();
      if tip != t.local { ok := false; return; }
      u := t.(confirmed := true);
      ConfirmGood(t, u, mirrors, ledger, env, log);
      ok := SaveTxn(u);
    }

    // ---- commit: metadata and the ledger ---------------------------------------------------

    /** The transaction is published and its staged metadata describes its commit. */
    ghost predicate Publishing(t: Txn)
      reads this
    {
      Holds(t) && t.candidate.Some? && t.confirmed && !t.resetting && t.metadata.Some?
    }

    method UploadMetadataParts(t: Txn, m: Name) returns (ok: bool, u: Txn, uncertain: set<Key>)
      requires Inv() && Publishing(t) && m in mirrors
      modifies this`txnFile, this`env, this`log
      ensures Inv() && Publishing(u) && SameBut(t, u) && ledger == old(ledger) && Learns(old(log), log)
      ensures MarksKept(t, u)
    {
      u, ok, uncertain := t, true, {};
      var parts := t.metadata.value.manifest.parts;
      while P(u, m).metaCursor < |parts|
        invariant Inv() && Publishing(u) && SameBut(t, u) && ledger == old(ledger) && Learns(old(log), log)
        invariant MarksKept(t, u)
        decreases |parts| - P(u, m).metaCursor
      {
        var i := P(u, m).metaCursor;
        var done, doubt;
        ok, done, doubt, u := UploadMetadataPart(t, u, m, i);
        if !done {
          if doubt { uncertain := {PartKey(parts[i])}; }
          return;
        }
        if !ok { return; }
      }
    }

    /** One metadata part: the cursor moves past it once the mirror acknowledged it. */
    method UploadMetadataPart(t: Txn, u: Txn, m: Name, i: nat) returns (ok: bool, done: bool, doubt: bool, w: Txn)
      requires Inv() && Publishing(u) && SameBut(t, u) && MarksKept(t, u) && m in mirrors
      requires t.metadata.Some? && i == P(u, m).metaCursor < |t.metadata.value.manifest.parts|
      modifies this`txnFile, this`env, this`log
      ensures Inv() && Publishing(w) && SameBut(t, w) && ledger == old(ledger) && Learns(old(log), log)
      ensures MarksKept(t, w) && (!done ==> ok && w == u)
      ensures done ==> P(w, m).metaCursor == i + 1
    {
      ok, w := true, u;
      done, doubt := Ensure(m, PartKey(t.metadata.value.manifest.parts[i]));
      if !done { return; }
      NextCursor(t, u, m, i);
      w := SetP(u, m, P(u, m).(metaCursor := i + 1));
      ok := SaveTxn(w);
    }

    lemma NextCursor(t: Txn, u: Txn, m: Name, i: nat)
      requires Publishing(u) && SameBut(t, u) && m in mirrors
      requires i == P(u, m).metaCursor < MetaCount(t)
      requires (m, PartKey(t.metadata.value.manifest.parts[i])) in log.seen && (m, PartKey(t.metadata.value.manifest.parts[i])) in log.recent
      ensures var w := SetP(u, m, P(u, m).(metaCursor := i + 1)); Publishing(w) && SameBut(t, w) && MarksKept(u, w)
    {
      ProgressHolds(u, m);
      SetHolds(t, u, m, P(u, m).(metaCursor := i + 1));
    }

    /** Parts first, then the completion manifest. */
    method UploadMetadataTo(t: Txn, m: Name) returns (ok: bool, u: Txn, uncertain: set<Key>)
      requires Inv() && Publishing(t) && m in mirrors
      modifies this`txnFile, this`env, this`log
      ensures Inv() && Publishing(u) && SameBut(t, u) && ledger == old(ledger) && Learns(old(log), log)
      ensures MarksKept(t, u)
    {
      ok, u, uncertain := UploadMetadataParts(t, m);
      if !ok || P(u, m).metaCursor != MetaCount(t) || P(u, m).manifest { return; }
      var done, doubt := Ensure(m, RepresentationKey(t.metadata.value));
      if done {
        ProgressHolds(u, m);
        SetHolds(t, u, m, P(u, m).(manifest := true));
        u := SetP(u, m, P(u, m).(manifest := true));
      } else if doubt {
        uncertain := uncertain + {RepresentationKey(t.metadata.value)};
      }
    }

    method SaveRow(t: Txn, l: Ledger, m: Name) returns (ok: bool)
      requires Inv() && Publishing(t) && m in mirrors && l == ledger && t.incident == l.incident
      requires AllReady(t, log) && P(t, m).dataComplete && P(t, m).manifest
      modifies this`ledger, this`log
      ensures Inv() && Forward() && Publishing(t) && AllReady(t, log)
      ensures ok ==> ledger == Verified(l, m, t.local.value) && log == old(log).(stale := MoreStale(old(log), t, m))
    {
      RowComplete(t, mirrors, ledger, env, log, m);
      ghost var before := log;
      ok := SaveLedger(Verified(l, m, t.local.value), MoreStale(log, t, m));
      ReadyStable(t, before, log);
    }

    /** A mirror with complete data and metadata gets its ledger row. */
    method RecordComplete(t: Txn, l: Ledger, m: Name) returns (ok: bool, u: Txn, k: Ledger)
      requires Inv() && Publishing(t) && m in mirrors && l == ledger && t.incident == l.incident
      requires AllReady(t, log) && P(t, m).dataComplete && P(t, m).manifest
      modifies this`txnFile, this`ledger, this`log
      ensures Inv() && Forward() && Publishing(u) && AllReady(u, log) && SameBut(t, u)
      ensures ok ==> k == ledger == Verified(l, m, t.local.value) && log == old(log).(stale := MoreStale(old(log), t, m))
    {
      u, k := t, Verified(l, m, t.local.value);
      ok := SaveRow(t, l, m);
      if !ok { return; }
      MarkComplete(t, m);
      u := SetP(t, m, P(t, m).(revisionComplete := true));
      ok := SaveTxn(u);
    }

    lemma MarkComplete(t: Txn, m: Name)
      requires Publishing(t) && AllReady(t, log) && m in mirrors && P(t, m).dataComplete && P(t, m).manifest
      ensures var u := SetP(t, m, P(t, m).(revisionComplete := true)); Publishing(u) && SameBut(t, u) && AllReady(u, log)
    {
      ProgressHolds(t, m);
      SetHolds(t, t, m, P(t, m).(revisionComplete := true));
      MarksReady(t, SetP(t, m, P(t, m).(revisionComplete := true)), log);
    }

    /** With `metadataOnly` the edge is preserved without claiming that the revision is complete. */
    method UploadMetadata(t: Txn, l: Ledger, metadataOnly: bool)
      returns (ok: bool, u: Txn, k: Ledger, uncertain: set<Key>)
      requires Inv() && Publishing(t) && l == ledger
      requires !metadataOnly ==> AllReady(t, log) && t.incident == l.incident
      modifies this`txnFile, this`env, this`ledger, this`log
      ensures Inv() && Forward() && Publishing(u) && SameBut(t, u)
      ensures ok ==> k == ledger && ledger.incident == l.incident && ledger.forwardRepair == l.forwardRepair
      ensures metadataOnly ==> ledger == l
    {
      ok, u, k, uncertain := true, t, l, {};
      for i := 0 to |mirrors|
        invariant Inv() && Forward() && Publishing(u) && SameBut(t, u) && k == ledger
        invariant k.incident == l.incident && k.forwardRepair == l.forwardRepair
        invariant if metadataOnly then k == l else AllReady(u, log)
      {
        var m := mirrors[i];
        var reachable: bool := *;
        if !reachable || (!metadataOnly && (P(u, m).revisionComplete || !P(u, m).dataComplete)) { continue; }
        ghost var before, was := log, u;
        var doubts;
        ok, u, doubts := UploadMetadataTo(u, m);
        uncertain := uncertain + doubts;
        if !metadataOnly {
          ReadyStable(was, before, log);
          MarksReady(was, u, log);
        }
        if !ok { return; }
        if P(u, m).manifest {
          if metadataOnly {
            ok := SaveTxn(u);
          } else {
            ok, u, k := RecordComplete(u, k, m);
          }
          if !ok { return; }
        }
      }
    }

    /** Fresh IDs for the parts whose upload was uncertain and which no mirror acknowledged. */
    method RotateParts(t: Txn, uncertain: set<Key>) returns (parts: seq<MetaPart>, changed: bool)
      requires t.metadata.Some?
      ensures |parts| == MetaCount(t) && PartsRotated(t, parts, uncertain, MetaCount(t))
      ensures changed <==> AnyRotates(t, uncertain, MetaCount(t))
    {
      parts, changed := t.metadata.value.manifest.parts, false;
      for i := 0 to |parts|
        invariant |parts| == MetaCount(t) && PartsRotated(t, parts, uncertain, i)
        invariant changed <==> AnyRotates(t, uncertain, i)
      {
        if !MetaPassed(t, i) && PartKey(parts[i]) in uncertain {
          assert Rotates(t, uncertain, i);
          var random: int := *;
          parts, changed := parts[i := parts[i].(id := if random < 0 then 0 else random)], true;
        }
      }
    }

    /** Gives fresh IDs to the uncertain objects that no mirror acknowledged. */
    method RotateMetadata(t: Txn, uncertain: set<Key>) returns (rotated: bool, u: Txn)
      requires Inv() && Publishing(t)
      modifies this`txnFile
      ensures Inv() && (txnFile == old(txnFile) || txnFile == Some(u)) && (rotated ==> txnFile == Some(u))
      ensures var due := !AnyComplete(t) && (AnyRotates(t, uncertain, MetaCount(t)) || ManifestRotates(t, uncertain));
              if due then MetadataRotated(t, u, uncertain) else !rotated && u == t && txnFile == old(txnFile)
    {
      rotated, u := false, t;
      if AnyComplete(t) || uncertain == {} { return; }
      var parts, changed := RotateParts(t, uncertain);
      var id := t.metadata.value.id;
      if !ManifestTaken(t) && (RepresentationKey(t.metadata.value) in uncertain || changed) {
        var random: int := *;
        id, changed := if random < 0 then 0 else random, true;
      }
      if !changed { return; }
      u := t.(metadata := Some(Staged(t.metadata.value.manifest.(parts := parts), id)),
              mirrors := map m | m in t.mirrors :: t.mirrors[m].(manifest := false, revisionComplete := false));
      assert MetadataRotated(t, u, uncertain);
      RotatedGood(t, u, mirrors, ledger, env, log);
      rotated := SaveTxn(u);
    }

    // ---- commit: the whole transaction -----------------------------------------------------

    method ClearTxn() returns (ok: bool)
      requires Inv()
      modifies this`txnFile
      ensures Inv() && (txnFile == old(txnFile) || txnFile.None?)
      ensures ok ==> txnFile.None?
    {
      ok := *;
      var durable: bool := *;
      if ok || durable { txnFile := None; }
    }

    /** A successful audit is fresh evidence whatever the ledger said before. */
    method RecordVerified(m: Name, c: Commit) returns (ok: bool)
      requires Inv() && Complete(log.seen, m, c) && Complete(log.recent, m, c)
      modifies this`ledger, this`log
      ensures Inv() && ledger.incident == old(ledger.incident)
      ensures (ledger == old(ledger) && log == old(log)) ||
              (ledger == Verified(old(ledger), m, c) && log == old(log).(stale := old(log.stale) - {m}))
      ensures ok ==> ledger == Verified(old(ledger), m, c) && log == old(log).(stale := old(log.stale) - {m})
      ensures forall t: Txn :: old(Holds(t)) ==> Holds(t)
    {
      VerifiedOk(ledger, log, m, c);
      ok := SaveLedger(Verified(ledger, m, c), log.stale - {m});
    }

    /** A revision is reported only when it is published and some mirror holds all of it. */
    ghost predicate Reported(r: Snapshot)
      reads this
    {
      r.Published? ==>
        && InRemote(r.commit, env.remote) && r.complete != {}
        && forall m | m in r.complete :: m in mirrors && m in ledger.mirrors && ledger.mirrors[m] == r.commit &&
             RowOk(log, m, r.commit)
    }

    method FinishSnapshot(t: Txn, l: Ledger) returns (r: Snapshot)
      requires Inv() && Holds(t) && t.local.Some? && l == ledger
      modifies this`txnFile, this`ledger, this`log
      ensures Inv() && Forward() && Reported(r)
      ensures r.Published? ==> r.commit == t.local.value
      ensures r.Published? && t.kind.Repair? ==> ledger.forwardRepair.None?
    {
      r := Stopped;
      var complete := set m | m in mirrors && l.Eligible(m, t.local);
      if complete == {} || !t.confirmed { return; }
      if t.kind.Repair? && l.forwardRepair.Some? {
        if !InHistory(l.forwardRepair.value, t.local.value) { return; }
        var ok := SaveLedger(l.(forwardRepair := None), log.stale);
        if !ok { return; }
      }
      var ok;
      if t.kind.Genesis? {
        ok := SaveTxn(NewTxn(Ordinary, t.local));
      } else {
        ok := ClearTxn();
      }
      if ok { r := Published(t.local.value, complete); }
    }

    /** Rechecks one mirror that the ledger already calls complete against the transaction's pin. */
    method FinishRecorded(t: Txn, l: Ledger) returns (decided: bool, r: Snapshot)
      requires Inv() && Holds(t) && t.local.Some? && !t.resetting && t.candidate.Some? && l == ledger
      modifies this`txnFile, this`env, this`ledger, this`log
      ensures Inv() && Forward() && Reported(r)
      ensures !decided ==> r.Stopped? && ledger == l && Holds(t) && log == old(log) && env == old(env) && txnFile == old(txnFile)
      ensures !decided ==> forall m | m in mirrors :: !l.Eligible(m, t.local)
    {
      decided, r := false, Stopped;
      for i := 0 to |mirrors|
        invariant Inv() && Forward() && Holds(t)
        invariant r.Stopped?
        invariant !decided ==> ledger == l && log == old(log) && env == old(env) && txnFile == old(txnFile)
        invariant !decided ==> forall k | 0 <= k < i :: !l.Eligible(mirrors[k], t.local)
      {
        var m := mirrors[i];
        if !l.Eligible(m, t.local) { continue; }
        decided := true;
        var audit := AuditMirror(m, t.local.value, t.local.value, Some(t));
        if audit.Broken? { return; }
        if audit.Pass? {
          r := FinishAudited(t, m);
          return;
        }
      }
    }

    method FinishAudited(t: Txn, m: Name) returns (r: Snapshot)
      requires Inv() && Holds(t) && t.local.Some? && !t.resetting && t.candidate.Some?
      requires Complete(log.seen, m, t.local.value) && Complete(log.recent, m, t.local.value)
      modifies this`txnFile, this`env, this`ledger, this`log
      ensures Inv() && Forward() && Reported(r)
    {
      r := Stopped;
      var u := t;
      if !t.confirmed {
        if !t.accepted { return; }
        var ok;
        ok, u := ConfirmOrPush(t);
        if !ok { return; }
      }
      var ok := RecordVerified(m, t.local.value);
      if ok { r := FinishSnapshot(u, ledger); }
    }

    method CommitTransaction(t: Txn) returns (r: Snapshot)
      requires Inv() && txnFile == Some(t)
      modifies this`txnFile, this`env, this`ledger, this`log, this`head
      ensures Inv() && Forward() && Reported(r)
    {
      r := Stopped;
      if t.resetting || t.candidate.None? || !StagedDataOk(t) || !StagedMetadataOk(t) { return; }
      var l := ledger;
      if !BackupEligible(t, l, mirrors) { return; }
      if t.local.Some? {
        var decided;
        decided, r := FinishRecorded(t, l);
        if decided { return; }
      }
      var ok, u := PrepareCandidate(t, l);
      if !ok { return; }
      r := PublishCandidate(u, l);
    }

    lemma ClaimsReady(t: Txn, u: Txn, l: Ledger)
      requires Inv() && Holds(u) && SameBut(t, u) && l == ledger && StagedDataOk(u)
      requires !u.kind.Repair? && u.incident == l.incident
      requires forall m | m in u.mirrors && u.mirrors[m].dataComplete :: DataClaim(t, l, m)
      ensures AllReady(u, log)
    {
      forall m | m in u.mirrors && u.mirrors[m].dataComplete ensures Ready(u, log, m) {
        assert DataClaim(u, l, m);
        ClaimReady(u, mirrors, ledger, env, log, m);
      }
    }

    /** The part of a commit that ends with some mirror holding the candidate's data. */
    method PrepareCandidate(t: Txn, l: Ledger) returns (ok: bool, u: Txn)
      requires Inv() && Holds(t) && t.candidate.Some? && !t.resetting && l == ledger
      requires StagedDataOk(t)
      modifies this`txnFile, this`env, this`ledger, this`log
      ensures Inv() && Forward()
      ensures ok ==> Holds(u) && u.candidate.Some? && !u.resetting && ledger == l && u.incident == l.incident
      ensures ok ==> AllReady(u, log)
    {
      ok := true;
      u := Remark(t, l);
      if t.local.None? {
        ok, u := UploadDataParts(u, l);
        if !ok { return; }
      }
      if u.kind.Repair? || u.incident != l.incident {
        ghost var passed;
        ok, u, passed := RevalidateCandidate(u, l);
      } else {
        ClaimsReady(t, u, l);
      }
    }

    /** Local commit, local branch, staged bundle, confirmed push: each step once, in order. */
    method PublishRevision(t: Txn) returns (ok: bool, u: Txn)
      requires Inv() && Holds(t) && t.candidate.Some? && !t.resetting && AllReady(t, log)
      modifies this`txnFile, this`env, this`head
      ensures Inv()
      ensures ok ==> Publishing(u) && AllReady(u, log) && u.incident == t.incident
    {
      ok, u := true, t;
      if u.local.None? {
        ok, u := RecordLocalCommit(u);
        if !ok { return; }
      }
      if !u.accepted {
        ok, u := AcceptLocally(u);
        if !ok { return; }
      }
      if u.metadata.None? {
        ok, u := StageMetadata(u);
        if !ok { return; }
      }
      if !u.confirmed { ok, u := ConfirmOrPush(u); }
    }

    /** The part of a commit after a mirror holds the candidate's data. */
    method PublishCandidate(t: Txn, l: Ledger) returns (r: Snapshot)
      requires Inv() && Holds(t) && t.candidate.Some? && !t.resetting && l == ledger && t.incident == l.incident
      requires AllReady(t, log)
      modifies this`txnFile, this`env, this`ledger, this`log, this`head
      ensures Inv() && Forward() && Reported(r)
    {
      r := Stopped;
      var ok, u := PublishRevision(t);
      if !ok { return; }
      var k, uncertain;
      ok, u, k, uncertain := UploadMetadata(u, l, false);
      if !ok { return; }
      if !exists m | m in u.mirrors :: u.mirrors[m].revisionComplete {
        var rotated, moved := RotateMetadata(u, uncertain);
        return;
      }
      r := FinishSnapshot(u, k);
    }
  }
}
