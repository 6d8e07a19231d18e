/** The updates the program makes to its durable records, and that each keeps the invariant. */
module Records {
  import opened Model
  import opened Ancestry
  import opened Evidence
  import opened Stability

  datatype Failure = Corrupt | Missing | Unavailable

  /** The marks a mirror starts a commit with. */
  function Remarked(t: Txn, l: Ledger, m: Name): Progress {
    var p := P(t, m).(revisionComplete := false);
    var q := if t.incident != l.incident then p.(metaCursor := 0, manifest := false) else p;
    if !((t.base.None? && m !in l.quarantined) || l.Eligible(m, t.base)) then q.(dataComplete := false)
    else if t.capture.Some? then q.(dataComplete := m in t.capture.value.mirrors)
    else if t.parts == [] then q.(dataComplete := true)
    else q
  }

  function MarkedData(t: Txn, l: Ledger, m: Name): Progress {
    var eligible := (t.base.None? && m !in l.quarantined) || l.Eligible(m, t.base);
    var p := P(t, m);
    var complete := eligible && (if t.capture.Some? then m in t.capture.value.mirrors else p.dataCursor == |t.parts|);
    p.(dataComplete := complete)
  }

  predicate MetadataUnclaimed(p: Progress) {
    p.metaCursor == 0 && !p.manifest
  }

  /** The mirrors that revalidation leaves in the capture set although they did not pass. */
  function Unaudited(t: Txn, passed: set<Name>): set<Name> {
    if t.capture.Some? then t.capture.value.mirrors - passed else {}
  }

  function RevalidatedProgress(t: Txn, m: Name, passed: set<Name>): Progress {
    var p := P(t, m).(revisionComplete := false);
    if m in passed then p.(dataComplete := true, dataCursor := |t.parts|) else p.(dataComplete := false)
  }

  /** The record that revalidation saves: note that the capture set only grows. */
  function Revalidated(t: Txn, l: Ledger, mirrors: seq<Name>, passed: set<Name>): Txn {
    t.(incident := l.incident,
       capture := if t.capture.None? then None
                  else Some(t.capture.value.(mirrors := t.capture.value.mirrors + passed)),
       mirrors := map m | m in mirrors :: RevalidatedProgress(t, m, passed))
  }

  lemma ReadyOnMonotone(f: Facts, f': Facts, t: Txn, m: Name)
    requires f <= f' && ReadyOn(f, t, m)
    ensures ReadyOn(f', t, m)
  {
    if t.base.Some? { ChainMonotone(f, f', m, t.base.value); }
  }

  lemma RevalidatedGood(t: Txn, mirrors: seq<Name>, l: Ledger, e: Env, g: Log, passed: set<Name>)
    requires Good(t, mirrors, l, e, g) && t.candidate.Some? && StagedDataOk(t) && t.base.Some?
    requires t.incident != l.incident ==> forall m | m in t.mirrors :: MetadataUnclaimed(t.mirrors[m])
    requires forall m | m in passed :: m in mirrors && ReadyOn(g.seen, t, m) && ReadyOn(g.recent, t, m)
    ensures var u, h := Revalidated(t, l, mirrors, passed), g.(kept := Unaudited(t, passed));
            Good(u, mirrors, l, e, h) && AllReady(u, h)
  {
    var u, h := Revalidated(t, l, mirrors, passed), g.(kept := Unaudited(t, passed));
    RevalidatedCapture(g.seen, t, passed);
    RevalidatedCapture(g.recent, t, passed);
    if t.capture.Some? {
      forall m | m in u.capture.value.mirrors && m !in passed ensures PartsCaptured(g.seen, u.capture.value, m) {
        assert PartsCaptured(g.seen, t.capture.value, m);
      }
    }
    forall m | m in u.mirrors ensures ProgressOk(u, l, h, m, u.mirrors[m]) {
      RevalidatedProgressOk(t, mirrors, l, g, passed, m);
    }
    forall m | m in u.mirrors && u.mirrors[m].dataComplete ensures Ready(u, h, m) {
      assert m in passed;
    }
  }

  /** Captured parts are part of the candidate, so a passing audit covers them. */
  lemma RevalidatedCapture(f: Facts, t: Txn, passed: set<Name>)
    requires ValidCore(t) && t.candidate.Some? && StagedDataOk(t) && t.base.Some?
    requires forall m | m in passed :: ReadyOn(f, t, m)
    ensures t.capture.Some? ==> forall m | m in passed :: PartsCaptured(f, t.capture.value, m)
  {
    if t.capture.Some? {
      var parts, packs := t.capture.value.parts, t.candidate.value.packs;
      forall m, x | m in passed && x in parts ensures (m, DataKey(x.hash, parts[x])) in f {
        assert x in packs && packs[x] == parts[x];
        assert (m, PackKey(t.candidate.value, x)) in f;
      }
    }
  }

  lemma RevalidatedProgressOk(t: Txn, mirrors: seq<Name>, l: Ledger, g: Log, passed: set<Name>, m: Name)
    requires ValidCore(t) && t.candidate.Some? && t.incident <= l.incident && m in mirrors
    requires m in t.mirrors ==> ProgressOk(t, l, g, m, t.mirrors[m])
    requires t.incident != l.incident && m in t.mirrors ==> MetadataUnclaimed(t.mirrors[m])
    requires m in passed ==> ReadyOn(g.seen, t, m)
    ensures var u := Revalidated(t, l, mirrors, passed); ProgressOk(u, l, g, m, u.mirrors[m])
  {
    var u := Revalidated(t, l, mirrors, passed);
    if m in passed {
      forall i | 0 <= i < |t.parts| ensures (m, StagedKey(t.parts[i])) in g.seen {
        assert (m, PackKey(t.candidate.value, t.parts[i].slot)) in g.seen;
      }
    }
  }

  function Created(e: Env, x: Commit): Env {
    e.(created := e.created + {x}, clock := e.clock + 1)
  }

  lemma CreateEnv(head: Option<Commit>, e: Env, g: Log, x: Commit)
    requires EnvOk(head, e, g) && x.stamp == e.clock && (x.parent.Some? ==> Older(x.parent.value, e.clock))
    ensures EnvOk(head, Created(e, x), g)
  {
    EnvStable(head, e, e.(clock := e.clock + 1), g);
    if x.parent.Some? { OlderMonotone(x.parent.value, e.clock, e.clock + 1); }
  }

  lemma CreateKeeps(t: Txn, mirrors: seq<Name>, l: Ledger, head: Option<Commit>, e: Env, g: Log, x: Commit)
    requires Good(t, mirrors, l, e, g) && EnvOk(head, e, g)
    ensures Good(t, mirrors, l, Created(e, x), g)
  {
    GoodStable(t, mirrors, l, e, e.(clock := e.clock + 1), g, g);
    assert PublicationOk(t, Created(e, x));
  }

  /** A new commit is in nobody's history yet. */
  lemma CreatePrivate(e: Env, head: Option<Commit>, g: Log, x: Commit)
    requires EnvOk(head, e, g) && x.stamp == e.clock
    ensures Private(x, e)
  {
    if e.remote.Some? { OlderExcludes(x, e.remote.value, e.clock); }
    forall p | p in e.sent ensures !InHistory(x, p) { OlderExcludes(x, p, e.clock); }
  }

  lemma LocalGood(t: Txn, mirrors: seq<Name>, l: Ledger, head: Option<Commit>, e: Env, g: Log, x: Commit)
    requires Good(t, mirrors, l, e, g) && EnvOk(head, e, g) && t.local.None? && !t.resetting
    requires x == Commit(t.base, x.state, e.clock) && t.candidate == Some(x.state)
    ensures Good(t.(local := Some(x)), mirrors, l, Created(e, x), g)
  {
    var u, f := t.(local := Some(x)), Created(e, x);
    CreateKeeps(t, mirrors, l, head, e, g, x);
    CreatePrivate(e, head, g, x);
    if x.parent.Some? { OlderMonotone(x.parent.value, e.clock, f.clock); }
    forall y | y in g.abandoned ensures NotBuiltOn(y, u.local, f) { assert y.stamp < e.clock; }
    forall m | m in u.mirrors ensures m in mirrors && ProgressOk(u, l, g, m, u.mirrors[m]) {
      assert ProgressOk(t, l, g, m, t.mirrors[m]);
    }
  }

  lemma StagedGood(t: Txn, u: Txn, mirrors: seq<Name>, l: Ledger, e: Env, g: Log)
    requires Good(t, mirrors, l, e, g) && t.metadata.None? && t.local.Some?
    requires u == t.(metadata := u.metadata) && u.metadata.Some?
    requires Describes(u.metadata.value.manifest, t.local.value) && u.metadata.value.manifest.parts != []
    ensures Good(u, mirrors, l, e, g)
  {
    forall m | m in u.mirrors ensures ProgressOk(u, l, g, m, u.mirrors[m]) {
      assert ProgressOk(t, l, g, m, t.mirrors[m]);
    }
  }

  lemma ConfirmGood(t: Txn, u: Txn, mirrors: seq<Name>, l: Ledger, e: Env, g: Log)
    requires Good(t, mirrors, l, e, g) && t.accepted && !t.resetting && t.candidate.Some?
    requires u == t.(attempted := true, confirmed := u.confirmed) && (t.confirmed ==> u.confirmed)
    requires u.confirmed ==> InRemote(t.local.value, e.remote)
    ensures Good(u, mirrors, l, e, g)
  {
    forall m | m in u.mirrors ensures ProgressOk(u, l, g, m, u.mirrors[m]) {
      assert ProgressOk(t, l, g, m, t.mirrors[m]);
    }
  }

  /** Sending the transaction's commit endangers neither it nor an abandoned one. */
  lemma SendKeeps(t: Txn, mirrors: seq<Name>, l: Ledger, head: Option<Commit>, e: Env, g: Log)
    requires Good(t, mirrors, l, e, g) && EnvOk(head, e, g) && t.attempted && t.candidate.Some?
    ensures var f := e.(sent := e.sent + {t.local.value});
            Good(t, mirrors, l, f, g) && EnvOk(head, f, g)
  {
    var f := e.(sent := e.sent + {t.local.value});
    forall x | x in g.abandoned ensures Excluded(x, f) { ExcludedAfterSend(x, t.local.value, e); }
    forall m | m in t.mirrors ensures m in mirrors && ProgressOk(t, l, g, m, t.mirrors[m]) {}
  }

  /** Nobody's data mark changed. */
  ghost predicate MarksKept(t: Txn, u: Txn) {
    forall m: Name :: P(u, m).dataComplete == P(t, m).dataComplete
  }

  lemma MarksReady(t: Txn, u: Txn, g: Log)
    requires AllReady(t, g) && u == t.(mirrors := u.mirrors) && MarksKept(t, u)
    ensures AllReady(u, g)
  {
    forall m | m in u.mirrors && u.mirrors[m].dataComplete ensures Ready(u, g, m) {
      assert P(u, m).dataComplete;
      assert Ready(t, g, m);
    }
  }

  /** The ledger with a new row for `m`, which lifts its quarantine. */
  function Verified(l: Ledger, m: Name, c: Commit): Ledger {
    l.(quarantined := l.quarantined - {m}, mirrors := l.mirrors[m := c])
  }

  /** The stale mirrors once a commit wrote the row of `m`. */
  function MoreStale(g: Log, t: Txn, m: Name): set<Name> {
    if AddsParts(t) then g.stale + g.kept * {m} else g.stale
  }

  lemma VerifiedOk(l: Ledger, g: Log, m: Name, c: Commit)
    requires LedgerOk(l, g) && Complete(g.seen, m, c) && Complete(g.recent, m, c)
    ensures LedgerOk(Verified(l, m, c), g.(stale := g.stale - {m}))
  {
    forall n | n in l.mirrors && n != m ensures RowOk(g.(stale := g.stale - {m}), n, l.mirrors[n]) {
      assert RowOk(g, n, l.mirrors[n]);
    }
  }

  lemma RowComplete(t: Txn, mirrors: seq<Name>, l: Ledger, e: Env, g: Log, m: Name)
    requires Good(t, mirrors, l, e, g) && LedgerOk(l, g) && t.candidate.Some? && t.incident == l.incident
    requires t.metadata.Some? && Describes(t.metadata.value.manifest, t.local.value)
    requires AllReady(t, g) && P(t, m).dataComplete && P(t, m).manifest
    ensures LedgerOk(Verified(l, m, t.local.value), g.(stale := MoreStale(g, t, m)))
  {
    assert ProgressOk(t, l, g, m, t.mirrors[m]) && Ready(t, g, m);
    ReadyComplete(g.seen, t, m);
    if Fresh(g, t, m) { ReadyComplete(g.recent, t, m); }
    var k, h := Verified(l, m, t.local.value), g.(stale := MoreStale(g, t, m));
    forall n | n in k.mirrors ensures RowOk(h, n, k.mirrors[n]) {
      if n != m { assert RowOk(g, n, l.mirrors[n]); }
    }
  }

  lemma RotatedGood(t: Txn, u: Txn, mirrors: seq<Name>, l: Ledger, e: Env, g: Log)
    requires Good(t, mirrors, l, e, g) && t.metadata.Some?
    requires exists uncertain: set<Key> :: MetadataRotated(t, u, uncertain)
    ensures Good(u, mirrors, l, e, g)
  {
    forall m | m in u.mirrors ensures m in mirrors && ProgressOk(u, l, g, m, u.mirrors[m]) {
      assert ProgressOk(t, l, g, m, t.mirrors[m]);
      var p := t.mirrors[m];
      forall i | 0 <= i < p.metaCursor
        ensures u.metadata.value.manifest.parts[i] == t.metadata.value.manifest.parts[i]
      {
        assert MetaPassed(t, i);
      }
    }
  }

  /** Ordinary backups pause while no mirror is durably known complete. */
  predicate BackupEligible(t: Txn, l: Ledger, mirrors: seq<Name>) {
    t.kind.Repair? || (t.kind.Genesis? && l.incident == 0) ||
    (l.forwardRepair.None? && exists m | m in mirrors :: l.Eligible(m, t.base) || l.Eligible(m, t.local))
  }

  /** The transaction of the branch head records that `m` took its data. */
  predicate DataAcknowledged(file: Option<Txn>, head: Commit, m: Name) {
    && file.Some? && file.value.local == Some(head)
    && (P(file.value, m).dataComplete || (file.value.capture.Some? && m in file.value.capture.value.mirrors))
  }

  predicate RowHasObject(l: Ledger, head: Commit, m: Name, k: Key) {
    m in l.mirrors && InHistory(l.mirrors[m], head) && HasObject(l.mirrors[m].state, k)
  }

  /** A failure counts against `m` only where it is conclusive and the current revision needs the
      object, and absence only where `m` is known to have held it. */
  predicate DataIncident(file: Option<Txn>, head: Option<Commit>, l: Ledger, m: Name, k: Key, f: Failure) {
    && !f.Unavailable? && head.Some? && HasObject(head.value.state, k)
    && (f.Missing? ==> DataAcknowledged(file, head.value, m) || RowHasObject(l, head.value, m, k))
  }

  /** The pinned representation of the pending commit was acknowledged by `m`. */
  predicate PinnedEdge(pending: Option<Txn>, m: Name, c: Commit) {
    && pending.Some? && pending.value.local == Some(c) && pending.value.metadata.Some? && P(pending.value, m).manifest
  }

  /** The part `i` moved to a new object ID, in the candidate too, and nothing else did. */
  predicate PartRotated(t: Txn, u: Txn, i: nat)
    requires t.candidate.Some? && i < |t.parts| && |u.parts| == |t.parts|
  {
    && u.parts[i].slot == t.parts[i].slot
    && u == t.(parts := t.parts[i := u.parts[i]],
               candidate := Some(t.candidate.value.(packs := t.candidate.value.packs[t.parts[i].slot := u.parts[i].id])),
               mirrors := map m | m in t.mirrors :: t.mirrors[m].(dataComplete := false))
  }

  predicate Passed(t: Txn, i: nat) {
    exists m | m in t.mirrors :: t.mirrors[m].dataCursor > i
  }

  predicate MetaPassed(t: Txn, i: nat) {
    exists m | m in t.mirrors :: t.mirrors[m].metaCursor > i
  }

  /** Among the first `n` parts, IDs change only where the upload was uncertain and no mirror acknowledged the part. */
  predicate PartsRotated(t: Txn, parts: seq<MetaPart>, uncertain: set<Key>, n: nat)
    requires t.metadata.Some? && n <= MetaCount(t) == |parts|
  {
    var was := t.metadata.value.manifest.parts;
    && (forall j | 0 <= j < |parts| :: parts[j].hash == was[j].hash)
    && (forall j | 0 <= j < |parts| && parts[j] != was[j] :: Rotates(t, uncertain, j))
    && forall j | n <= j < |parts| :: parts[j] == was[j]
  }

  predicate Rotates(t: Txn, uncertain: set<Key>, j: nat)
    requires t.metadata.Some? && j < MetaCount(t)
  {
    !MetaPassed(t, j) && PartKey(t.metadata.value.manifest.parts[j]) in uncertain
  }

  predicate AnyRotates(t: Txn, uncertain: set<Key>, n: nat)
    requires t.metadata.Some? && n <= MetaCount(t)
  {
    exists j | 0 <= j < n :: Rotates(t, uncertain, j)
  }

  predicate ManifestTaken(t: Txn) {
    exists m | m in t.mirrors :: t.mirrors[m].manifest
  }

  predicate AnyComplete(t: Txn) {
    exists m | m in t.mirrors :: t.mirrors[m].revisionComplete
  }

  /** The manifest moves with its parts, or alone if it is the uncertain object. */
  predicate ManifestRotates(t: Txn, uncertain: set<Key>)
    requires t.metadata.Some?
  {
    !ManifestTaken(t) && (RepresentationKey(t.metadata.value) in uncertain || AnyRotates(t, uncertain, MetaCount(t)))
  }

  /** The staged metadata under new IDs: claims on the manifest are withdrawn, cursors stay. */
  predicate MetadataRotated(t: Txn, u: Txn, uncertain: set<Key>)
    requires t.metadata.Some?
  {
    && u.metadata.Some? && |u.metadata.value.manifest.parts| == MetaCount(t)
    && PartsRotated(t, u.metadata.value.manifest.parts, uncertain, MetaCount(t))
    && (u.metadata.value.id != t.metadata.value.id ==> ManifestRotates(t, uncertain))
    && u == t.(metadata := Some(Staged(t.metadata.value.manifest.(parts := u.metadata.value.manifest.parts), u.metadata.value.id)),
               mirrors := map m | m in t.mirrors :: t.mirrors[m].(manifest := false, revisionComplete := false))
  }

  lemma EdgeMonotone(f: Facts, f': Facts, m: Name, c: Commit)
    requires f <= f' && EdgeHeld(f, m, c)
    ensures EdgeHeld(f', m, c)
  {
    var s: Staged :| Describes(s.manifest, c) && RepresentationHeld(f, m, s);
    assert RepresentationHeld(f', m, s);
  }
}
