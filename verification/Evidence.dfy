/** What positive evidence about a mirror means, and the invariant of the durable state. */
module Evidence {
  import opened Model
  import opened Ancestry

  /** Which mirror was seen to hold which object: an acknowledged create or a passing audit. */
  type Facts = set<(Name, Key)>

  predicate DataHeld(f: Facts, m: Name, s: State) {
    forall x | x in s.packs :: (m, PackKey(s, x)) in f
  }

  predicate PartsHeld(f: Facts, m: Name, parts: seq<MetaPart>, n: nat)
    requires n <= |parts|
  {
    forall i | 0 <= i < n :: (m, PartKey(parts[i])) in f
  }

  /** The identity checks of the chain audit: sequence, tip and base. */
  predicate Describes(man: Manifest, c: Commit) {
    man.tip == c && man.base == c.parent && man.sequence == Depth(c)
  }

  predicate RepresentationHeld(f: Facts, m: Name, s: Staged) {
    (m, RepresentationKey(s)) in f && PartsHeld(f, m, s.manifest.parts, |s.manifest.parts|)
  }

  ghost predicate EdgeHeld(f: Facts, m: Name, c: Commit) {
    exists s: Staged :: Describes(s.manifest, c) && RepresentationHeld(f, m, s)
  }

  /** An audit-acceptable metadata edge for every commit from genesis to `c`. */
  ghost predicate ChainHeld(f: Facts, m: Name, c: Commit)
    decreases c
  {
    EdgeHeld(f, m, c) && (c.parent.Some? ==> ChainHeld(f, m, c.parent.value))
  }

  ghost predicate BaseHeld(f: Facts, m: Name, base: Option<Commit>) {
    base.Some? ==> ChainHeld(f, m, base.value)
  }

  /** The mirror holds the whole revision: current data and full metadata chain. */
  ghost predicate Complete(f: Facts, m: Name, c: Commit) {
    DataHeld(f, m, c.state) && ChainHeld(f, m, c)
  }

  lemma {:induction false} ChainMonotone(f: Facts, f': Facts, m: Name, c: Commit)
    requires f <= f' && ChainHeld(f, m, c)
    ensures ChainHeld(f', m, c)
    decreases c
  {
    var s: Staged :| Describes(s.manifest, c) && RepresentationHeld(f, m, s);
    assert RepresentationHeld(f', m, s);
    if c.parent.Some? { ChainMonotone(f, f', m, c.parent.value); }
  }

  lemma CompleteMonotone(f: Facts, f': Facts, m: Name, c: Commit)
    requires f <= f' && Complete(f, m, c)
    ensures Complete(f', m, c)
  {
    ChainMonotone(f, f', m, c);
  }

  ghost predicate EdgesHeld(f: Facts, m: Name, h: seq<Commit>) {
    forall i | 0 <= i < |h| :: EdgeHeld(f, m, h[i])
  }

  lemma EdgesExtend(f: Facts, m: Name, h: seq<Commit>, c: Commit)
    ensures EdgesHeld(f, m, h + [c]) <==> EdgesHeld(f, m, h) && EdgeHeld(f, m, c)
  {
    var k := h + [c];
    if EdgesHeld(f, m, k) {
      assert k[|h|] == c;
      forall i | 0 <= i < |h| ensures EdgeHeld(f, m, h[i]) { assert k[i] == h[i]; }
    }
  }

  /** A chain audit walks the history index by index; this is exactly what it decides. */
  lemma {:induction false} ChainFromEdges(f: Facts, m: Name, c: Commit)
    ensures ChainHeld(f, m, c) <==> EdgesHeld(f, m, History(c))
    decreases c
  {
    if c.parent.Some? {
      ChainFromEdges(f, m, c.parent.value);
      EdgesExtend(f, m, History(c.parent.value), c);
    } else {
      EdgesExtend(f, m, [], c);
      assert [] + [c] == History(c);
    }
  }

  /** The remote branch, the object stores and the clock: what other parties may change. */
  datatype Env = Env(
    remote: Option<Commit>, clock: nat, sent: set<Commit>, created: set<Commit>,
    held: Facts, lost: bool)

  /** Ghost history: facts ever observed, facts observed since the last incident, and commits abandoned
      by a finished reset. `kept` are the mirrors that the revalidation recorded in the transaction left
      in its capture set although they did not pass; `stale` are those whose ledger row was written on
      the strength of that set, or on top of such a row. */
  datatype Log = Log(seen: Facts, recent: Facts, abandoned: set<Commit>, kept: set<Name>, stale: set<Name>)

  predicate Sendable(x: Commit, e: Env) {
    InRemote(x, e.remote) || exists p | p in e.sent :: InHistory(x, p)
  }

  /** Other parties may fast-forward the branch (a late push included) but only to commits that left
      this machine; they may add objects, and losing one sets `lost`. */
  predicate EnvStep(a: Env, b: Env) {
    && b.sent == a.sent && b.created == a.created && a.clock <= b.clock
    && (a.lost ==> b.lost) && (b.lost || a.held <= b.held)
    && (b.remote == a.remote ||
        (&& b.remote.Some? && Older(b.remote.value, b.clock)
         && (a.remote.Some? ==> InHistory(a.remote.value, b.remote.value))
         && forall x | x in a.created && InHistory(x, b.remote.value) :: Sendable(x, a)))
  }

  /** `x` is not published and cannot become so. */
  predicate Excluded(x: Commit, e: Env) {
    && !InRemote(x, e.remote)
    && (Blocked(x, e.remote) || forall p | p in e.sent :: !InHistory(x, p))
  }

  lemma ExcludedStable(x: Commit, a: Env, b: Env)
    requires EnvStep(a, b) && x in a.created && Excluded(x, a)
    ensures Excluded(x, b)
    ensures Blocked(x, a.remote) ==> Blocked(x, b.remote)
  {
    if b.remote != a.remote && Blocked(x, a.remote) {
      BlockedStable(x, a.remote.value, b.remote.value);
    }
  }

  /** Sending a commit that does not build on `x` keeps `x` out. */
  lemma ExcludedAfterSend(x: Commit, p: Commit, e: Env)
    requires Excluded(x, e) && (Blocked(x, e.remote) || !InHistory(x, p))
    ensures Excluded(x, e.(sent := e.sent + {p}))
  {}

  predicate Private(x: Commit, e: Env) {
    !InRemote(x, e.remote) && forall p | p in e.sent :: !InHistory(x, p)
  }

  // ---- the transaction record -------------------------------------------------------------

  function MetaCount(t: Txn): nat {
    if t.metadata.Some? then |t.metadata.value.manifest.parts| else 0
  }

  /** The per-mirror rules of the durable record's validator. */
  predicate ValidProgress(t: Txn, m: Name, p: Progress) {
    && p.dataCursor <= |t.parts| && p.metaCursor <= MetaCount(t)
    && (p.dataComplete ==>
          if t.capture.Some? then m in t.capture.value.mirrors else p.dataCursor == |t.parts|)
    && (p.revisionComplete || p.metaCursor != 0 || p.manifest ==> t.metadata.Some? && t.confirmed)
    && (p.manifest ==> p.metaCursor == MetaCount(t))
    && (p.revisionComplete ==> p.dataComplete && p.manifest)
  }

  /** The rules that do not mention mirrors. */
  predicate ValidCore(t: Txn) {
    && (t.kind.Genesis? <==> t.base.None?)
    && (t.candidate.None? ==>
          && t.kind.Ordinary? && t.parts == [] && t.local.None? && !t.accepted && t.metadata.None?
          && !t.attempted && !t.confirmed && t.mirrors == map[])
    && (t.candidate.Some? ==>
          && (t.capture.Some? ==>
                t.kind.Ordinary? && t.capture.value.complete && t.capture.value.mirrors != {} && t.parts == [])
          && (t.kind.Repair? <==> t.parts != [])
          && (t.accepted || t.metadata.Some? ==> t.local.Some?)
          && (t.attempted ==> t.accepted) && (t.confirmed ==> t.attempted)
          && (t.metadata.Some? ==>
                t.metadata.value.manifest.tip == t.local.value && t.metadata.value.manifest.parts != [])
          && (forall i | 0 <= i < |t.parts| ::
                t.parts[i].slot in t.candidate.value.packs &&
                t.candidate.value.packs[t.parts[i].slot] == t.parts[i].id)
          && forall i, j | 0 <= i < j < |t.parts| :: t.parts[i].slot != t.parts[j].slot)
  }

  /** The validator that every save runs. */
  predicate ValidTxn(t: Txn, mirrors: seq<Name>) {
    ValidCore(t) && forall m | m in t.mirrors :: m in mirrors && ValidProgress(t, m, t.mirrors[m])
  }

  /** A cursor past `i` means that the mirror has part `i` under the object ID now on record. */
  predicate CursorHeld(f: Facts, t: Txn, m: Name, p: Progress) {
    && (forall i | 0 <= i < p.dataCursor && i < |t.parts| :: (m, StagedKey(t.parts[i])) in f)
    && MetaHeld(f, t, m, p)
  }

  predicate MetaHeld(f: Facts, t: Txn, m: Name, p: Progress) {
    t.metadata.Some? ==>
      && (p.metaCursor <= MetaCount(t) ==> PartsHeld(f, m, t.metadata.value.manifest.parts, p.metaCursor))
      && (p.manifest ==> (m, RepresentationKey(t.metadata.value)) in f)
  }

  predicate PartsCaptured(f: Facts, c: Capture, m: Name) {
    forall x | x in c.parts :: (m, DataKey(x.hash, c.parts[x])) in f
  }

  /** Every mirror of the capture set, but for `except`, holds every captured part. */
  predicate CaptureHeld(f: Facts, t: Txn, except: set<Name>) {
    t.capture.Some? ==>
      forall m | m in t.capture.value.mirrors && m !in except :: PartsCaptured(f, t.capture.value, m)
  }

  /** Mirrors are kept unaudited only by a revalidation under the current incident. */
  predicate KeptOk(t: Txn, l: Ledger, g: Log) {
    t.capture.Some? && g.kept != {} ==>
      t.incident == l.incident && t.candidate.Some? && g.kept <= t.capture.value.mirrors
  }

  predicate ProgressOk(t: Txn, l: Ledger, g: Log, m: Name, p: Progress) {
    && ValidProgress(t, m, p) && CursorHeld(g.seen, t, m, p)
    && (t.incident == l.incident ==> MetaHeld(g.recent, t, m, p))
  }

  /** Where the transaction stands with respect to the remote branch. */
  predicate PublicationOk(t: Txn, e: Env) {
    && (t.base.Some? ==> Older(t.base.value, e.clock))
    && (t.resetting ==> !t.attempted)
    && (t.local.Some? ==>
          var x := t.local.value;
          && x.parent == t.base && t.candidate == Some(x.state) && x in e.created && Older(x, e.clock)
          && (!t.attempted ==> t.resetting || Private(x, e))
          && (t.resetting ==> Excluded(x, e))
          && (t.confirmed ==> InRemote(x, e.remote)))
  }

  /** An abandoned commit that could still fast-forward the remote is not built upon. */
  predicate NotBuiltOn(x: Commit, c: Option<Commit>, e: Env) {
    Blocked(x, e.remote) || Avoids(c, x)
  }

  predicate StagedMetadataOk(t: Txn) {
    t.metadata.Some? ==> t.local.Some? && Describes(t.metadata.value.manifest, t.local.value)
  }

  predicate Good(t: Txn, mirrors: seq<Name>, l: Ledger, e: Env, g: Log) {
    && ValidCore(t) && t.incident <= l.incident && StagedMetadataOk(t)
    && (t.capture.Some? ==> forall m | m in t.capture.value.mirrors :: m in mirrors)
    && (forall m | m in t.mirrors :: m in mirrors && ProgressOk(t, l, g, m, t.mirrors[m]))
    && CaptureHeld(g.seen, t, {}) && KeptOk(t, l, g)
    && (t.incident == l.incident ==> CaptureHeld(g.recent, t, g.kept))
    && PublicationOk(t, e)
    && forall x | x in g.abandoned :: NotBuiltOn(x, t.base, e) && NotBuiltOn(x, t.local, e)
  }

  /** The ledger: rows and quarantine are disjoint, and every row but the stale ones rests on evidence
      obtained since the last incident. */
  ghost predicate LedgerOk(l: Ledger, g: Log) {
    && l.mirrors.Keys !! l.quarantined && g.stale <= l.mirrors.Keys
    && (l.quarantined != {} ==> l.incident > 0) && QuietOk(l, g)
    && forall m | m in l.mirrors :: RowOk(g, m, l.mirrors[m])
  }

  /** Before the first incident there is nothing to take over. */
  predicate QuietOk(l: Ledger, g: Log) {
    l.incident == 0 ==> g.kept == {} && g.stale == {}
  }

  ghost predicate RowOk(g: Log, m: Name, c: Commit) {
    Complete(g.seen, m, c) && (m !in g.stale ==> Complete(g.recent, m, c))
  }

  predicate EnvOk(head: Option<Commit>, e: Env, g: Log) {
    && g.recent <= g.seen
    && (!e.lost ==> g.seen <= e.held)
    && (e.remote.Some? ==> Older(e.remote.value, e.clock))
    && (head.Some? ==> Older(head.value, e.clock))
    && (forall p | p in e.sent :: Older(p, e.clock))
    && (forall x | x in e.created :: Older(x, e.clock))
    && forall x | x in g.abandoned :: x in e.created && Excluded(x, e) && NotBuiltOn(x, head, e)
  }

  // ---- readiness of a mirror for the new revision -------------------------------------------

  /** The staged data is exactly what the candidate adds to its base. */
  predicate StagedDataOk(t: Txn) {
    t.candidate.Some? &&
    var packs := t.candidate.value.packs;
    if t.base.None? then packs == map[]
    else if t.kind.Ordinary? && t.capture.Some? then packs == t.base.value.state.packs + t.capture.value.parts
    else forall x | x in packs ::
           (x in t.base.value.state.packs && t.base.value.state.packs[x] == packs[x]) || DataPart(x, packs[x]) in t.parts
  }

  /** A mirror that may be marked data-complete on the strength of the ledger and the capture. */
  predicate DataClaim(t: Txn, l: Ledger, m: Name) {
    && ((t.base.None? && m !in l.quarantined) || l.Eligible(m, t.base))
    && (t.capture.Some? ==> m in t.capture.value.mirrors)
  }

  predicate HasObject(s: State, k: Key) {
    exists x | x in s.packs :: PackKey(s, x) == k
  }

  /** A captured part that the base does not have already. */
  predicate IsNew(c: Capture, base: Option<Commit>, x: Slot) {
    x in c.parts && (base.Some? ==> !HasObject(base.value.state, DataKey(x.hash, c.parts[x])))
  }

  predicate AddsParts(t: Txn) {
    NewParts(t.capture, t.base)
  }

  predicate NewParts(c: Option<Capture>, base: Option<Commit>) {
    c.Some? && exists x | x in c.value.parts :: IsNew(c.value, base, x)
  }

  /** What the transaction takes for granted about `m` was audited or acknowledged since the incident. */
  predicate Fresh(g: Log, t: Txn, m: Name) {
    m !in g.stale && (m !in g.kept || !AddsParts(t))
  }

  ghost predicate ReadyOn(f: Facts, t: Txn, m: Name) {
    t.candidate.Some? && DataHeld(f, m, t.candidate.value) && BaseHeld(f, m, t.base)
  }

  /** The mirror holds the candidate's data and the base's metadata chain. */
  ghost predicate Ready(t: Txn, g: Log, m: Name) {
    ReadyOn(g.seen, t, m) && (Fresh(g, t, m) ==> ReadyOn(g.recent, t, m))
  }

  ghost predicate AllReady(t: Txn, g: Log) {
    forall m | m in t.mirrors && t.mirrors[m].dataComplete :: Ready(t, g, m)
  }
}
