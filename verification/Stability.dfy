/** The invariant of the durable state survives the passage of time and new evidence. */
module Stability {
  import opened Model
  import opened Ancestry
  import opened Evidence

  /** More was observed and nothing was forgotten. */
  predicate Learns(g: Log, h: Log) {
    && g.seen <= h.seen && g.recent <= h.recent && h.abandoned == g.abandoned
    && h.kept == g.kept && h.stale == g.stale
  }

  lemma PublicationStable(t: Txn, a: Env, b: Env)
    requires EnvStep(a, b) && PublicationOk(t, a)
    ensures PublicationOk(t, b)
  {
    if t.base.Some? { OlderMonotone(t.base.value, a.clock, b.clock); }
    if t.local.Some? {
      var x := t.local.value;
      OlderMonotone(x, a.clock, b.clock);
      if t.resetting { ExcludedStable(x, a, b); }
      if t.confirmed && b.remote != a.remote { HistoryTransitive(x, a.remote.value, b.remote.value); }
    }
  }

  lemma GoodStable(t: Txn, mirrors: seq<Name>, l: Ledger, a: Env, b: Env, g: Log, h: Log)
    requires EnvStep(a, b) && Learns(g, h) && Good(t, mirrors, l, a, g)
    requires forall x | x in g.abandoned :: x in a.created && Excluded(x, a)
    ensures Good(t, mirrors, l, b, h)
  {
    PublicationStable(t, a, b);
    forall x | x in h.abandoned
      ensures NotBuiltOn(x, t.base, b) && NotBuiltOn(x, t.local, b)
    {
      ExcludedStable(x, a, b);
    }
  }

  lemma LedgerStable(l: Ledger, g: Log, h: Log)
    requires Learns(g, h) && LedgerOk(l, g)
    ensures LedgerOk(l, h)
  {
    forall m | m in l.mirrors ensures RowOk(h, m, l.mirrors[m]) {
      CompleteMonotone(g.seen, h.seen, m, l.mirrors[m]);
      if m !in g.stale { CompleteMonotone(g.recent, h.recent, m, l.mirrors[m]); }
    }
  }

  lemma EnvStable(head: Option<Commit>, a: Env, b: Env, g: Log)
    requires EnvStep(a, b) && EnvOk(head, a, g)
    ensures EnvOk(head, b, g)
  {
    if b.remote.Some? && b.remote == a.remote { OlderMonotone(b.remote.value, a.clock, b.clock); }
    if head.Some? { OlderMonotone(head.value, a.clock, b.clock); }
    forall p | p in b.sent ensures Older(p, b.clock) { OlderMonotone(p, a.clock, b.clock); }
    forall p | p in b.created ensures Older(p, b.clock) { OlderMonotone(p, a.clock, b.clock); }
    forall x | x in g.abandoned
      ensures x in b.created && Excluded(x, b) && NotBuiltOn(x, head, b)
    {
      ExcludedStable(x, a, b);
    }
  }

  function Incident(l: Ledger, m: Name): (r: Ledger) {
    Ledger(map[], l.incident + 1, l.quarantined + {m}, l.forwardRepair)
  }

  /** A new incident makes every earlier observation old, and there is no row left that could rest on one. */
  function Outdated(g: Log): Log {
    g.(recent := {}, kept := {}, stale := {})
  }

  lemma GoodAfterIncident(t: Txn, mirrors: seq<Name>, l: Ledger, e: Env, g: Log, m: Name)
    requires Good(t, mirrors, l, e, g)
    ensures Good(t, mirrors, Incident(l, m), e, Outdated(g))
  {
    forall n | n in t.mirrors
      ensures ProgressOk(t, Incident(l, m), Outdated(g), n, t.mirrors[n])
    {
      assert ProgressOk(t, l, g, n, t.mirrors[n]);
    }
  }

  /** Replacing one mirror's progress by an acceptable one. */
  lemma GoodSetP(t: Txn, mirrors: seq<Name>, l: Ledger, e: Env, g: Log, m: Name, p: Progress)
    requires Good(t, mirrors, l, e, g) && m in mirrors && t.candidate.Some?
    requires ProgressOk(t, l, g, m, p)
    ensures Good(SetP(t, m, p), mirrors, l, e, g)
  {
    var u := SetP(t, m, p);
    forall n | n in u.mirrors ensures n in mirrors && ProgressOk(u, l, g, n, u.mirrors[n]) {
      if n != m { assert ProgressOk(t, l, g, n, t.mirrors[n]); }
    }
  }

  lemma ClaimReadyOn(f: Facts, t: Txn, l: Ledger, m: Name)
    requires ValidCore(t) && StagedDataOk(t) && !t.kind.Repair? && DataClaim(t, l, m)
    requires t.capture.Some? ==> PartsCaptured(f, t.capture.value, m)
    requires t.base.Some? ==> Complete(f, m, t.base.value)
    ensures ReadyOn(f, t, m)
  {
    var packs := t.candidate.value.packs;
    forall x | x in packs ensures (m, PackKey(t.candidate.value, x)) in f {
      if t.base.Some? && x in t.base.value.state.packs && t.base.value.state.packs[x] == packs[x] {
        assert PackKey(t.base.value.state, x) == PackKey(t.candidate.value, x);
      }
    }
  }

  /** Under an unchanged incident a claim is backed by evidence. */
  lemma ClaimReady(t: Txn, mirrors: seq<Name>, l: Ledger, e: Env, g: Log, m: Name)
    requires Good(t, mirrors, l, e, g) && LedgerOk(l, g)
    requires StagedDataOk(t) && !t.kind.Repair? && DataClaim(t, l, m) && t.incident == l.incident
    ensures Ready(t, g, m)
  {
    ClaimReadyOn(g.seen, t, l, m);
    if Fresh(g, t, m) {
      if t.capture.Some? && m in g.kept { OldPartsHeld(t, g.recent, m); }
      ClaimReadyOn(g.recent, t, l, m);
    }
  }

  /** Captured parts that the base has already are held with the base. */
  lemma OldPartsHeld(t: Txn, f: Facts, m: Name)
    requires t.capture.Some? && !AddsParts(t) && (t.base.Some? ==> DataHeld(f, m, t.base.value.state))
    ensures PartsCaptured(f, t.capture.value, m)
  {
    var parts := t.capture.value.parts;
    forall x | x in parts ensures (m, DataKey(x.hash, parts[x])) in f {
      assert !IsNew(t.capture.value, t.base, x);
      var y :| y in t.base.value.state.packs && PackKey(t.base.value.state, y) == DataKey(x.hash, parts[x]);
    }
  }

  lemma ReadyStable(t: Txn, g: Log, h: Log)
    requires AllReady(t, g) && g.seen <= h.seen && g.recent <= h.recent && g.kept <= h.kept && g.stale <= h.stale
    ensures AllReady(t, h)
  {
    forall m | m in t.mirrors && t.mirrors[m].dataComplete ensures Ready(t, h, m) {
      assert Ready(t, g, m);
      if t.base.Some? {
        ChainMonotone(g.seen, h.seen, m, t.base.value);
        if Fresh(h, t, m) { ChainMonotone(g.recent, h.recent, m, t.base.value); }
      }
    }
  }

  /** The new edge on top of the base's chain completes the revision. */
  lemma ReadyComplete(f: Facts, t: Txn, m: Name)
    requires ReadyOn(f, t, m) && t.local.Some? && t.metadata.Some?
    requires t.local.value.parent == t.base && t.candidate == Some(t.local.value.state)
    requires Describes(t.metadata.value.manifest, t.local.value) && RepresentationHeld(f, m, t.metadata.value)
    ensures Complete(f, m, t.local.value)
  {
    assert EdgeHeld(f, m, t.local.value);
  }
}
