/** Where positive evidence can outlive an incident: revalidating a captured candidate adds mirrors to
    the capture set but removes none, and the next commit marks mirrors from that set. This is exactly
    when a ledger row can then rest on evidence older than the incident. */
module StaleEvidence {
  import opened Model
  import opened Ancestry
  import opened Evidence
  import opened Stability
  import opened Records

  // ---- what the saved record tells ------------------------------------------------------------

  /** In the record that the revalidation itself saves, the mirrors it kept unaudited are the unmarked
      ones of the capture set. */
  lemma KeptAreUnmarked(t: Txn, l: Ledger, mirrors: seq<Name>, passed: set<Name>)
    requires t.capture.Some? && forall m | m in t.capture.value.mirrors :: m in mirrors
    requires forall m | m in passed :: m in mirrors
    ensures var u := Revalidated(t, l, mirrors, passed);
            Unaudited(t, passed) == set m | m in u.capture.value.mirrors && !u.mirrors[m].dataComplete
  {}

  /** The next commit newly marks exactly the kept mirrors that are recorded complete for the base. */
  lemma ResumeMarksKept(t: Txn, l: Ledger, later: Ledger, mirrors: seq<Name>, passed: set<Name>, m: Name)
    requires t.capture.Some? && t.base.Some? && m in mirrors
    ensures var u := Revalidated(t, l, mirrors, passed);
            Remarked(u, later, m).dataComplete && !u.mirrors[m].dataComplete <==>
            later.Eligible(m, t.base) && m in Unaudited(t, passed)
  {}

  /** The record after the next commit saved its marks. */
  function Resaved(u: Txn, l: Ledger, mirrors: seq<Name>): Txn {
    u.(mirrors := map m | m in mirrors :: Remarked(u, l, m))
  }

  /** Those marks hide it: whichever captured mirrors passed, the record saved next is the same. So the
      files do not tell afterwards which mirrors were kept. */
  lemma MarksHideKept(t: Txn, l: Ledger, mirrors: seq<Name>, p: set<Name>, q: set<Name>)
    requires t.capture.Some? && t.base.Some? && t.parts == [] && forall m | m in t.mirrors :: t.mirrors[m].dataCursor <= |t.parts|
    requires p <= t.capture.value.mirrors && q <= t.capture.value.mirrors
    ensures Resaved(Revalidated(t, l, mirrors, p), l, mirrors) == Resaved(Revalidated(t, l, mirrors, q), l, mirrors)
  {
    var names := t.capture.value.mirrors;
    assert names + p == names && names + q == names;
    var u, v := Revalidated(t, l, mirrors, p), Revalidated(t, l, mirrors, q);
    forall m | m in mirrors ensures Remarked(u, l, m) == Remarked(v, l, m) {}
    assert Resaved(u, l, mirrors).mirrors == Resaved(v, l, mirrors).mirrors;
  }

  // ---- when the row is fresh ------------------------------------------------------------------

  /** What may have been observed, given the durable files and the environment. */
  ghost predicate Possible(t: Txn, mirrors: seq<Name>, l: Ledger, head: Option<Commit>, e: Env, g: Log) {
    Good(t, mirrors, l, e, g) && LedgerOk(l, g) && EnvOk(head, e, g)
  }

  /** The mirror has all that a commit asks for before it writes the row. */
  predicate RowDue(t: Txn, l: Ledger, m: Name) {
    && t.capture.Some? && t.base.Some? && t.local.Some? && t.metadata.Some? && t.candidate.Some?
    && StagedDataOk(t) && t.incident == l.incident
    && l.Eligible(m, t.base) && m in t.capture.value.mirrors && P(t, m).manifest
  }

  lemma DueRowFresh(t: Txn, mirrors: seq<Name>, l: Ledger, head: Option<Commit>, e: Env, g: Log, m: Name)
    requires Possible(t, mirrors, l, head, e, g) && RowDue(t, l, m) && m !in g.stale
    ensures Complete(g.recent, m, t.local.value) <==> PartsCaptured(g.recent, t.capture.value, m)
  {
    assert RowOk(g, m, l.mirrors[m]);
    if PartsCaptured(g.recent, t.capture.value, m) {
      ClaimReadyOn(g.recent, t, l, m);
      assert ProgressOk(t, l, g, m, t.mirrors[m]);
      ReadyComplete(g.recent, t, m);
    } else {
      var parts, packs := t.capture.value.parts, t.candidate.value.packs;
      var x :| x in parts && (m, DataKey(x.hash, parts[x])) !in g.recent;
      assert x in packs && packs[x] == parts[x];
      assert PackKey(t.local.value.state, x) == DataKey(x.hash, parts[x]);
    }
  }

  lemma {:induction false} ChainWithout(f: Facts, n: Name, k: Key, m: Name, c: Commit)
    requires ChainHeld(f, m, c) && k.DataKey?
    ensures ChainHeld(f - {(n, k)}, m, c)
    decreases c
  {
    var s: Staged :| Describes(s.manifest, c) && RepresentationHeld(f, m, s);
    assert RepresentationHeld(f - {(n, k)}, m, s);
    if c.parent.Some? { ChainWithout(f, n, k, m, c.parent.value); }
  }

  /** For all that is recorded, the kept mirror may not have been seen with a new part since the incident. */
  lemma KeptMayLack(t: Txn, mirrors: seq<Name>, l: Ledger, head: Option<Commit>, e: Env, g: Log, m: Name, x: Slot)
    requires Possible(t, mirrors, l, head, e, g) && RowDue(t, l, m) && m in g.kept && IsNew(t.capture.value, t.base, x)
    ensures Possible(t, mirrors, l, head, e, g.(recent := g.recent - {(m, DataKey(x.hash, t.capture.value.parts[x]))}))
  {
    var k := DataKey(x.hash, t.capture.value.parts[x]);
    var h := g.(recent := g.recent - {(m, k)});
    forall n | n in l.mirrors ensures RowOk(h, n, l.mirrors[n]) {
      assert RowOk(g, n, l.mirrors[n]);
      if n !in g.stale { ChainWithout(g.recent, m, k, n, l.mirrors[n]); }
    }
    forall n | n in t.mirrors ensures n in mirrors && ProgressOk(t, l, h, n, t.mirrors[n]) {
      assert ProgressOk(t, l, g, n, t.mirrors[n]);
    }
    forall n | n in t.capture.value.mirrors && n !in h.kept ensures PartsCaptured(h.recent, t.capture.value, n) {
      assert PartsCaptured(g.recent, t.capture.value, n);
    }
  }

  /** The facts without the manifests of `m` for the tip `c`. */
  function WithoutEdge(f: Facts, m: Name, c: Commit): Facts {
    set x | x in f && !(x.0 == m && x.1.ManifestKey? && x.1.manifest.tip == c)
  }

  lemma {:induction false} ChainOfOther(f: Facts, m: Name, b: Commit, n: Name, c: Commit)
    requires ChainHeld(f, n, c) && n != m
    ensures ChainHeld(WithoutEdge(f, m, b), n, c)
    decreases c
  {
    var s: Staged :| Describes(s.manifest, c) && RepresentationHeld(f, n, s);
    assert RepresentationHeld(WithoutEdge(f, m, b), n, s);
    if c.parent.Some? { ChainOfOther(f, m, b, n, c.parent.value); }
  }

  lemma EdgeGone(f: Facts, m: Name, c: Commit)
    ensures !ChainHeld(WithoutEdge(f, m, c), m, c)
  {
    forall s: Staged | Describes(s.manifest, c) ensures !RepresentationHeld(WithoutEdge(f, m, c), m, s) {}
  }

  /** A stale mirror may not have been seen with the base's own edge since the incident. */
  lemma StaleMayLack(t: Txn, mirrors: seq<Name>, l: Ledger, head: Option<Commit>, e: Env, g: Log, m: Name)
    requires Possible(t, mirrors, l, head, e, g) && RowDue(t, l, m) && m in g.stale
    ensures Possible(t, mirrors, l, head, e, g.(recent := WithoutEdge(g.recent, m, t.base.value)))
    ensures !Complete(WithoutEdge(g.recent, m, t.base.value), m, t.local.value)
  {
    var h := g.(recent := WithoutEdge(g.recent, m, t.base.value));
    EdgeGone(g.recent, m, t.base.value);
    ChildNotInParent(t.local.value, t.base.value);
    forall n | n in l.mirrors ensures RowOk(h, n, l.mirrors[n]) {
      assert RowOk(g, n, l.mirrors[n]);
      if n !in g.stale { ChainOfOther(g.recent, m, t.base.value, n, l.mirrors[n]); }
    }
    forall n | n in t.mirrors ensures n in mirrors && ProgressOk(t, l, h, n, t.mirrors[n]) {
      assert ProgressOk(t, l, g, n, t.mirrors[n]);
    }
    forall n | n in t.capture.value.mirrors && n !in h.kept ensures PartsCaptured(h.recent, t.capture.value, n) {
      assert PartsCaptured(g.recent, t.capture.value, n);
    }
  }

  lemma FreshRow(t: Txn, mirrors: seq<Name>, l: Ledger, head: Option<Commit>, e: Env, g: Log, m: Name)
    requires Possible(t, mirrors, l, head, e, g) && RowDue(t, l, m) && Fresh(g, t, m)
    ensures Complete(g.recent, m, t.local.value)
  {
    assert RowOk(g, m, l.mirrors[m]);
    if m !in g.kept { assert PartsCaptured(g.recent, t.capture.value, m); } else { OldPartsHeld(t, g.recent, m); }
    DueRowFresh(t, mirrors, l, head, e, g, m);
  }

  /** A history in which the row is not fresh, where the marks `kept` and `stale` allow one. */
  lemma DoubtfulRow(t: Txn, mirrors: seq<Name>, l: Ledger, head: Option<Commit>, e: Env, g: Log, m: Name) returns (h: Log)
    requires Possible(t, mirrors, l, head, e, g) && RowDue(t, l, m) && !Fresh(g, t, m)
    ensures Possible(t, mirrors, l, head, e, h) && h.kept == g.kept && h.stale == g.stale && !Complete(h.recent, m, t.local.value)
  {
    if m in g.stale {
      StaleMayLack(t, mirrors, l, head, e, g, m);
      h := g.(recent := WithoutEdge(g.recent, m, t.base.value));
    } else {
      var x :| x in t.capture.value.parts && IsNew(t.capture.value, t.base, x);
      KeptMayLack(t, mirrors, l, head, e, g, m, x);
      h := g.(recent := g.recent - {(m, DataKey(x.hash, t.capture.value.parts[x]))});
      DueRowFresh(t, mirrors, l, head, e, h, m);
      assert !PartsCaptured(h.recent, t.capture.value, m);
    }
  }

  /** Given which mirrors were kept and which rows are stale, the row about to be written is sure to rest
      on evidence obtained since the last incident exactly when its predecessor is not stale and the
      mirror passed the revalidation, or the capture holds nothing new. */
  lemma RowFreshExactly(t: Txn, mirrors: seq<Name>, l: Ledger, head: Option<Commit>, e: Env, g: Log, m: Name)
    requires Possible(t, mirrors, l, head, e, g) && RowDue(t, l, m)
    ensures (forall h: Log | Possible(t, mirrors, l, head, e, h) && h.kept == g.kept && h.stale == g.stale ::
               Complete(h.recent, m, t.local.value))
            <==> m !in g.stale && (m !in g.kept || !AddsParts(t))
  {
    if Fresh(g, t, m) {
      forall h: Log | Possible(t, mirrors, l, head, e, h) && h.kept == g.kept && h.stale == g.stale
        ensures Complete(h.recent, m, t.local.value)
      {
        FreshRow(t, mirrors, l, head, e, h, m);
      }
    } else {
      var h := DoubtfulRow(t, mirrors, l, head, e, g, m);
    }
  }

  /** The same in terms of the audits of the last revalidation, which passed the mirrors `passed` and
      found `before` in the capture set. */
  lemma RevalidatedRowExactly(t: Txn, mirrors: seq<Name>, l: Ledger, head: Option<Commit>, e: Env, g: Log, m: Name,
                              before: set<Name>, passed: set<Name>)
    requires Possible(t, mirrors, l, head, e, g) && RowDue(t, l, m)
    requires t.capture.value.mirrors == before + passed && g.kept == before - passed
    ensures (forall h: Log | Possible(t, mirrors, l, head, e, h) && h.kept == g.kept && h.stale == g.stale ::
               Complete(h.recent, m, t.local.value))
            <==> m !in g.stale && (m in passed || !AddsParts(t))
  {
    RowFreshExactly(t, mirrors, l, head, e, g, m);
  }

  lemma MayBeStale(t: Txn, mirrors: seq<Name>, l: Ledger, head: Option<Commit>, e: Env, g: Log, m: Name)
    requires Possible(t, mirrors, l, head, e, g) && RowDue(t, l, m) && l.incident > 0
    ensures Possible(t, mirrors, l, head, e, g.(stale := g.stale + {m}))
  {
    var h := g.(stale := g.stale + {m});
    forall n | n in l.mirrors ensures RowOk(h, n, l.mirrors[n]) { assert RowOk(g, n, l.mirrors[n]); }
    forall n | n in t.mirrors ensures n in mirrors && ProgressOk(t, l, h, n, t.mirrors[n]) {
      assert ProgressOk(t, l, g, n, t.mirrors[n]);
    }
  }

  /** From transaction and ledger alone, whatever was kept before: they guarantee a fresh row exactly as
      long as there was no incident. */
  lemma FilesGuaranteeExactly(t: Txn, mirrors: seq<Name>, l: Ledger, head: Option<Commit>, e: Env, g: Log, m: Name)
    requires Possible(t, mirrors, l, head, e, g) && RowDue(t, l, m)
    ensures (forall h: Log | Possible(t, mirrors, l, head, e, h) :: Complete(h.recent, m, t.local.value)) <==> l.incident == 0
  {
    if l.incident == 0 {
      forall h: Log | Possible(t, mirrors, l, head, e, h) ensures Complete(h.recent, m, t.local.value) {
        FreshRow(t, mirrors, l, head, e, h, m);
      }
    } else {
      MayBeStale(t, mirrors, l, head, e, g, m);
      var h := DoubtfulRow(t, mirrors, l, head, e, g.(stale := g.stale + {m}), m);
    }
  }
}
