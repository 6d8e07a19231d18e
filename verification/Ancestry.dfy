/** Linear commit histories and the fast-forward-only remote branch. */
module Ancestry {
  import opened Model

  predicate InHistory(a: Commit, c: Commit)
    decreases c
  {
    a == c || (c.parent.Some? && InHistory(a, c.parent.value))
  }

  function Depth(c: Commit): (d: nat)
    decreases c
  {
    if c.parent.None? then 0 else Depth(c.parent.value) + 1
  }

  /** The commits from genesis to `c`, in order. */
  function History(c: Commit): (h: seq<Commit>)
    ensures |h| == Depth(c) + 1 && h[|h| - 1] == c
    ensures forall i | 0 <= i < |h| :: InHistory(h[i], c) && Depth(h[i]) == i
    decreases c
  {
    if c.parent.None? then [c] else History(c.parent.value) + [c]
  }

  lemma {:induction false} HistoryTransitive(a: Commit, b: Commit, c: Commit)
    requires InHistory(a, b) && InHistory(b, c)
    ensures InHistory(a, c)
    decreases c
  {
    if b != c { HistoryTransitive(a, b, c.parent.value); }
  }

  lemma {:induction false} HistoryDepth(a: Commit, c: Commit)
    requires InHistory(a, c)
    ensures Depth(a) <= Depth(c)
    ensures a != c ==> Depth(a) < Depth(c)
    decreases c
  {
    if a != c { HistoryDepth(a, c.parent.value); }
  }

  /** Two ancestors of one commit are ordered: there are no merges. */
  lemma {:induction false} HistoryLinear(a: Commit, b: Commit, c: Commit)
    requires InHistory(a, c) && InHistory(b, c)
    ensures InHistory(a, b) || InHistory(b, a)
    decreases c
  {
    if a != c && b != c { HistoryLinear(a, b, c.parent.value); }
  }

  predicate InRemote(a: Commit, r: Option<Commit>) {
    r.Some? && InHistory(a, r.value)
  }

  predicate Avoids(c: Option<Commit>, x: Commit) {
    c.None? || !InHistory(x, c.value)
  }

  /** The remote has taken a branch that neither contains `x` nor can fast-forward to it. */
  predicate Blocked(x: Commit, r: Option<Commit>) {
    r.Some? && !InHistory(x, r.value) && !InHistory(r.value, x)
  }

  /** A fast-forward of a blocking remote still blocks. */
  lemma BlockedStable(x: Commit, r: Commit, r': Commit)
    requires Blocked(x, Some(r)) && InHistory(r, r')
    ensures Blocked(x, Some(r'))
  {
    if InHistory(r', x) { HistoryTransitive(r, r', x); }
    if InHistory(x, r') { HistoryLinear(x, r, r'); }
  }

  /** A validated descendant of the base other than the child `x` proves that `x` lost the race. */
  lemma CompetitorBlocks(x: Commit, base: Commit, r: Commit)
    requires x.parent == Some(base)
    requires InHistory(base, r) && r != base && !InHistory(x, r)
    ensures Blocked(x, Some(r))
  {
    HistoryDepth(base, r);
    if InHistory(r, x) {
      assert r != x;
      HistoryDepth(r, base);
    }
  }

  lemma ChildNotInParent(x: Commit, base: Commit)
    requires x.parent == Some(base)
    ensures !InHistory(x, base)
  {
    if InHistory(x, base) { HistoryDepth(x, base); }
  }

  /** Every commit in the history was made before `clock`. */
  predicate Older(c: Commit, clock: nat)
    decreases c
  {
    c.stamp < clock && (c.parent.Some? ==> Older(c.parent.value, clock))
  }

  lemma {:induction false} OlderExcludes(x: Commit, c: Commit, clock: nat)
    requires Older(c, clock) && x.stamp >= clock
    ensures !InHistory(x, c)
    decreases c
  {
    if c.parent.Some? { OlderExcludes(x, c.parent.value, clock); }
  }

  lemma {:induction false} OlderMonotone(c: Commit, clock: nat, later: nat)
    requires Older(c, clock) && clock <= later
    ensures Older(c, later)
    decreases c
  {
    if c.parent.Some? { OlderMonotone(c.parent.value, clock, later); }
  }
}
