/** Moving the checkout to another commit: seven worktree blobs, the branch and the Git index change one
    after another, and a recorded intent makes them one recoverable transition. */
module Materialization {
  import opened Model

  type Oid = nat
  type Tree = map<string, string>

  const NAMES: seq<string> := [".publickeys", "FORMAT", "ignore", "index.tsv", "mirrors.tsv", "objects.tsv", "packs.tsv"]

  datatype Intent = Intent(target: Option<Oid>, expected: Option<Oid>)

  predicate Complete(t: Tree) {
    forall n | n in NAMES :: n in t
  }

  /** The checkout of one repository. `commits` are the commits whose history validates. */
  class Checkout {
    const commits: map<Oid, Tree>
    var intent: Option<Intent>
    var head: Option<Oid>
    var index: Option<Oid>
    var worktree: Tree
    var fuse: int  // durable steps before one fails; negative: none fails

    constructor (commits: map<Oid, Tree>, head: Option<Oid>, worktree: Tree)
      requires forall c | c in commits :: Complete(commits[c])
      ensures this.commits == commits && this.head == head && index == head && intent.None? && this.worktree == worktree && Inv()
    {
      this.commits, this.head, this.worktree := commits, head, worktree;
      intent, index, fuse := None, head, -1;
    }

    predicate Known(t: Option<Oid>)
    {
      t.None? || t.value in commits
    }

    /** The blob a commit has under a name; an unborn checkout has none. */
    function Wanted(t: Option<Oid>, n: string): Option<string>
      requires Known(t)
    {
      if t.Some? && n in commits[t.value] then Some(commits[t.value][n]) else None
    }

    function Present(n: string): Option<string>
      reads this
    {
      if n in worktree then Some(worktree[n]) else None
    }

    /** Worktree, branch and index all stand at `t`. */
    predicate At(t: Option<Oid>)
      reads this
    {
      Known(t) && head == t && index == t && forall n | n in NAMES :: Present(n) == Wanted(t, n)
    }

    predicate Inv()
      reads this
    {
      && (forall c | c in commits :: Complete(commits[c]))
      && (intent.Some? ==> head == intent.value.expected || head == intent.value.target)
    }

    /** Files outside the seven names are never touched. */
    twostate predicate OthersKept()
      reads this
    {
      forall n | n !in NAMES :: Present(n) == old(Present(n))
    }

    /** The next durable step: whether it takes effect and whether it reports success. */
    method Step() returns (effect: bool, ok: bool)
      modifies `fuse
      ensures ok ==> effect
      ensures old(fuse) < 0 ==> ok && fuse == old(fuse)
    {
      if fuse == 0 {
        effect := *;
        ok := false;
      } else {
        if fuse > 0 { fuse := fuse - 1; }
        effect, ok := true, true;
      }
    }

    method WriteBlob(n: string, value: string) returns (ok: bool)
      requires n in NAMES
      modifies `worktree, `fuse
      ensures worktree == old(worktree) || worktree == old(worktree)[n := value]
      ensures ok ==> worktree == old(worktree)[n := value]
      ensures old(fuse) < 0 ==> ok && fuse == old(fuse)
    {
      var effect;
      effect, ok := Step();
      if effect { worktree := worktree[n := value]; }
    }

    method RemoveBlob(n: string) returns (ok: bool)
      requires n in NAMES
      modifies `worktree, `fuse
      ensures worktree == old(worktree) || worktree == old(worktree) - {n}
      ensures ok ==> worktree == old(worktree) - {n}
      ensures old(fuse) < 0 ==> ok && fuse == old(fuse)
    {
      var effect;
      effect, ok := Step();
      if effect { worktree := worktree - {n}; }
    }

    /** Moves the branch only from where it is expected. */
    method AcceptCommit(target: Oid, expected: Option<Oid>) returns (ok: bool)
      modifies `head, `fuse
      ensures head == old(head) || (old(head) == expected && head == Some(target))
      ensures ok ==> head == Some(target)
      ensures old(fuse) < 0 && old(head) == expected ==> ok
      ensures old(fuse) < 0 ==> fuse == old(fuse)
    {
      if head != expected { return false; }
      var effect;
      effect, ok := Step();
      if effect { head := Some(target); }
    }

    method DeleteHead(expected: Option<Oid>) returns (ok: bool)
      modifies `head, `fuse
      ensures head == old(head) || (old(head) == expected && head.None?)
      ensures ok ==> head.None?
      ensures old(fuse) < 0 && old(head) == expected ==> ok
      ensures old(fuse) < 0 ==> fuse == old(fuse)
    {
      if head != expected { return false; }
      var effect;
      effect, ok := Step();
      if effect { head := None; }
    }

    method ResetIndex(target: Option<Oid>) returns (ok: bool)
      modifies `index, `fuse
      ensures index == old(index) || index == target
      ensures ok ==> index == target
      ensures old(fuse) < 0 ==> ok && fuse == old(fuse)
    {
      var effect;
      effect, ok := Step();
      if effect { index := target; }
    }

    /** Writes or removes the seven blobs in order. */
    method PlaceBlobs(target: Option<Oid>) returns (ok: bool)
      requires Inv() && Known(target)
      modifies `worktree, `fuse
      ensures OthersKept()
      ensures ok ==> forall n | n in NAMES :: Present(n) == Wanted(target, n)
      ensures old(fuse) < 0 ==> ok && fuse == old(fuse)
    {
      for k := 0 to |NAMES|
        invariant forall i | 0 <= i < k :: Present(NAMES[i]) == Wanted(target, NAMES[i])
        invariant OthersKept()
        invariant old(fuse) < 0 ==> fuse == old(fuse)
      {
        var n := NAMES[k];
        assert n in NAMES;
        if target.None? {
          ok := RemoveBlob(n);
        } else {
          assert n in commits[target.value];
          ok := WriteBlob(n, commits[target.value][n]);
        }
        if !ok { return; }
      }
      ok := true;
    }

    method MoveBranch(i: Intent) returns (ok: bool)
      requires head == i.expected || head == i.target
      modifies `head, `fuse
      ensures head == i.expected || head == i.target
      ensures ok ==> head == i.target
      ensures old(fuse) < 0 ==> ok && fuse == old(fuse)
    {
      if head == i.target { return true; }
      if i.target.None? { ok := DeleteHead(i.expected); } else { ok := AcceptCommit(i.target.value, i.expected); }
    }

    /** Removing the intent ends the transition; a failure after it only loses the answer. */
    method ClearIntent() returns (ok: bool)
      modifies `intent, `fuse
      ensures intent == old(intent) || intent.None?
      ensures ok ==> intent.None?
      ensures old(fuse) < 0 ==> ok && fuse == old(fuse)
    {
      var effect;
      effect, ok := Step();
      if effect { intent := None; }
    }

    /** Completes a recorded intent. Wherever it fails, the intent is still there to be completed or the
        transition is already complete. */
    method RecoverMaterialization() returns (ok: bool)
      requires Inv()
      modifies this
      ensures Inv() && OthersKept()
      ensures old(intent).None? ==> ok && unchanged(this)
      ensures old(intent).Some? ==> intent == old(intent) || (intent.None? && At(old(intent).value.target))
      ensures ok ==> intent.None?
      ensures old(intent).Some? && old(fuse) < 0 && Known(old(intent).value.target) ==> ok
      ensures old(fuse) < 0 ==> fuse == old(fuse)
    {
      if intent.None? { return true; }
      var i := intent.value;
      if head != i.expected && head != i.target {
        assert false;  // only the recorded transition moves the branch
      }
      if !Known(i.target) { return false; }
      ok := PlaceBlobs(i.target);
      if !ok { return; }
      ok := MoveBranch(i);
      if !ok { return; }
      ok := ResetIndex(i.target);
      if !ok { return; }
      ok := ClearIntent();
    }

    /** Records the intent and carries it out. Without a durable intent nothing has changed. */
    method ApplyCommit(target: Option<Oid>, expected: Option<Oid>) returns (ok: bool)
      requires Inv() && intent.None?
      modifies this
      ensures Inv() && OthersKept()
      ensures ok ==> old(head) == expected && intent.None? && At(target)
      ensures !ok ==>
                || (intent.None? && head == old(head) && index == old(index) && worktree == old(worktree))
                || intent == Some(Intent(target, expected))
                || (intent.None? && At(target))
      ensures old(fuse) < 0 && Known(target) ==> (ok <==> old(head) == expected)
    {
      if head != expected { return false; }
      var effect;
      effect, ok := Step();
      if effect { intent := Some(Intent(target, expected)); }
      if !ok { return; }
      ok := RecoverMaterialization();
    }
  }

  /** However often recovery is interrupted, the first uninterrupted one ends at the target, and a further
      one changes nothing. */
  method ConvergeAfterCrashes(c: Checkout, fuses: seq<nat>)
    requires c.Inv() && c.intent.Some? && c.Known(c.intent.value.target)
    modifies c
    ensures c.intent.None? && c.At(old(c.intent.value.target)) && c.OthersKept()
  {
    ghost var i := c.intent.value;
    for k := 0 to |fuses|
      invariant c.Inv() && c.OthersKept()
      invariant c.intent == Some(i) || (c.intent.None? && c.At(i.target))
    {
      c.fuse := fuses[k];
      var ok := c.RecoverMaterialization();
    }
    c.fuse := -1;
    var ok := c.RecoverMaterialization();
    label Recovered:
    ok := c.RecoverMaterialization();
    assert unchanged@Recovered(c);
  }
}
