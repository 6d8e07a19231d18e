/** Recovery keeps at most one reconstructed repository while it verifies candidate tips. Histories are
    linear, so that one is enough. */
module Retention {
  import opened Model
  import opened Ancestry

  /** No tip verified later lies in the history of one verified earlier. */
  predicate InOrder(tips: seq<Commit>) {
    forall i, j | 0 <= i < j < |tips| :: !InHistory(tips[j], tips[i])
  }

  predicate Maximal(tips: seq<Commit>, i: nat)
    requires i < |tips|
  {
    forall j | 0 <= j < |tips| && j != i :: !InHistory(tips[i], tips[j])
  }

  predicate TwoMaximal(tips: seq<Commit>) {
    exists i, j | 0 <= i < j < |tips| :: Maximal(tips, i) && Maximal(tips, j)
  }

  predicate Apart(a: Commit, b: Commit) {
    !InHistory(a, b) && !InHistory(b, a)
  }

  predicate SomeApart(tips: seq<Commit>) {
    exists i, j | 0 <= i < j < |tips| :: Apart(tips[i], tips[j])
  }

  /** What the loop keeps: without ambiguity the last tip is retained and stands above all others. */
  predicate Keeps(tips: seq<Commit>, retained: int, ambiguous: bool) {
    && InOrder(tips)
    && if ambiguous then retained == -1 && SomeApart(tips)
       else retained == |tips| - 1 && forall i | 0 <= i < |tips| :: InHistory(tips[i], tips[|tips| - 1])
  }

  lemma KeepsStep(tips: seq<Commit>, retained: int, ambiguous: bool, tip: Commit)
    requires Keeps(tips, retained, ambiguous) && forall i | 0 <= i < |tips| :: !InHistory(tip, tips[i])
    ensures ambiguous ==> Keeps(tips + [tip], -1, true)
    ensures !ambiguous && (tips == [] || InHistory(tips[|tips| - 1], tip)) ==> Keeps(tips + [tip], |tips|, false)
    ensures !ambiguous && tips != [] && !InHistory(tips[|tips| - 1], tip) ==> Keeps(tips + [tip], -1, true)
  {
    var all := tips + [tip];
    if ambiguous {
      var i, j :| 0 <= i < j < |tips| && Apart(tips[i], tips[j]);
      assert Apart(all[i], all[j]);
    } else if tips != [] {
      var last := tips[|tips| - 1];
      if InHistory(last, tip) {
        forall i | 0 <= i < |all| ensures InHistory(all[i], tip) {
          if i < |tips| { HistoryTransitive(all[i], last, tip); }
        }
      } else {
        assert Apart(all[|tips| - 1], all[|tips|]);
      }
    }
  }

  // ---- maximal tips -------------------------------------------------------------------------

  function Deepest(tips: seq<Commit>): (d: nat)
    ensures forall i | 0 <= i < |tips| :: Depth(tips[i]) <= d
  {
    if tips == [] then 0
    else
      var d := Deepest(tips[..|tips| - 1]);
      assert forall i | 0 <= i < |tips| - 1 :: tips[i] == tips[..|tips| - 1][i];
      if d < Depth(tips[|tips| - 1]) then Depth(tips[|tips| - 1]) else d
  }

  lemma TipsDiffer(tips: seq<Commit>, i: nat, j: nat)
    requires InOrder(tips) && i < |tips| && j < |tips| && i != j
    ensures tips[i] != tips[j]
  {
    assert InHistory(tips[i], tips[i]) && InHistory(tips[j], tips[j]);
  }

  /** Every verified tip lies in the history of a maximal one. */
  lemma {:induction false} MaximalAbove(tips: seq<Commit>, i: nat) returns (m: nat)
    requires InOrder(tips) && i < |tips|
    ensures m < |tips| && Maximal(tips, m) && InHistory(tips[i], tips[m])
    decreases Deepest(tips) - Depth(tips[i])
  {
    if Maximal(tips, i) { return i; }
    var j :| 0 <= j < |tips| && j != i && InHistory(tips[i], tips[j]);
    TipsDiffer(tips, i, j);
    HistoryDepth(tips[i], tips[j]);
    m := MaximalAbove(tips, j);
    HistoryTransitive(tips[i], tips[j], tips[m]);
  }

  /** Ambiguity is recorded exactly when two verified tips are maximal. */
  lemma AmbiguousExactly(tips: seq<Commit>, retained: int, ambiguous: bool)
    requires Keeps(tips, retained, ambiguous)
    ensures ambiguous <==> TwoMaximal(tips)
    ensures !ambiguous && tips != [] ==> forall i | 0 <= i < |tips| :: Maximal(tips, i) <==> i == retained
  {
    if ambiguous {
      var i, j :| 0 <= i < j < |tips| && Apart(tips[i], tips[j]);
      var m := MaximalAbove(tips, i);
      var n := MaximalAbove(tips, j);
      if m == n { HistoryLinear(tips[i], tips[j], tips[m]); }
      assert if m < n then Maximal(tips, m) && Maximal(tips, n) else Maximal(tips, n) && Maximal(tips, m);
    } else if tips != [] {
      forall i | 0 <= i < |tips| ensures Maximal(tips, i) <==> i == retained {
        assert InHistory(tips[i], tips[|tips| - 1]);
      }
    }
  }

  // ---- the loop over candidate tips ---------------------------------------------------------

  predicate Under(t: Commit, verified: seq<Commit>) {
    exists i | 0 <= i < |verified| :: InHistory(t, verified[i])
  }

  /** The candidate tips marked as covered are those in a verified history. */
  predicate Covering(tips: seq<Commit>, covered: set<Commit>, verified: seq<Commit>) {
    forall t | t in tips :: t in covered <==> Under(t, verified)
  }

  predicate Usable(verified: seq<Commit>, tips: seq<Commit>, usable: Commit -> bool) {
    forall i | 0 <= i < |verified| :: verified[i] in tips && usable(verified[i])
  }

  /** What the loop over the candidates established. */
  predicate Settled(verified: seq<Commit>, retained: int, ambiguous: bool, tips: seq<Commit>, usable: Commit -> bool) {
    && Keeps(verified, retained, ambiguous) && Usable(verified, tips, usable)
    && forall j | 0 <= j < |tips| && usable(tips[j]) :: Under(tips[j], verified)
  }

  /** `usable` says which tips have a path that materializes and validates. */
  method VerifyCandidates(tips: seq<Commit>, exact: bool, usable: Commit -> bool)
    returns (verified: seq<Commit>, retained: int, ambiguous: bool)
    requires exact ==> |tips| == 1
    ensures Settled(verified, retained, ambiguous, tips, usable)
  {
    verified, retained, ambiguous := [], -1, false;
    var covered: set<Commit> := {};
    for k := 0 to |tips|
      invariant Keeps(verified, retained, ambiguous) && Usable(verified, tips, usable)
      invariant Covering(tips, covered, verified) && |verified| <= k
      invariant forall j | 0 <= j < k && usable(tips[j]) :: tips[j] in covered
    {
      var tip := tips[k];
      if !exact && tip in covered { continue; }
      if !usable(tip) { continue; }
      assert !exact ==> !Under(tip, verified);
      retained, ambiguous := Retain(verified, retained, ambiguous, tip);
      covered := CoverMore(tips, covered, verified, tip);
      verified := verified + [tip];
    }
    forall j | 0 <= j < |tips| && usable(tips[j]) ensures Under(tips[j], verified) { assert tips[j] in covered; }
  }

  /** A newly verified history replaces the retained repository or makes the choice ambiguous. */
  method Retain(verified: seq<Commit>, retained: int, ambiguous: bool, tip: Commit) returns (now: int, unclear: bool)
    requires Keeps(verified, retained, ambiguous) && forall i | 0 <= i < |verified| :: !InHistory(tip, verified[i])
    ensures Keeps(verified + [tip], now, unclear)
  {
    KeepsStep(verified, retained, ambiguous, tip);
    now, unclear := retained, ambiguous;
    if !unclear && now >= 0 {
      unclear := !InHistory(verified[now], tip);
      now := -1;
    }
    if !unclear { now := |verified|; }
  }

  method CoverMore(tips: seq<Commit>, covered: set<Commit>, ghost verified: seq<Commit>, tip: Commit) returns (more: set<Commit>)
    requires Covering(tips, covered, verified) && tip in tips
    ensures Covering(tips, more, verified + [tip]) && covered <= more && tip in more
  {
    more := covered;
    for k := 0 to |tips|
      invariant covered <= more && forall j | 0 <= j < k :: InHistory(tips[j], tip) ==> tips[j] in more
      invariant forall t | t in more :: t in covered || InHistory(t, tip)
    {
      if InHistory(tips[k], tip) { more := more + {tips[k]}; }
    }
    forall t | t in tips ensures t in more <==> Under(t, verified + [tip]) { UnderMore(t, verified, tip); }
    assert InHistory(tip, tip);
  }

  lemma UnderMore(t: Commit, verified: seq<Commit>, tip: Commit)
    ensures Under(t, verified + [tip]) <==> Under(t, verified) || InHistory(t, tip)
  {
    var all := verified + [tip];
    if Under(t, verified) {
      var i :| 0 <= i < |verified| && InHistory(t, verified[i]);
      assert InHistory(t, all[i]);
    }
    if InHistory(t, tip) { assert InHistory(t, all[|verified|]); }
  }

  /** The positions of the maximal tips, in order. */
  ghost predicate MaximalList(verified: seq<Commit>, maximal: seq<nat>) {
    && (forall i: nat :: i in maximal <==> i < |verified| && Maximal(verified, i))
    && forall a, b | 0 <= a < b < |maximal| :: maximal[a] < maximal[b]
  }

  /** The tips that no other verified history contains, found by marking ancestors. */
  method MaximalVerified(verified: seq<Commit>) returns (maximal: seq<nat>)
    requires InOrder(verified)
    ensures MaximalList(verified, maximal)
  {
    var ancestors: set<Commit> := {};
    for d := 0 to |verified|
      invariant forall t :: t in ancestors <==> t in verified && exists j | 0 <= j < d :: t != verified[j] && InHistory(t, verified[j])
    {
      ancestors := ancestors + set t | t in verified && t != verified[d] && InHistory(t, verified[d]);
    }
    maximal := [];
    for i := 0 to |verified|
      invariant forall k: nat :: k in maximal <==> k < i && Maximal(verified, k)
      invariant forall a, b | 0 <= a < b < |maximal| :: maximal[a] < maximal[b]
      invariant forall a | 0 <= a < |maximal| :: maximal[a] < i
    {
      MarkedAncestor(verified, i);
      if verified[i] !in ancestors { maximal := maximal + [i]; }
    }
  }

  lemma MarkedAncestor(verified: seq<Commit>, i: nat)
    requires InOrder(verified) && i < |verified|
    ensures Maximal(verified, i) <==> !exists j | 0 <= j < |verified| :: verified[i] != verified[j] && InHistory(verified[i], verified[j])
  {
    forall j | 0 <= j < |verified| && j != i ensures verified[i] != verified[j] { TipsDiffer(verified, i, j); }
  }

  datatype Selection = Selected(tip: Commit) | NoneFound | AmbiguousTips(count: nat)

  /** Every usable tip lies in the history of `t`. */
  predicate Tops(tips: seq<Commit>, usable: Commit -> bool, t: Commit) {
    forall j | 0 <= j < |tips| && usable(tips[j]) :: InHistory(tips[j], t)
  }

  /** Two usable tips on different branches. */
  predicate Forked(tips: seq<Commit>, usable: Commit -> bool) {
    exists a, b | a in tips && b in tips :: usable(a) && usable(b) && Apart(a, b)
  }

  lemma MaximalFork(verified: seq<Commit>, maximal: seq<nat>, tips: seq<Commit>, usable: Commit -> bool)
    requires InOrder(verified) && Usable(verified, tips, usable) && |maximal| >= 2
    requires MaximalList(verified, maximal)
    ensures Forked(tips, usable)
  {
    var m, n := maximal[0], maximal[1];
    assert m in maximal && n in maximal;
    assert verified[m] in tips && verified[n] in tips && Apart(verified[m], verified[n]);
  }

  lemma SoleTops(verified: seq<Commit>, retained: int, ambiguous: bool, tips: seq<Commit>, usable: Commit -> bool, m: nat)
    requires Settled(verified, retained, ambiguous, tips, usable) && Sole(verified, m)
    ensures retained == m && Tops(tips, usable, verified[m])
  {
    SoleIsRetained(verified, retained, ambiguous, m);
    forall j | 0 <= j < |tips| && usable(tips[j]) ensures InHistory(tips[j], verified[m]) { UnderSole(tips[j], verified, m); }
  }

  lemma SeveralFork(verified: seq<Commit>, maximal: seq<nat>, tips: seq<Commit>, usable: Commit -> bool)
    requires InOrder(verified) && Usable(verified, tips, usable) && verified != [] && |maximal| != 1
    requires MaximalList(verified, maximal)
    ensures |maximal| >= 2 && Forked(tips, usable)
  {
    CountMaximal(verified, maximal);
    MaximalFork(verified, maximal, tips, usable);
  }

  lemma OneTops(verified: seq<Commit>, retained: int, ambiguous: bool, tips: seq<Commit>, usable: Commit -> bool, maximal: seq<nat>)
    requires Settled(verified, retained, ambiguous, tips, usable) && MaximalList(verified, maximal) && |maximal| == 1
    ensures maximal[0] < |verified| && Picked(verified, retained, tips, usable, verified[maximal[0]])
  {
    OneMaximal(verified, maximal);
    SoleTops(verified, retained, ambiguous, tips, usable, maximal[0]);
  }

  /** Without an exact tip the only maximal one is selected. */
  method SelectMaximal(verified: seq<Commit>, retained: int, ambiguous: bool, tips: seq<Commit>, usable: Commit -> bool) returns (s: Selection)
    requires Settled(verified, retained, ambiguous, tips, usable) && verified != []
    ensures s.Selected? ==> Picked(verified, retained, tips, usable, s.tip)
    ensures s.AmbiguousTips? ==> s.count >= 2 && Forked(tips, usable)
    ensures !s.NoneFound?
  {
    var maximal := MaximalVerified(verified);
    if |maximal| != 1 {
      SeveralFork(verified, maximal, tips, usable);
      return AmbiguousTips(|maximal|);
    }
    OneTops(verified, retained, ambiguous, tips, usable, maximal);
    s := Selected(verified[maximal[0]]);
  }

  /** With an exact tip there is only one to verify. */
  method SelectExact(verified: seq<Commit>, retained: int, ambiguous: bool, tips: seq<Commit>, usable: Commit -> bool) returns (s: Selection)
    requires Settled(verified, retained, ambiguous, tips, usable) && verified != [] && |tips| == 1
    ensures s.Selected? && Picked(verified, retained, tips, usable, s.tip)
  {
    ExactOne(verified, tips);
    SoleTops(verified, retained, ambiguous, tips, usable, 0);
    s := Selected(verified[0]);
  }

  /** The retained tip, above every usable one. */
  predicate Picked(verified: seq<Commit>, retained: int, tips: seq<Commit>, usable: Commit -> bool, t: Commit) {
    0 <= retained < |verified| && t == verified[retained] && Tops(tips, usable, t)
  }

  predicate NoneUsable(tips: seq<Commit>, usable: Commit -> bool) {
    forall j | 0 <= j < |tips| :: !usable(tips[j])
  }

  lemma NothingVerified(verified: seq<Commit>, retained: int, ambiguous: bool, tips: seq<Commit>, usable: Commit -> bool)
    requires Settled(verified, retained, ambiguous, tips, usable)
    ensures verified == [] <==> NoneUsable(tips, usable)
  {
    if verified == [] {
      forall j | 0 <= j < |tips| ensures !usable(tips[j]) { assert !Under(tips[j], verified); }
    } else {
      assert verified[0] in tips && usable(verified[0]);
    }
  }

  lemma PickedUsable(verified: seq<Commit>, retained: int, tips: seq<Commit>, usable: Commit -> bool, t: Commit)
    requires Usable(verified, tips, usable) && Picked(verified, retained, tips, usable, t)
    ensures t in tips && usable(t)
  {}

  /** The repository kept on disk, if any. */
  function Kept(verified: seq<Commit>, retained: int): Option<Commit> {
    if 0 <= retained < |verified| then Some(verified[retained]) else None
  }

  /** The outcome for the tips that the loop verified. */
  method Select(verified: seq<Commit>, retained: int, ambiguous: bool, tips: seq<Commit>, exact: bool, usable: Commit -> bool) returns (s: Selection)
    requires Settled(verified, retained, ambiguous, tips, usable) && (exact ==> |tips| == 1)
    ensures s.Selected? ==> Picked(verified, retained, tips, usable, s.tip)
    ensures s.NoneFound? <==> verified == []
    ensures s.AmbiguousTips? ==> s.count >= 2 && Forked(tips, usable)
  {
    if verified == [] { return NoneFound; }
    if exact {
      s := SelectExact(verified, retained, ambiguous, tips, usable);
    } else {
      s := SelectMaximal(verified, retained, ambiguous, tips, usable);
    }
  }

  /** The selected tip is always the retained one: the repository to publish is never missing. */
  method SelectRecovery(tips: seq<Commit>, exact: bool, usable: Commit -> bool) returns (s: Selection, kept: Option<Commit>)
    requires exact ==> |tips| == 1
    ensures s.Selected? ==> kept == Some(s.tip) && s.tip in tips && usable(s.tip) && Tops(tips, usable, s.tip)
    ensures s.NoneFound? <==> NoneUsable(tips, usable)
    ensures s.AmbiguousTips? ==> s.count >= 2 && Forked(tips, usable)
  {
    var verified, retained, ambiguous := VerifyCandidates(tips, exact, usable);
    kept := Kept(verified, retained);
    NothingVerified(verified, retained, ambiguous, tips, usable);
    s := Select(verified, retained, ambiguous, tips, exact, usable);
    if s.Selected? { PickedUsable(verified, retained, tips, usable, s.tip); }
  }

  predicate Sole(verified: seq<Commit>, m: nat) {
    m < |verified| && Maximal(verified, m) && forall i | 0 <= i < |verified| && i != m :: !Maximal(verified, i)
  }

  lemma ExactOne(verified: seq<Commit>, tips: seq<Commit>)
    requires InOrder(verified) && verified != [] && |tips| == 1 && forall i | 0 <= i < |verified| :: verified[i] in tips
    ensures Sole(verified, 0)
  {
    assert forall i | 0 <= i < |verified| :: verified[i] == tips[0];
    if |verified| > 1 { TipsDiffer(verified, 0, 1); }
  }

  lemma SoleIsRetained(verified: seq<Commit>, retained: int, ambiguous: bool, m: nat)
    requires Keeps(verified, retained, ambiguous) && Sole(verified, m)
    ensures !ambiguous && retained == m
  {
    AmbiguousExactly(verified, retained, ambiguous);
  }

  lemma UnderSole(t: Commit, verified: seq<Commit>, m: nat)
    requires InOrder(verified) && Sole(verified, m) && Under(t, verified)
    ensures InHistory(t, verified[m])
  {
    var i :| 0 <= i < |verified| && InHistory(t, verified[i]);
    var top := MaximalAbove(verified, i);
    HistoryTransitive(t, verified[i], verified[top]);
  }

  lemma OneMaximal(verified: seq<Commit>, maximal: seq<nat>)
    requires |maximal| == 1 && MaximalList(verified, maximal)
    ensures Sole(verified, maximal[0])
  {
    assert maximal[0] in maximal;
    forall i | 0 <= i < |verified| && i != maximal[0] ensures !Maximal(verified, i) { assert i !in maximal; }
  }

  lemma CountMaximal(verified: seq<Commit>, maximal: seq<nat>)
    requires InOrder(verified) && verified != [] && |maximal| != 1
    requires MaximalList(verified, maximal)
    ensures |maximal| >= 2
  {
    var m := MaximalAbove(verified, 0);
    assert m in maximal;
  }
}
