/** The deduplication table of a capture: planned for the base objects and the plan positions, it takes
    every row that any pattern of interrupted runs can have recorded. */
module CaptureDedup {
  import opened CaptureSegments
  import opened HashTables

  // ---- as many objects as positions -----------------------------------------------------------

  /** The objects of a segment come from entries at different positions. */
  lemma {:induction false} FewObjects(objects: Sizes, index: seq<Entry>, start: nat, end: nat)
    requires Sourced(objects, index) && Between(index, start, end) && start <= end
    ensures start + |objects| <= end
    decreases |index|
  {
    if index == [] {
      assert forall h | h in objects :: HasContent(index, h);
      assert objects.Keys == {};
      assert |objects.Keys| == |objects|;
    } else {
      var e, init := index[|index| - 1], index[..|index| - 1];
      var rest := if e.content.Some? then objects - {e.content.value.0} else objects;
      forall h | h in rest ensures HasContent(init, h) { assert HasContent(index, h); }
      FewObjects(rest, init, start, e.position);
      if e.content.Some? { OneLess(objects, e.content.value.0); }
    }
  }

  lemma OneLess(objects: Sizes, h: CaptureSegments.Digest)
    ensures |objects| <= |objects - {h}| + 1
  {
    assert objects.Keys <= (objects - {h}).Keys + {h};
    SubsetSize(objects.Keys, (objects - {h}).Keys + {h});
    assert |objects.Keys| == |objects| && |(objects - {h}).Keys| == |objects - {h}|;
  }

  /** Object rows in the first `i` segments. */
  function Rows(segs: seq<Segment>, i: nat): nat
    requires i <= |segs|
  {
    if i == 0 then 0 else Rows(segs, i - 1) + |segs[i - 1].objects|
  }

  /** There are at most as many object rows as plan positions dealt with. */
  lemma {:induction false} RowsWithinPlan(base: Sizes, segs: seq<Segment>, plan: nat, i: nat)
    requires (forall k | 0 <= k < |segs| :: CaptureSegments.Link(segs, k, plan)) && Recorded(base, segs) && i <= |segs|
    ensures Rows(segs, i) <= EndOf(segs, i) <= plan
  {
    if i > 0 {
      RowsWithinPlan(base, segs, plan, i - 1);
      assert CaptureSegments.Link(segs, i - 1, plan) && SegmentOk(base, segs, i - 1);
      FewObjects(segs[i - 1].objects, segs[i - 1].index, segs[i - 1].start, segs[i - 1].end);
    }
  }

  // ---- loading the table ----------------------------------------------------------------------

  /** The rows are those of the map. */
  predicate Lists(ps: seq<Plain>, m: Sizes) {
    && (forall k | 0 <= k < |ps| :: ps[k].hash in m && m[ps[k].hash] == ps[k].size)
    && forall h | h in m :: Plain(h, m[h]) in ps
  }

  method ListRows(m: Sizes) returns (ps: seq<Plain>)
    ensures Lists(ps, m) && |ps| == |m|
  {
    ps := [];
    var todo := m.Keys;
    while todo != {}
      invariant todo <= m.Keys && |ps| + |todo| == |m.Keys|
      invariant forall k | 0 <= k < |ps| :: ps[k].hash in m && m[ps[k].hash] == ps[k].size
      invariant forall h | h in m && h !in todo :: Plain(h, m[h]) in ps
      decreases todo
    {
      var h :| h in todo;
      ps, todo := ps + [Plain(h, m[h])], todo - {h};
    }
  }

  lemma ListsMore(ps: seq<Plain>, m: Sizes, qs: seq<Plain>, n: Sizes)
    requires Lists(ps, m) && Lists(qs, n) && m.Keys !! n.Keys
    ensures Lists(ps + qs, m + n)
  {}

  lemma ListsAgree(ps: seq<Plain>, m: Sizes)
    requires Lists(ps, m)
    ensures Agree(ps)
  {}

  /** The base catalog's rows and those of the recorded segments, in order. */
  method ListKnown(c: Capture) returns (ps: seq<Plain>)
    requires c.Durable()
    ensures Lists(ps, c.Objects()) && |ps| <= |c.base| + c.plan
  {
    ghost var segs := c.Chain();
    ps := ListRows(c.base);
    for i := 0 to c.saved.count
      invariant Lists(ps, Known(c.base, segs, i)) && |ps| == |c.base| + Rows(segs, i)
    {
      var rows := ListRows(c.files[i].objects);
      assert SegmentOk(c.base, segs, i);
      ListsMore(ps, Known(c.base, segs, i), rows, segs[i].objects);
      ps := ps + rows;
    }
    RowsWithinPlan(c.base, segs, c.plan, c.saved.count);
  }

  /** The table answers as the recorded sizes do. */
  ghost predicate Answers(contents: map<HashTables.Digest, Plain>, m: Sizes) {
    forall h :: (h in contents <==> h in m) && (h in m ==> contents[h] == Plain(h, m[h]))
  }

  lemma ListedAnswers(contents: map<HashTables.Digest, Plain>, ps: seq<Plain>, m: Sizes)
    requires HashTables.Records(contents, ps) && Lists(ps, m)
    ensures Answers(contents, m)
  {
    forall h ensures (h in contents <==> h in m) && (h in m ==> contents[h] == Plain(h, m[h])) {
      if h in contents { var k :| 0 <= k < |ps| && ps[k] == contents[h]; }
      if h in m { var k :| 0 <= k < |ps| && ps[k] == Plain(h, m[h]); }
    }
  }

  /** Planned for base objects and plan positions together, the table takes every row and then answers
      exactly as the base catalog and the recorded segments do. */
  method PrepareCaptureDedup(c: Capture, bucket: HashTables.Digest -> nat) returns (t: Table<HashTables.Digest, Plain>)
    requires c.Durable()
    ensures fresh(t) && t.Valid() && t.key == HashTables.HashOf && Answers(t.contents, c.Objects())
    ensures 2 * (|c.base| + c.plan) <= t.slots.Length
  {
    var capacity := Capacity(|c.base| + c.plan);
    t := new Table(capacity, HashTables.HashOf, bucket);
    var ps := ListKnown(c);
    ListsAgree(ps, c.Objects());
    var ok := InsertAll(t, ps);
    ListedAnswers(t.contents, ps, c.Objects());
  }
}
