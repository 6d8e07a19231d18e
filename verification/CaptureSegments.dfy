/** Capturing a plan in segments: any number of interrupted runs leaves a chain of durable segments that
    partition the plan, and no plaintext gets two object rows. */
module CaptureSegments {
  import opened Model

  type Digest = string
  type Sizes = map<Digest, nat>

  const MAX_PATHS := 10_000
  const MAX_MEMBERS := 10_000

  /** A captured plan position; links have no content. */
  datatype Entry = Entry(position: nat, content: Option<(Digest, nat)>)

  /** A hash is taken to be injective, so the content stands for it. */
  datatype Hash = NoHash | HashOf(segment: Segment)
  datatype Segment = Segment(number: nat, start: nat, end: nat, previous: Hash, index: seq<Entry>, objects: Sizes)

  datatype Saved = Saved(nextPlan: nat, count: nat, hash: Hash, entries: nat)

  // ---- chains -------------------------------------------------------------------------------

  function EndOf(segs: seq<Segment>, i: nat): nat
    requires i <= |segs|
  {
    if i == 0 then 0 else segs[i - 1].end
  }

  function HashAt(segs: seq<Segment>, i: nat): Hash
    requires i <= |segs|
  {
    if i == 0 then NoHash else HashOf(segs[i - 1])
  }

  predicate Link(segs: seq<Segment>, i: nat, plan: nat)
    requires i < |segs|
  {
    && segs[i].number == i && segs[i].start == EndOf(segs, i) && segs[i].start <= segs[i].end <= plan
    && segs[i].previous == HashAt(segs, i)
  }

  function Count(segs: seq<Segment>): nat {
    if segs == [] then 0 else Count(segs[..|segs| - 1]) + |segs[|segs| - 1].index|
  }

  predicate Chained(segs: seq<Segment>, p: Saved, plan: nat) {
    && (forall i | 0 <= i < |segs| :: Link(segs, i, plan))
    && p.count == |segs| && p.nextPlan == EndOf(segs, |segs|) && p.hash == HashAt(segs, |segs|) && p.entries == Count(segs)
  }

  lemma ChainGrows(segs: seq<Segment>, p: Saved, plan: nat, s: Segment)
    requires Chained(segs, p, plan)
    requires s.number == p.count && s.start == p.nextPlan && s.start <= s.end <= plan && s.previous == p.hash
    ensures Chained(segs + [s], Saved(s.end, p.count + 1, HashOf(s), p.entries + |s.index|), plan)
  {
    var all := segs + [s];
    forall i | 0 <= i < |all| ensures Link(all, i, plan) {
      if i < |segs| { assert Link(segs, i, plan); }
    }
    assert all[..|segs|] == segs;
  }

  lemma {:induction false} EndsRise(segs: seq<Segment>, i: nat, j: nat, plan: nat)
    requires i <= j <= |segs| && forall k | 0 <= k < |segs| :: Link(segs, k, plan)
    ensures EndOf(segs, i) <= EndOf(segs, j)
  {
    if i < j {
      EndsRise(segs, i, j - 1, plan);
      assert Link(segs, j - 1, plan);
    }
  }

  /** Every captured position lies in exactly one segment. */
  lemma Partition(segs: seq<Segment>, p: Saved, plan: nat, position: nat) returns (i: nat)
    requires Chained(segs, p, plan) && position < p.nextPlan
    ensures i < |segs| && segs[i].start <= position < segs[i].end
    ensures forall j | 0 <= j < |segs| && segs[j].start <= position < segs[j].end :: j == i
  {
    i := 0;
    while EndOf(segs, i + 1) <= position
      invariant i < |segs| && EndOf(segs, i) <= position
      decreases |segs| - i
    {
      i := i + 1;
    }
    assert Link(segs, i, plan);
    forall j | 0 <= j < |segs| && segs[j].start <= position < segs[j].end ensures j == i {
      assert Link(segs, j, plan);
      if j < i { EndsRise(segs, j + 1, i, plan); }
      if i < j { EndsRise(segs, i + 1, j, plan); }
    }
  }

  // ---- contents -----------------------------------------------------------------------------

  /** Base catalog and segment objects before segment `i`. */
  function Known(base: Sizes, segs: seq<Segment>, i: nat): Sizes
    requires i <= |segs|
  {
    if i == 0 then base else Known(base, segs, i - 1) + segs[i - 1].objects
  }

  predicate Covered(e: Entry, known: Sizes) {
    e.content.Some? ==> e.content.value.0 in known && known[e.content.value.0] == e.content.value.1
  }

  predicate AllCovered(index: seq<Entry>, known: Sizes) {
    forall k | 0 <= k < |index| :: Covered(index[k], known)
  }

  predicate Between(index: seq<Entry>, start: nat, end: nat) {
    && (forall k | 0 <= k < |index| :: start <= index[k].position < end)
    && forall k, l | 0 <= k < l < |index| :: index[k].position < index[l].position
  }

  predicate HasContent(index: seq<Entry>, h: Digest) {
    index != [] && (Holds(index[|index| - 1], h) || HasContent(index[..|index| - 1], h))
  }

  predicate Holds(e: Entry, h: Digest) {
    e.content.Some? && e.content.value.0 == h
  }

  /** Every object is the content of an entry. */
  predicate Sourced(objects: Sizes, index: seq<Entry>) {
    forall h | h in objects :: HasContent(index, h)
  }

  lemma SourcedMore(objects: Sizes, index: seq<Entry>, e: Entry)
    requires Sourced(objects, index)
    ensures Sourced(objects, index + [e])
    ensures e.content.Some? ==> Sourced(objects[e.content.value.0 := e.content.value.1], index + [e])
  {
    assert (index + [e])[..|index|] == index;
  }

  predicate Bounded(s: Segment) {
    s.end <= s.start + MAX_PATHS
  }

  predicate AllBounded(segs: seq<Segment>) {
    forall i | 0 <= i < |segs| :: Bounded(segs[i])
  }

  /** New objects are new, and every file captured so far has its object. */
  predicate SegmentOk(base: Sizes, segs: seq<Segment>, i: nat)
    requires i < |segs|
  {
    && segs[i].objects.Keys !! Known(base, segs, i).Keys && Sourced(segs[i].objects, segs[i].index)
    && Between(segs[i].index, segs[i].start, segs[i].end)
    && AllCovered(segs[i].index, Known(base, segs, i + 1))
  }

  predicate Recorded(base: Sizes, segs: seq<Segment>) {
    forall i | 0 <= i < |segs| :: SegmentOk(base, segs, i)
  }

  lemma {:induction false} KnownPrefix(base: Sizes, segs: seq<Segment>, s: Segment, i: nat)
    requires i <= |segs|
    ensures Known(base, segs + [s], i) == Known(base, segs, i)
  {
    if i > 0 { KnownPrefix(base, segs, s, i - 1); }
  }

  lemma RecordGrows(base: Sizes, segs: seq<Segment>, s: Segment)
    requires Recorded(base, segs) && s.objects.Keys !! Known(base, segs, |segs|).Keys
    requires Between(s.index, s.start, s.end) && AllCovered(s.index, Known(base, segs, |segs|) + s.objects)
    requires Sourced(s.objects, s.index)
    ensures Recorded(base, segs + [s]) && Known(base, segs + [s], |segs| + 1) == Known(base, segs, |segs|) + s.objects
  {
    var all := segs + [s];
    KnownPrefix(base, segs, s, |segs|);
    forall i | 0 <= i < |all| ensures SegmentOk(base, all, i) {
      if i < |segs| {
        KnownPrefix(base, segs, s, i);
        KnownPrefix(base, segs, s, i + 1);
        assert SegmentOk(base, segs, i);
      }
    }
  }

  lemma {:induction false} KnownKeeps(base: Sizes, segs: seq<Segment>, i: nat, j: nat, h: Digest)
    requires Recorded(base, segs) && i <= j <= |segs| && h in Known(base, segs, i)
    ensures h in Known(base, segs, j) && Known(base, segs, j)[h] == Known(base, segs, i)[h]
  {
    if i < j {
      KnownKeeps(base, segs, i, j - 1, h);
      assert SegmentOk(base, segs, j - 1);
    }
  }

  /** No plaintext hash has two object rows, in the base and the segments together. */
  lemma OneRow(base: Sizes, segs: seq<Segment>, i: nat, j: nat, h: Digest)
    requires Recorded(base, segs) && i < j < |segs|
    ensures !(h in segs[i].objects && h in segs[j].objects) && !(h in base && h in segs[j].objects)
  {
    assert SegmentOk(base, segs, j);
    if h in segs[i].objects { KnownKeeps(base, segs, i + 1, j, h); }
    if h in base { KnownKeeps(base, segs, 0, j, h); }
  }

  // ---- validation of the durable chain ------------------------------------------------------

  /** Walks the staged descriptors up to the recorded count. */
  method ValidateCaptureSegments(files: map<nat, Segment>, p: Saved, plan: nat) returns (ok: bool)
    ensures ok <==> (forall i | 0 <= i < p.count :: i in files) && Chained(Segments(files, p.count), p, plan)
  {
    var cursor, previous, entries := 0, NoHash, 0;
    ghost var segs: seq<Segment> := [];
    for number := 0 to p.count
      invariant forall i | 0 <= i < number :: i in files
      invariant segs == Segments(files, number) && cursor == EndOf(segs, number) && previous == HashAt(segs, number) && entries == Count(segs)
      invariant forall i | 0 <= i < number :: Link(segs, i, plan)
    {
      if number !in files { return false; }
      var s := files[number];
      if s.number != number || s.start != cursor || s.end < cursor || s.end > plan || s.previous != previous {
        BrokenLink(files, p, number, plan);
        return false;
      }
      segs := segs + [s];
      assert segs == Segments(files, number + 1) && segs[..number] == Segments(files, number);
      forall i | 0 <= i <= number ensures Link(segs, i, plan) {
        if i < number { assert Link(Segments(files, number), i, plan); }
      }
      cursor, previous, entries := s.end, HashOf(s), entries + |s.index|;
    }
    ok := cursor == p.nextPlan && previous == p.hash && entries == p.entries;
  }

  function Segments(files: map<nat, Segment>, n: nat): seq<Segment>
    requires forall i | 0 <= i < n :: i in files
  {
    seq(n, i requires 0 <= i < n => files[i])
  }

  lemma BrokenLink(files: map<nat, Segment>, p: Saved, number: nat, plan: nat)
    requires number < p.count && forall i | 0 <= i <= number :: i in files
    requires var segs := Segments(files, number);
             var s := files[number];
             s.number != number || s.start != EndOf(segs, number) || s.end < EndOf(segs, number) || s.end > plan || s.previous != HashAt(segs, number)
    ensures (forall i | 0 <= i < p.count :: i in files) ==> !Chained(Segments(files, p.count), p, plan)
  {
    if forall i | 0 <= i < p.count :: i in files {
      var segs := Segments(files, p.count);
      assert EndOf(segs, number) == EndOf(Segments(files, number), number) && HashAt(segs, number) == HashAt(Segments(files, number), number);
      assert !Link(segs, number, plan);
    }
  }

  // ---- capture runs -------------------------------------------------------------------------

  datatype Captured = Omitted | Symlink | File(hash: Digest, size: nat)

  /** The pending rows from `start` up to `position` have their content known or in the open pack. */
  predicate Consistent(known: Sizes, pack: Sizes, pending: seq<Entry>, start: nat, position: nat) {
    && pack.Keys !! known.Keys && Between(pending, start, position) && AllCovered(pending, known + pack)
    && Sourced(pack, pending)
  }

  lemma NoteKnown(known: Sizes, pack: Sizes, pending: seq<Entry>, start: nat, position: nat, e: Entry)
    requires Consistent(known, pack, pending, start, position) && start <= position
    requires e.position == position && Covered(e, known + pack)
    ensures Consistent(known, pack, pending + [e], start, position + 1)
  {
    SourcedMore(pack, pending, e);
  }

  lemma NoteNew(known: Sizes, pack: Sizes, pending: seq<Entry>, start: nat, position: nat, hash: Digest, size: nat)
    requires Consistent(known, pack, pending, start, position) && start <= position && hash !in known && hash !in pack
    ensures Consistent(known, pack[hash := size], pending + [Entry(position, Some((hash, size)))], start, position + 1)
  {
    var more := pack[hash := size];
    SourcedMore(pack, pending, Entry(position, Some((hash, size))));
    forall k | 0 <= k < |pending| ensures Covered(pending[k], known + more) { assert Covered(pending[k], known + pack); }
  }

  lemma NoteNothing(known: Sizes, pack: Sizes, pending: seq<Entry>, start: nat, position: nat)
    requires Consistent(known, pack, pending, start, position)
    ensures Consistent(known, pack, pending, start, position + 1)
  {}

  /** The durable transaction files of one capture, and the volatile state of the run in progress. */
  class Capture {
    const plan: nat
    const base: Sizes
    const target: nat
    var saved: Saved
    var files: map<nat, Segment>

    var dedup: Sizes
    var pending: seq<Entry>
    var open: bool     // a pack is being built
    var pack: Sizes    // its objects
    var packSize: nat
    var packMembers: nat

    constructor (plan: nat, base: Sizes, target: nat)
      ensures Durable() && this.plan == plan && this.base == base && saved.nextPlan == 0
    {
      this.plan, this.base, this.target := plan, base, target;
      saved, files := Saved(0, 0, NoHash, 0), map[];
      dedup, pending, open, pack, packSize, packMembers := map[], [], false, map[], 0, 0;
    }

    predicate Staged()
      reads `saved, `files
    {
      forall i | 0 <= i < saved.count :: i in files
    }

    function Chain(): seq<Segment>
      requires Staged()
      reads `saved, `files
    {
      Segments(files, saved.count)
    }

    /** What every crash leaves behind. */
    predicate Durable()
      reads `saved, `files
    {
      Staged() && Chained(Chain(), saved, plan) && Recorded(base, Chain()) && AllBounded(Chain())
    }

    /** Base catalog and recorded objects. */
    function Objects(): Sizes
      requires Staged()
      reads `saved, `files
    {
      Known(base, Chain(), saved.count)
    }

    /** A run that has dealt with everything before `end`. */
    predicate Ready(end: nat)
      reads this
    {
      && Durable() && saved.nextPlan <= end <= plan && end <= saved.nextPlan + MAX_PATHS
      && dedup == Objects() && Consistent(dedup, pack, pending, saved.nextPlan, end)
      && (!open ==> pack == map[])
    }

    predicate Running(position: nat)
      reads this
    {
      Ready(position) && position < saved.nextPlan + MAX_PATHS && (open ==> packSize <= target && packMembers <= MAX_MEMBERS)
    }

    lemma NextInPlan()
      requires Durable()
      ensures saved.nextPlan <= plan
    {
      if saved.count > 0 { assert Link(Chain(), saved.count - 1, plan); }
    }

    /** Resuming rebuilds the deduplication index from the base and the recorded segments. */
    method Resume()
      requires Durable()
      modifies `dedup, `pending, `open, `pack, `packSize, `packMembers
      ensures Running(saved.nextPlan) && pending == [] && !open
    {
      dedup := LoadDedup();
      pending, open, pack, packSize, packMembers := [], false, map[], 0, 0;
      NextInPlan();
    }

    method LoadDedup() returns (known: Sizes)
      requires Durable()
      ensures known == Objects()
    {
      known := base;
      for i := 0 to saved.count
        invariant known == Known(base, Chain(), i)
      {
        known := known + files[i].objects;
      }
    }

    /** Writes the next segment and then records it; either may be the last thing that happens. */
    method WriteCaptureSegment(end: nat, index: seq<Entry>, objects: Sizes) returns (ok: bool)
      requires Durable() && saved.nextPlan <= end <= plan && end <= saved.nextPlan + MAX_PATHS
      requires Consistent(Objects(), objects, index, saved.nextPlan, end)
      modifies `saved, `files
      ensures Durable()
      ensures ok ==> saved.nextPlan == end && saved.count == old(saved.count) + 1 && Objects() == old(Objects()) + objects
      ensures !ok ==> saved == old(saved) || saved.nextPlan == end
    {
      var s := Segment(saved.count, saved.nextPlan, end, saved.hash, index, objects);
      ghost var chain := Chain();
      ChainGrows(chain, saved, plan, s);
      RecordGrows(base, chain, s);
      var crash: bool := *;
      if crash { return false; }
      files := files[saved.count := s];
      assert Chain() == chain;
      crash := *;
      if crash { return false; }
      saved := Saved(end, saved.count + 1, HashOf(s), saved.entries + |index|);
      assert Chain() == chain + [s];
      crash := *;
      ok := !crash;
    }

    /** Ends the open pack, if any, and records everything up to `end`. */
    method ClosePack(end: nat) returns (ok: bool)
      requires Ready(end)
      modifies this
      ensures Durable() && (!ok ==> saved == old(saved) || saved.nextPlan == end)
      ensures ok ==> Running(end) && pending == [] && !open && saved.nextPlan == end && dedup == old(dedup) + old(pack)
    {
      var objects := pack;
      ok := WriteCaptureSegment(end, pending, objects);
      dedup, open, pack, packSize, packMembers, pending := dedup + objects, false, map[], 0, 0, [];
    }

    /** Closes the segment when it has grown to its limit of paths. */
    method Finish(position: nat) returns (ok: bool)
      requires Ready(position + 1) && (open ==> packSize <= target && packMembers <= MAX_MEMBERS)
      modifies this
      ensures Durable() && (ok ==> Running(position + 1))
    {
      if position + 1 - saved.nextPlan < MAX_PATHS { return true; }
      ok := ClosePack(position + 1);
    }

    /** One plan position: omitted, a link, content that is already known, or a new object. */
    method ProcessPlanned(position: nat, c: Captured) returns (ok: bool)
      requires Running(position) && position < plan
      modifies this
      ensures Durable() && (ok ==> Running(position + 1))
    {
      if c.Omitted? {
        NoteNothing(dedup, pack, pending, saved.nextPlan, position);
        ok := Finish(position);
        return;
      }
      var content := if c.Symlink? then None else Some((c.hash, c.size));
      if c.Symlink? || c.hash in dedup || c.hash in pack {
        if c.File? && (if c.hash in dedup then dedup[c.hash] else pack[c.hash]) != c.size { return false; }
        NoteKnown(dedup, pack, pending, saved.nextPlan, position, Entry(position, content));
        pending := pending + [Entry(position, content)];
        ok := Finish(position);
        return;
      }
      ok := AddObject(position, c.hash, c.size);
    }

    method AddObject(position: nat, hash: Digest, size: nat) returns (ok: bool)
      requires Running(position) && position < plan && hash !in dedup && hash !in pack
      modifies this
      ensures Durable() && (ok ==> Running(position + 1))
    {
      if open && (size > target || packSize + size > target || packMembers >= MAX_MEMBERS) {
        ok := ClosePack(position);
        if !ok { return; }
      }
      if !open { open, packSize, packMembers := true, 0, 0; }
      NoteNew(dedup, pack, pending, saved.nextPlan, position, hash, size);
      pack, packSize, packMembers := pack[hash := size], packSize + size, packMembers + 1;
      pending := pending + [Entry(position, Some((hash, size)))];
      if size > target {
        ok := ClosePack(position + 1);
      } else {
        ok := Finish(position);
      }
    }

    /** One run: resumes, goes through the rest of the plan, and records the last segment. Any step may
        be its last. */
    method Run() returns (complete: bool)
      requires Durable()
      modifies this
      ensures Durable() && (complete ==> saved.nextPlan == plan)
    {
      Resume();
      var position := saved.nextPlan;
      while position < plan
        invariant Running(position)
      {
        var stop: bool, kind: int, hash: Digest, size: int := *, *, *, *;
        if stop { return false; }
        var c := if kind == 0 then Omitted else if kind == 1 then Symlink else File(hash, if size < 0 then 0 else size);
        var ok := ProcessPlanned(position, c);
        if !ok { return false; }
        position := position + 1;
      }
      complete := ClosePack(plan);
    }
  }

  /** Any pattern of interrupted runs keeps the durable segments in order and complete. */
  method AnyRuns(c: Capture, runs: nat) returns (complete: bool)
    requires c.Durable()
    modifies c
    ensures c.Durable() && (complete ==> c.saved.nextPlan == c.plan)
  {
    complete := false;
    for i := 0 to runs
      invariant c.Durable() && !complete
    {
      complete := c.Run();
      if complete { return; }
    }
  }
}
