/** Steps between the states of a history: an ordinary step only adds, a repair step only relocates. */
module Transitions {
  import opened Bytes
  import opened ExternalSort
  import opened Canonical
  import opened IndexText
  import opened Catalogs
  import opened CatalogCheck
  import opened RowMerge
  import AncestorSweep
  import RunFiles

  /** A mirror's name and everything it is bound to. */
  datatype Mirror = Mirror(name: Str, binding: Str)

  /** The seven blobs of a state; the three catalogs as their rows. */
  datatype RepoState = RepoState(
    format: Str, ignore: Str, keys: Str, mirrors: seq<Mirror>,
    index: seq<IndexEntry>, objects: seq<ObjectEntry>, packs: seq<PackEntry>)

  function Names(mirrors: seq<Mirror>): seq<Str> {
    seq(|mirrors|, i requires 0 <= i < |mirrors| => mirrors[i].name)
  }

  predicate MirrorsOk(mirrors: seq<Mirror>) {
    Strict(Names(mirrors)) && forall i | 0 <= i < |mirrors| :: MirrorOk(mirrors[i])
  }

  /** The fields come from canonical text, so they hold no tab in the name and no line break. */
  predicate MirrorOk(m: Mirror) {
    m.name != [] && TAB !in m.name && Unbroken(m.name) && Unbroken(m.binding)
  }

  predicate StateOk(s: RepoState) {
    CatalogsOk(s.index, s.objects, s.packs) && MirrorsOk(s.mirrors)
  }

  function ObjectKey(o: ObjectEntry): RowKey { (o.hash, 0) }

  function PackKeyOf(p: PackEntry): RowKey { (p.pack, p.number) }

  lemma ObjectsRise(objects: seq<ObjectEntry>)
    requires ObjectsOk(objects)
    ensures Rising(objects, ObjectKey)
  {
    forall i, j | 0 <= i < j < |objects| ensures KeyLess(ObjectKey(objects[i]), ObjectKey(objects[j])) {
      assert Less(Hashes(objects)[i], Hashes(objects)[j]);
    }
  }

  lemma PacksRise(packs: seq<PackEntry>)
    requires PacksOk(packs)
    ensures Rising(packs, PackKeyOf)
  {
    forall i, j | 0 <= i < j < |packs| ensures KeyLess(PackKeyOf(packs[i]), PackKeyOf(packs[j])) {
      PackKeysRise(packs, i, j);
    }
  }

  // ---- repair -------------------------------------------------------------------------------

  /** Everything but the object ID. */
  predicate Logical(p: PackEntry, q: PackEntry) {
    p.(id := []) == q.(id := [])
  }

  predicate OthersEqual(a: RepoState, b: RepoState) {
    a.(packs := []) == b.(packs := [])
  }

  predicate Relocates(a: seq<PackEntry>, b: seq<PackEntry>) {
    |a| == |b| && a != b && forall i | 0 <= i < |a| :: Logical(a[i], b[i])
  }

  datatype RepairCheck = Other | Relocated | Broken

  method IsRepair(before: RepoState, after: RepoState) returns (r: RepairCheck)
    ensures r == Other <==> !OthersEqual(before, after)
    ensures r == Relocated <==> OthersEqual(before, after) && Relocates(before.packs, after.packs)
  {
    if !OthersEqual(before, after) { return Other; }
    var a, b, changed, i := before.packs, after.packs, 0, 0;
    while i < |a| && i < |b|
      invariant 0 <= i <= |a| && i <= |b| && changed >= 0
      invariant forall j | 0 <= j < i :: Logical(a[j], b[j])
      invariant changed == 0 <==> forall j | 0 <= j < i :: a[j] == b[j]
    {
      if !Logical(a[i], b[i]) { return Broken; }
      if a[i].id != b[i].id { changed := changed + 1; }
      i := i + 1;
    }
    if |a| != |b| || changed == 0 { return Broken; }
    r := Relocated;
  }

  // ---- ordinary extension -------------------------------------------------------------------

  predicate Kept<T(==)>(before: seq<T>, after: seq<T>) {
    forall x | x in before :: x in after
  }

  lemma SameCount(packs: seq<PackEntry>, i: nat, j: nat)
    requires PacksOk(packs) && i < |packs| && j < |packs| && packs[i].pack == packs[j].pack
    ensures packs[i].count == packs[j].count
  {
    if i < j { SameCountUp(packs, i, j); } else if j < i { SameCountUp(packs, j, i); }
  }

  lemma SameCountUp(packs: seq<PackEntry>, i: nat, j: nat)
    requires PacksOk(packs) && i < j < |packs| && packs[i].pack == packs[j].pack
    ensures packs[i].count == packs[j].count
  {
    var p := packs[i];
    assert Complete(packs, i);
    var next := i - p.number + p.count;
    if j < next {
      assert SamePack(packs[j], p);
    } else {
      if next < j { PackKeysRise(packs, next, j); }
      AtMostTransitive(p.pack, packs[next].pack, packs[j].pack);
      LessIrreflexive(p.pack);
    }
  }

  /** At an added row: its pack is neither the last one matched nor the next one expected. */
  lemma NotExtended(before: seq<PackEntry>, after: seq<PackEntry>, i: nat, j: nat)
    requires PacksOk(before) && PacksOk(after) && Between(before, after, PackKeyOf, i, j) && j < |after|
    requires i < |before| ==> KeyLess(PackKeyOf(after[j]), PackKeyOf(before[i]))
    requires i > 0 ==> before[i - 1] in after
    ensures i > 0 ==> after[j].pack != before[i - 1].pack
    ensures i < |before| ==> after[j].pack != before[i].pack
  {
    var q := after[j];
    LessIrreflexive(q.pack);
    assert Complete(after, j);
    if i > 0 {
      var p := before[i - 1];
      assert KeyLess(PackKeyOf(p), PackKeyOf(q));
      NextPart(before, i - 1);
      var k :| 0 <= k < |after| && after[k] == p;
      if q.pack == p.pack { SameCount(after, k, j); }
    }
    if i < |before| { PartBefore(before, i); }
  }

  lemma NextPart(packs: seq<PackEntry>, i: nat)
    requires PacksOk(packs) && i < |packs|
    ensures packs[i].number + 1 < packs[i].count ==>
              i + 1 < |packs| && packs[i + 1].pack == packs[i].pack && packs[i + 1].number == packs[i].number + 1
  {
    assert Complete(packs, i);
    if packs[i].number + 1 < packs[i].count { assert SamePack(packs[i + 1], packs[i]); }
  }

  lemma PartBefore(packs: seq<PackEntry>, i: nat)
    requires PacksOk(packs) && i < |packs|
    ensures packs[i].number > 0 ==> i > 0 && packs[i - 1].pack == packs[i].pack && packs[i - 1].number == packs[i].number - 1
  {
    assert Complete(packs, i);
    if packs[i].number > 0 { assert SamePack(packs[i - 1], packs[i]); }
  }

  /** So its pack is listed nowhere in the old catalog. */
  lemma PackIsNew(before: seq<PackEntry>, after: seq<PackEntry>, i: nat, j: nat)
    requires PacksOk(before) && PacksOk(after) && Between(before, after, PackKeyOf, i, j) && j < |after|
    requires i < |before| ==> KeyLess(PackKeyOf(after[j]), PackKeyOf(before[i]))
    requires i > 0 ==> before[i - 1] in after
    ensures !PackListed(before, after[j].pack)
  {
    NotExtended(before, after, i, j);
    var h := after[j].pack;
    forall k | 0 <= k < |before| ensures before[k].pack != h {
      LessIrreflexive(h);
      if k < i {
        assert KeyLess(PackKeyOf(before[i - 1]), PackKeyOf(after[j]));
        if k < i - 1 {
          PackKeysRise(before, k, i - 1);
          AtMostTransitive(before[k].pack, before[i - 1].pack, h);
        }
      } else if k > i {
        PackKeysRise(before, i, k);
        AtMostTransitive(h, before[i].pack, before[k].pack);
      }
    }
  }

  /** The hashes collected so far: the packs among the rows passed that the old catalog lacks. */
  predicate NewPacks(before: seq<PackEntry>, passed: seq<PackEntry>, hashes: seq<Str>) {
    && Strict(hashes)
    && (forall k | 0 <= k < |passed| :: PackListed(before, passed[k].pack) || passed[k].pack in hashes)
    && forall m | 0 <= m < |hashes| :: PackListed(passed, hashes[m]) && !PackListed(before, hashes[m])
  }

  lemma PassedGrows(before: seq<PackEntry>, passed: seq<PackEntry>, hashes: seq<Str>, e: PackEntry)
    requires NewPacks(before, passed, hashes) && (PackListed(before, e.pack) || e.pack in hashes)
    ensures NewPacks(before, passed + [e], hashes)
  {
    forall m | 0 <= m < |hashes| ensures PackListed(passed + [e], hashes[m]) { StillListed(passed, e, hashes[m]); }
  }

  lemma StillListed(passed: seq<PackEntry>, e: PackEntry, h: Str)
    requires PackListed(passed, h)
    ensures PackListed(passed + [e], h)
  {
    var k :| 0 <= k < |passed| && passed[k].pack == h;
    assert (passed + [e])[k].pack == h;
  }

  lemma NewPackFound(before: seq<PackEntry>, passed: seq<PackEntry>, hashes: seq<Str>, e: PackEntry)
    requires NewPacks(before, passed, hashes) && !PackListed(before, e.pack)
    requires forall k | 0 <= k < |passed| :: Less(passed[k].pack, e.pack)
    ensures NewPacks(before, passed + [e], hashes + [e.pack])
  {
    if hashes != [] {
      var last := hashes[|hashes| - 1];
      assert PackListed(passed, last);
    }
    StrictExtend(hashes, e.pack);
    forall m | 0 <= m < |hashes| ensures PackListed(passed + [e], hashes[m]) { StillListed(passed, e, hashes[m]); }
    assert (passed + [e])[|passed|].pack == e.pack;
  }

  /** What the loop writes for an added row: its pack hash when it is part 0. */
  method NoteAdded(ghost before: seq<PackEntry>, after: seq<PackEntry>, j: nat, hashes: seq<Str>) returns (noted: seq<Str>)
    requires PacksOk(after) && j < |after| && NewPacks(before, after[..j], hashes) && !PackListed(before, after[j].pack)
    ensures NewPacks(before, after[..j + 1], noted)
  {
    assert after[..j + 1] == after[..j] + [after[j]];
    noted := hashes;
    if after[j].number == 0 {
      forall k | 0 <= k < j ensures Less(after[k].pack, after[j].pack) { PackKeysRise(after, k, j); }
      NewPackFound(before, after[..j], hashes, after[j]);
      noted := hashes + [after[j].pack];
    } else {
      PartBefore(after, j);
      assert after[..j][j - 1].pack == after[j].pack;
      PassedGrows(before, after[..j], hashes, after[j]);
    }
  }

  ghost predicate Merging(before: seq<PackEntry>, after: seq<PackEntry>, i: nat, j: nat, hashes: seq<Str>) {
    && Between(before, after, PackKeyOf, i, j)
    && (forall k | 0 <= k < i :: before[k] in after)
    && NewPacks(before, after[..j], hashes)
  }

  function LastMatched(before: seq<PackEntry>, i: nat): Str
    requires i <= |before|
  {
    if i == 0 then [] else before[i - 1].pack
  }

  method MatchRow(before: seq<PackEntry>, after: seq<PackEntry>, i: nat, j: nat, hashes: seq<Str>) returns (ok: bool)
    requires Merging(before, after, i, j, hashes) && i < |before| && j < |after| && PackKeyOf(before[i]) == PackKeyOf(after[j])
    ensures ok ==> Merging(before, after, i + 1, j + 1, hashes)
    ensures !ok ==> !Kept(before, after)
  {
    PassBoth(before, after, PackKeyOf, i, j);
    assert after[..j + 1] == after[..j] + [after[j]];
    ok := before[i] == after[j];
    if ok { PassedGrows(before, after[..j], hashes, after[j]); }
  }

  method AddRow(before: seq<PackEntry>, after: seq<PackEntry>, i: nat, j: nat, lastMatched: Str, hashes: seq<Str>)
    returns (noted: seq<Str>)
    requires PacksOk(before) && PacksOk(after) && Merging(before, after, i, j, hashes) && j < |after|
    requires i < |before| ==> KeyLess(PackKeyOf(after[j]), PackKeyOf(before[i]))
    requires lastMatched == LastMatched(before, i)
    ensures Merging(before, after, i, j + 1, noted)
  {
    NotExtended(before, after, i, j);
    assert after[j].pack != [];
    if after[j].pack == lastMatched || (i < |before| && after[j].pack == before[i].pack) {
      assert false;  // a complete pack cannot gain parts
    }
    PackIsNew(before, after, i, j);
    PassNew(before, after, PackKeyOf, i, j);
    noted := NoteAdded(before, after, j, hashes);
  }

  /** Ordinary pack rows: nothing lost or altered, and the list of added packs. */
  method MergePacks(before: seq<PackEntry>, after: seq<PackEntry>) returns (ok: bool, hashes: seq<Str>)
    requires PacksOk(before) && PacksOk(after)
    ensures ok <==> Kept(before, after)
    ensures ok ==> NewPacks(before, after, hashes)
  {
    PacksRise(before);
    PacksRise(after);
    hashes := [];
    var i, j := 0, 0;
    var lastMatched: Str := [];
    while i < |before| || j < |after|
      invariant Merging(before, after, i, j, hashes)
      invariant lastMatched == LastMatched(before, i)
      decreases |before| - i + |after| - j
    {
      if j == |after| {
        OldLost(before, after, PackKeyOf, i, j);
        return false, hashes;
      }
      if i < |before| {
        KeyTotal(PackKeyOf(before[i]), PackKeyOf(after[j]));
        if PackKeyOf(before[i]) == PackKeyOf(after[j]) {
          var same := MatchRow(before, after, i, j, hashes);
          if !same { return false, hashes; }
          lastMatched := before[i].pack;
          i, j := i + 1, j + 1;
          continue;
        }
        if KeyLess(PackKeyOf(before[i]), PackKeyOf(after[j])) {
          OldLost(before, after, PackKeyOf, i, j);
          return false, hashes;
        }
      }
      hashes := AddRow(before, after, i, j, lastMatched, hashes);
      j := j + 1;
    }
    assert after[..|after|] == after;
    ok := true;
  }

  // ---- new packs and new objects name each other --------------------------------------------

  predicate SameNames(objects: seq<Str>, packs: seq<Str>) {
    (forall i | 0 <= i < |objects| :: objects[i] in packs) && forall j | 0 <= j < |packs| :: packs[j] in objects
  }

  ghost predicate Paired(objects: seq<Str>, packs: seq<Str>, i: nat, j: nat) {
    && i <= |objects| && j <= |packs| && Ordered(objects) && Strict(packs)
    && (forall k | 0 <= k < i :: objects[k] in packs) && (forall k | 0 <= k < j :: packs[k] in objects)
    && (i < |objects| && j > 0 ==> Less(packs[j - 1], objects[i]))
    && (i > 0 && j < |packs| ==> Less(objects[i - 1], packs[j]))
  }

  /** A pack ahead of all objects ahead is named by none. */
  lemma PackUnnamed(objects: seq<Str>, packs: seq<Str>, i: nat, j: nat)
    requires Paired(objects, packs, i, j) && j < |packs| && (i < |objects| ==> Less(packs[j], objects[i]))
    ensures packs[j] !in objects
  {
    forall k | 0 <= k < |objects| ensures objects[k] != packs[j] {
      LessIrreflexive(packs[j]);
      if k < i {
        if k < i - 1 { AtMostTransitive(objects[k], objects[i - 1], packs[j]); }
      } else if k > i {
        AtMostTransitive(packs[j], objects[i], objects[k]);
      }
    }
  }

  lemma ObjectUnpacked(objects: seq<Str>, packs: seq<Str>, i: nat, j: nat)
    requires Paired(objects, packs, i, j) && i < |objects| && (j < |packs| ==> Less(objects[i], packs[j]))
    ensures objects[i] !in packs
  {
    forall k | 0 <= k < |packs| ensures packs[k] != objects[i] {
      LessIrreflexive(objects[i]);
      if k < j {
        if k < j - 1 { LessTransitive(packs[k], packs[j - 1], objects[i]); }
      } else if k > j {
        LessTransitive(objects[i], packs[j], packs[k]);
      }
    }
  }

  method SkipMatched(objects: seq<Str>, packs: seq<Str>, from: nat, j: nat) returns (i: nat)
    requires Paired(objects, packs, from, j) && from < |objects| && j < |packs| && objects[from] == packs[j]
    ensures from < i && Paired(objects, packs, i, j + 1)
  {
    var matched := objects[from];
    i := from + 1;
    while i < |objects| && objects[i] == matched
      invariant from < i <= |objects|
      invariant forall k | from <= k < i :: objects[k] == matched
    {
      i := i + 1;
    }
    if i < |objects| { assert AtMost(objects[from], objects[i]); }
  }

  /** Accepts exactly when the packs named by added objects are the added packs. */
  method RequireNewPackReferences(objects: seq<Str>, packs: seq<Str>) returns (ok: bool)
    requires Ordered(objects) && Strict(packs)
    ensures ok <==> SameNames(objects, packs)
  {
    var i, j := 0, 0;
    while i < |objects| || j < |packs|
      invariant Paired(objects, packs, i, j)
      decreases |objects| - i + |packs| - j
    {
      if i == |objects| {
        PackUnnamed(objects, packs, i, j);
        return false;
      }
      if j == |packs| || Less(objects[i], packs[j]) {
        ObjectUnpacked(objects, packs, i, j);
        return false;
      }
      LessTotal(objects[i], packs[j]);
      if Less(packs[j], objects[i]) {
        PackUnnamed(objects, packs, i, j);
        return false;
      }
      i := SkipMatched(objects, packs, i, j);
      j := j + 1;
    }
    ok := true;
  }

  // ---- whole transitions --------------------------------------------------------------------

  predicate ObjectNames(objects: seq<ObjectEntry>, h: Str) {
    exists i | 0 <= i < |objects| :: objects[i].pack == h
  }

  /** Added objects lie in added packs, and every added pack holds an added object. */
  predicate PacksMatchObjects(before: RepoState, after: RepoState) {
    var added := Added(before.objects, after.objects);
    && (forall i | 0 <= i < |added| :: PackListed(after.packs, added[i].pack) && !PackListed(before.packs, added[i].pack))
    && forall k | 0 <= k < |after.packs| ::
         PackListed(before.packs, after.packs[k].pack) || ObjectNames(added, after.packs[k].pack)
  }

  predicate Extends(before: RepoState, after: RepoState) {
    Kept(before.objects, after.objects) && Kept(before.packs, after.packs) && PacksMatchObjects(before, after)
  }

  lemma NamesMatch(before: RepoState, after: RepoState, rows: seq<seq<Str>>, hashes: seq<Str>)
    requires DerivedRows(rows) && NewPacks(before.packs, after.packs, hashes)
    requires forall row :: row in rows <==> SplitsTo(PackLines(Added(before.objects, after.objects)), row)
    requires forall i | 0 <= i < |Added(before.objects, after.objects)| :: ValidObject(Added(before.objects, after.objects)[i])
    ensures SameNames(Keys(rows), hashes) <==> PacksMatchObjects(before, after)
  {
    var added := Added(before.objects, after.objects);
    forall h: Str ensures h in Keys(rows) <==> ObjectNames(added, h) { KeysName(added, rows, h); }
    forall h: Str ensures h in hashes <==> PackListed(after.packs, h) && !PackListed(before.packs, h) {
      HashesName(before.packs, after.packs, hashes, h);
    }
    NamesEqual(before.packs, after.packs, added, Keys(rows), hashes);
  }

  lemma NamesEqual(before: seq<PackEntry>, after: seq<PackEntry>, added: seq<ObjectEntry>, keys: seq<Str>, hashes: seq<Str>)
    requires forall h: Str :: h in keys <==> ObjectNames(added, h)
    requires forall h: Str :: h in hashes <==> PackListed(after, h) && !PackListed(before, h)
    ensures SameNames(keys, hashes) <==>
            && (forall i | 0 <= i < |added| :: PackListed(after, added[i].pack) && !PackListed(before, added[i].pack))
            && forall k | 0 <= k < |after| :: PackListed(before, after[k].pack) || ObjectNames(added, after[k].pack)
  {
    assert forall i | 0 <= i < |added| :: ObjectNames(added, added[i].pack);
    assert forall k | 0 <= k < |after| :: PackListed(after, after[k].pack);
    assert SameNames(keys, hashes) <==> forall h: Str :: h in keys <==> h in hashes by {
      assert forall i | 0 <= i < |keys| :: keys[i] in keys;
      assert forall j | 0 <= j < |hashes| :: hashes[j] in hashes;
    }
    if forall h: Str :: h in keys <==> h in hashes {
      forall i | 0 <= i < |added| ensures PackListed(after, added[i].pack) && !PackListed(before, added[i].pack) {
        assert added[i].pack in keys;
      }
      forall k | 0 <= k < |after| ensures PackListed(before, after[k].pack) || ObjectNames(added, after[k].pack) {
        assert PackListed(before, after[k].pack) || after[k].pack in hashes;
      }
    }
  }

  function PackLines(objects: seq<ObjectEntry>): seq<Str> {
    seq(|objects|, i requires 0 <= i < |objects| => ObjectPackLine(objects[i]))
  }

  lemma KeysName(objects: seq<ObjectEntry>, rows: seq<seq<Str>>, h: Str)
    requires DerivedRows(rows) && (forall i | 0 <= i < |objects| :: ValidObject(objects[i]))
    requires forall row :: row in rows <==> SplitsTo(PackLines(objects), row)
    ensures h in Keys(rows) <==> ObjectNames(objects, h)
  {
    if h in Keys(rows) {
      var k :| 0 <= k < |rows| && Keys(rows)[k] == h;
      assert rows[k] in rows;
      var i :| 0 <= i < |objects| && rows[k] == Split(PackLines(objects)[i], TAB);
      ObjectPackSplit(objects[i]);
    }
    if ObjectNames(objects, h) {
      var i :| 0 <= i < |objects| && objects[i].pack == h;
      ObjectPackSplit(objects[i]);
      assert SplitsTo(PackLines(objects), Split(PackLines(objects)[i], TAB));
      var k :| 0 <= k < |rows| && rows[k] == Split(PackLines(objects)[i], TAB);
      assert Keys(rows)[k] == h;
    }
  }

  lemma HashesName(before: seq<PackEntry>, after: seq<PackEntry>, hashes: seq<Str>, h: Str)
    requires NewPacks(before, after, hashes)
    ensures h in hashes <==> PackListed(after, h) && !PackListed(before, h)
  {}

  method ValidateOrdinaryExtension(before: RepoState, after: RepoState, options: RunFiles.Options) returns (ok: bool)
    requires StateOk(before) && StateOk(after) && !options.unique
    ensures ok <==> Extends(before, after)
  {
    ObjectsRise(before.objects);
    ObjectsRise(after.objects);
    var objectsKept, added := MergeExtension(before.objects, after.objects, ObjectKey);
    if !objectsKept { return false; }
    var packsKept, hashes := MergePacks(before.packs, after.packs);
    if !packsKept { return false; }
    forall i | 0 <= i < |added|
      ensures ValidObject(added[i]) && HasKey(AncestorSweep.FirstField, PackLines(added)[i]) && Unbroken(PackLines(added)[i])
    {
      AddedHas(before.objects, after.objects, added[i]);
      ObjectPackSplit(added[i]);
    }
    var rows := SortRows(PackLines(added), options);
    NamesMatch(before, after, rows.value, hashes);
    ok := RequireNewPackReferences(Keys(rows.value), hashes);
  }

  predicate MirrorsKeep(before: seq<Mirror>, after: seq<Mirror>) {
    forall i, j | 0 <= i < |before| && 0 <= j < |after| :: before[i].name == after[j].name ==> before[i] == after[j]
  }

  method MirrorIdentity(before: seq<Mirror>, after: seq<Mirror>) returns (ok: bool)
    requires Strict(Names(before))
    ensures ok <==> MirrorsKeep(before, after)
  {
    var byName: map<Str, Mirror> := map[];
    for i := 0 to |before|
      invariant forall k | 0 <= k < i :: before[k].name in byName && byName[before[k].name] == before[k]
      invariant forall n | n in byName :: byName[n].name == n && byName[n] in before
    {
      forall k | 0 <= k < i ensures before[k].name != before[i].name {
        assert Less(Names(before)[k], Names(before)[i]);
        LessIrreflexive(before[i].name);
      }
      byName := byName[before[i].name := before[i]];
    }
    for j := 0 to |after|
      invariant forall i, k | 0 <= i < |before| && 0 <= k < j :: before[i].name == after[k].name ==> before[i] == after[k]
    {
      if after[j].name in byName && byName[after[j].name] != after[j] { return false; }
    }
    ok := true;
  }

  datatype TransitionKind = Invalid | Ordinary | Repair

  /** What every transition demands; `keysOk` is the answer of the key-chain rules. */
  predicate Candidate(before: RepoState, after: RepoState, keysOk: bool) {
    StateOk(before) && StateOk(after) && before.format == after.format && keysOk && before != after
  }

  predicate RepairStep(before: RepoState, after: RepoState, keysOk: bool) {
    Candidate(before, after, keysOk) && OthersEqual(before, after) && Relocates(before.packs, after.packs)
  }

  predicate OrdinaryStep(before: RepoState, after: RepoState, keysOk: bool) {
    && Candidate(before, after, keysOk) && !OthersEqual(before, after)
    && Extends(before, after) && MirrorsKeep(before.mirrors, after.mirrors)
  }

  method ValidateTransition(before: RepoState, after: RepoState, keysOk: bool, options: RunFiles.Options) returns (kind: TransitionKind)
    requires !options.unique
    ensures kind == Repair <==> RepairStep(before, after, keysOk)
    ensures kind == Ordinary <==> OrdinaryStep(before, after, keysOk)
  {
    if !StateOk(before) || !StateOk(after) || before.format != after.format || !keysOk || before == after { return Invalid; }
    var repair := IsRepair(before, after);
    if repair == Relocated { return Repair; }
    if repair == Broken { return Invalid; }
    var extended := ValidateOrdinaryExtension(before, after, options);
    if !extended { return Invalid; }
    var keep := MirrorIdentity(before.mirrors, after.mirrors);
    if !keep { return Invalid; }
    kind := Ordinary;
  }

  // ---- changed rows -------------------------------------------------------------------------

  predicate SameKeys(base: seq<PackEntry>, candidate: seq<PackEntry>) {
    |base| == |candidate| && forall i | 0 <= i < |base| :: PackKeyOf(base[i]) == PackKeyOf(candidate[i])
  }

  ghost predicate Walking(base: seq<PackEntry>, candidate: seq<PackEntry>, kind: TransitionKind, i: nat, j: nat, visited: seq<PackEntry>) {
    && Between(base, candidate, PackKeyOf, i, j) && visited == Added(base, candidate[..j])
    && (kind == Ordinary ==> forall k | 0 <= k < i :: base[k] in candidate)
    && (kind == Repair ==> i == j && forall k | 0 <= k < i :: PackKeyOf(base[k]) == PackKeyOf(candidate[k]))
  }

  method VisitShared(base: seq<PackEntry>, candidate: seq<PackEntry>, kind: TransitionKind, i: nat, j: nat, visited: seq<PackEntry>)
    returns (ok: bool, next: seq<PackEntry>)
    requires Walking(base, candidate, kind, i, j, visited)
    requires i < |base| && j < |candidate| && PackKeyOf(base[i]) == PackKeyOf(candidate[j])
    ensures ok ==> Walking(base, candidate, kind, i + 1, j + 1, next)
    ensures !ok ==> kind == Ordinary && !Kept(base, candidate)
  {
    PassBoth(base, candidate, PackKeyOf, i, j);
    AddedStep(base, candidate, j);
    next := visited;
    if base[i] != candidate[j] {
      if kind == Ordinary { return false, next; }
      next := next + [candidate[j]];
    }
    ok := true;
  }

  lemma VisitAdded(base: seq<PackEntry>, candidate: seq<PackEntry>, i: nat, j: nat, visited: seq<PackEntry>)
    requires Walking(base, candidate, Ordinary, i, j, visited) && j < |candidate|
    requires i < |base| ==> KeyLess(PackKeyOf(candidate[j]), PackKeyOf(base[i]))
    ensures Walking(base, candidate, Ordinary, i, j + 1, visited + [candidate[j]])
  {
    PassNew(base, candidate, PackKeyOf, i, j);
    AddedStep(base, candidate, j);
  }

  lemma RowRemoved(base: seq<PackEntry>, candidate: seq<PackEntry>, kind: TransitionKind, i: nat, j: nat, visited: seq<PackEntry>)
    requires Walking(base, candidate, kind, i, j, visited) && i < |base|
    requires j < |candidate| ==> KeyLess(PackKeyOf(base[i]), PackKeyOf(candidate[j]))
    ensures !Kept(base, candidate) && !SameKeys(base, candidate)
  {
    OldLost(base, candidate, PackKeyOf, i, j);
    assert base[i] in base;
  }

  /** Visits exactly the rows the candidate does not share with its base, unless it is no candidate of
      that kind. */
  method WalkChangedPacks(base: seq<PackEntry>, candidate: seq<PackEntry>, kind: TransitionKind) returns (ok: bool, visited: seq<PackEntry>)
    requires Rising(base, PackKeyOf) && Rising(candidate, PackKeyOf)
    ensures kind == Invalid ==> ok && visited == candidate
    ensures kind == Ordinary ==> (ok <==> Kept(base, candidate))
    ensures kind == Repair ==> (ok <==> SameKeys(base, candidate))
    ensures ok && kind != Invalid ==> visited == Added(base, candidate)
  {
    if kind == Invalid { return true, candidate; }
    visited := [];
    var i, j := 0, 0;
    while i < |base| || j < |candidate|
      invariant Walking(base, candidate, kind, i, j, visited)
      decreases |base| - i + |candidate| - j
    {
      if j == |candidate| {
        RowRemoved(base, candidate, kind, i, j, visited);
        return false, visited;
      }
      if i < |base| {
        KeyTotal(PackKeyOf(base[i]), PackKeyOf(candidate[j]));
        if PackKeyOf(base[i]) == PackKeyOf(candidate[j]) {
          ok, visited := VisitShared(base, candidate, kind, i, j, visited);
          if !ok { return; }
          i, j := i + 1, j + 1;
          continue;
        }
        if KeyLess(PackKeyOf(base[i]), PackKeyOf(candidate[j])) {
          RowRemoved(base, candidate, kind, i, j, visited);
          return false, visited;
        }
      }
      if kind != Ordinary { return false, visited; }
      VisitAdded(base, candidate, i, j, visited);
      visited := visited + [candidate[j]];
      j := j + 1;
    }
    assert candidate[..|candidate|] == candidate;
    ok := true;
  }

  // ---- snapshots ----------------------------------------------------------------------------

  predicate Relocatable(p: PackEntry, alternate: seq<PackEntry>) {
    exists j | 0 <= j < |alternate| :: Logical(p, alternate[j])
  }

  /** Every row of the snapshot is found in the alternate, up to its object ID. */
  predicate SnapshotOk(snapshot: seq<PackEntry>, alternate: seq<PackEntry>) {
    forall i | 0 <= i < |snapshot| :: Relocatable(snapshot[i], alternate)
  }

  lemma LogicalKey(p: PackEntry, q: PackEntry)
    requires Logical(p, q)
    ensures PackKeyOf(p) == PackKeyOf(q)
  {
    assert p.(id := []).pack == q.(id := []).pack && p.(id := []).number == q.(id := []).number;
  }

  /** Skips the rows below `key`. */
  method SkipPacks(rows: seq<PackEntry>, from: nat, p: PackEntry) returns (j: nat)
    requires Rising(rows, PackKeyOf) && from <= |rows| && forall k | 0 <= k < from :: KeyLess(PackKeyOf(rows[k]), PackKeyOf(p))
    ensures from <= j <= |rows| && forall k | 0 <= k < j :: KeyLess(PackKeyOf(rows[k]), PackKeyOf(p))
    ensures forall k | 0 <= k < |rows| && k != j :: PackKeyOf(rows[k]) != PackKeyOf(p)
  {
    j := from;
    while j < |rows| && KeyLess(PackKeyOf(rows[j]), PackKeyOf(p))
      invariant from <= j <= |rows| && forall k | 0 <= k < j :: KeyLess(PackKeyOf(rows[k]), PackKeyOf(p))
    {
      j := j + 1;
    }
    forall k | 0 <= k < |rows| && k != j ensures PackKeyOf(rows[k]) != PackKeyOf(p) {
      KeyTotal(PackKeyOf(p), PackKeyOf(p));
      if k > j {
        KeyTotal(PackKeyOf(rows[j]), PackKeyOf(p));
        if PackKeyOf(rows[j]) != PackKeyOf(p) { KeyTransitive(PackKeyOf(p), PackKeyOf(rows[j]), PackKeyOf(rows[k])); }
      }
    }
  }

  method ValidateCatalogStateForSnapshot(snapshot: seq<PackEntry>, alternate: seq<PackEntry>) returns (ok: bool)
    requires Rising(snapshot, PackKeyOf) && Rising(alternate, PackKeyOf)
    ensures ok <==> SnapshotOk(snapshot, alternate)
  {
    var j := 0;
    for i := 0 to |snapshot|
      invariant j <= |alternate| && forall k | 0 <= k < i :: Relocatable(snapshot[k], alternate)
      invariant i < |snapshot| ==> forall k | 0 <= k < j :: KeyLess(PackKeyOf(alternate[k]), PackKeyOf(snapshot[i]))
    {
      j := SkipPacks(alternate, j, snapshot[i]);
      if j == |alternate| || PackKeyOf(alternate[j]) != PackKeyOf(snapshot[i]) || !Logical(snapshot[i], alternate[j]) {
        forall k | 0 <= k < |alternate| ensures !Logical(snapshot[i], alternate[k]) {
          if Logical(snapshot[i], alternate[k]) { LogicalKey(snapshot[i], alternate[k]); }
        }
        assert !Relocatable(snapshot[i], alternate);
        return false;
      }
      if i + 1 < |snapshot| {
        forall k | 0 <= k <= j ensures KeyLess(PackKeyOf(alternate[k]), PackKeyOf(snapshot[i + 1])) {
          if k < j { KeyTransitive(PackKeyOf(alternate[k]), PackKeyOf(snapshot[i]), PackKeyOf(snapshot[i + 1])); }
        }
      }
      j := j + 1;
    }
    ok := true;
  }

  // ---- histories ----------------------------------------------------------------------------

  predicate Step(before: RepoState, after: RepoState) {
    RepairStep(before, after, true) || OrdinaryStep(before, after, true)
  }

  predicate Histories(states: seq<RepoState>) {
    (forall k | 0 <= k < |states| :: StateOk(states[k])) && forall k | 0 < k < |states| :: Step(states[k - 1], states[k])
  }

  /** Object rows survive unchanged, pack rows up to their object ID. */
  predicate Preserves(before: RepoState, after: RepoState) {
    Kept(before.objects, after.objects) && SnapshotOk(before.packs, after.packs)
  }

  lemma StepPreserves(before: RepoState, after: RepoState)
    requires Step(before, after)
    ensures Preserves(before, after)
  {
    if OthersEqual(before, after) {
      assert before.(packs := []).objects == after.(packs := []).objects;
      forall i | 0 <= i < |before.packs| ensures Relocatable(before.packs[i], after.packs) {
        assert Logical(before.packs[i], after.packs[i]);
      }
    } else {
      forall i | 0 <= i < |before.packs| ensures Relocatable(before.packs[i], after.packs) {
        assert before.packs[i] in after.packs;
        var j :| 0 <= j < |after.packs| && after.packs[j] == before.packs[i];
        assert Logical(before.packs[i], after.packs[j]);
      }
    }
  }

  lemma SnapshotTransitive(a: seq<PackEntry>, b: seq<PackEntry>, c: seq<PackEntry>)
    requires SnapshotOk(a, b) && SnapshotOk(b, c)
    ensures SnapshotOk(a, c)
  {
    forall i | 0 <= i < |a| ensures Relocatable(a[i], c) {
      assert Relocatable(a[i], b);
      var j :| 0 <= j < |b| && Logical(a[i], b[j]);
      assert Relocatable(b[j], c);
      var k :| 0 <= k < |c| && Logical(b[j], c[k]);
      assert Logical(a[i], c[k]);
    }
  }

  lemma PreservesReflexive(s: RepoState)
    ensures Preserves(s, s)
  {
    forall k | 0 <= k < |s.packs| ensures Relocatable(s.packs[k], s.packs) { assert Logical(s.packs[k], s.packs[k]); }
  }

  lemma PreservesTransitive(a: RepoState, b: RepoState, c: RepoState)
    requires Preserves(a, b) && Preserves(b, c)
    ensures Preserves(a, c)
  {
    SnapshotTransitive(a.packs, b.packs, c.packs);
  }

  /** Every state of a history is preserved by every later one. */
  lemma {:induction false} HistoryPreserves(states: seq<RepoState>, i: nat, j: nat)
    requires Histories(states) && i <= j < |states|
    ensures Preserves(states[i], states[j])
    decreases j - i
  {
    if i == j {
      PreservesReflexive(states[i]);
    } else {
      HistoryPreserves(states, i, j - 1);
      var before, after := states[j - 1], states[j];
      assert Step(before, after);
      StepPreserves(before, after);
      PreservesTransitive(states[i], before, after);
    }
  }

  /** Any snapshot of a validated history can be read through any later catalog. */
  method SnapshotReadable(states: seq<RepoState>, i: nat, j: nat) returns (ok: bool)
    requires Histories(states) && i <= j < |states|
    ensures ok
  {
    PacksRise(states[i].packs);
    PacksRise(states[j].packs);
    HistoryPreserves(states, i, j);
    ok := ValidateCatalogStateForSnapshot(states[i].packs, states[j].packs);
  }

  /** Between neighbours the walk always succeeds and visits exactly the added or relocated rows. */
  method ChangedBetween(states: seq<RepoState>, k: nat, options: RunFiles.Options) returns (kind: TransitionKind, visited: seq<PackEntry>)
    requires Histories(states) && 0 < k < |states| && !options.unique
    ensures kind != Invalid && visited == Added(states[k - 1].packs, states[k].packs)
  {
    var before, after := states[k - 1], states[k];
    assert Step(before, after);
    kind := ValidateTransition(before, after, true, options);
    PacksRise(before.packs);
    PacksRise(after.packs);
    if kind == Repair {
      forall i | 0 <= i < |before.packs| ensures PackKeyOf(before.packs[i]) == PackKeyOf(after.packs[i]) {
        LogicalKey(before.packs[i], after.packs[i]);
      }
    }
    var ok;
    ok, visited := WalkChangedPacks(before.packs, after.packs, kind);
  }
}
