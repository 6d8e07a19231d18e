/** Consistency of the three catalogs: the in-memory validator works with maps, the bounded-memory one
    with sorted derived files and merges. */
module CatalogCheck {
  import opened Bytes
  import opened Model
  import opened ExternalSort
  import opened Canonical
  import opened Numbers
  import opened IndexText
  import opened Catalogs
  import AncestorSweep
  import RunFiles

  function Trimmed(ref: Str): Str {
    if HasPrefix(ref, FILE_PREFIX) then ref[|FILE_PREFIX|..] else ref
  }

  function Hashes(objects: seq<ObjectEntry>): seq<Str> {
    seq(|objects|, i requires 0 <= i < |objects| => objects[i].hash)
  }

  predicate ObjectsOk(objects: seq<ObjectEntry>) {
    (forall i | 0 <= i < |objects| :: ValidObject(objects[i])) && Strict(Hashes(objects))
  }

  predicate FileCovered(e: IndexEntry, objects: seq<ObjectEntry>) {
    exists j | 0 <= j < |objects| :: objects[j].hash == Trimmed(e.ref) && objects[j].size == e.size
  }

  predicate EntryOk(e: IndexEntry, objects: seq<ObjectEntry>) {
    Valid(e) && (e.kind == KIND_FILE ==> FileCovered(e, objects))
  }

  /** What both validators decide. */
  predicate CatalogsOk(index: seq<IndexEntry>, objects: seq<ObjectEntry>, packs: seq<PackEntry>) {
    && IndexOk(index) && PacksOk(packs) && ObjectsOk(objects)
    && (forall i | 0 <= i < |objects| :: PackListed(packs, objects[i].pack))
    && forall i | 0 <= i < |index| :: EntryOk(index[i], objects)
  }

  // ---- in memory ----------------------------------------------------------------------------

  method CollectObjects(objects: seq<ObjectEntry>) returns (r: Option<map<Str, ObjectEntry>>)
    ensures r.Some? <==> ObjectsOk(objects)
    ensures r.Some? ==> Collected(objects, r.value)
  {
    var byHash: map<Str, ObjectEntry> := map[];
    for i := 0 to |objects|
      invariant ObjectsOk(objects[..i]) && Collected(objects[..i], byHash)
    {
      var o := objects[i];
      if !ValidObject(o) { return None; }
      if i > 0 && !Less(objects[i - 1].hash, o.hash) {
        assert !Less(Hashes(objects)[i - 1], Hashes(objects)[i]);
        return None;
      }
      CollectStep(objects[..i], o, byHash);
      assert objects[..i + 1] == objects[..i] + [o];
      byHash := byHash[o.hash := o];
    }
    assert objects[..|objects|] == objects;
    r := Some(byHash);
  }

  predicate Collected(objects: seq<ObjectEntry>, byHash: map<Str, ObjectEntry>) {
    && (forall i | 0 <= i < |objects| :: objects[i].hash in byHash && byHash[objects[i].hash] == objects[i])
    && forall h | h in byHash :: byHash[h].hash == h && byHash[h] in objects
  }

  lemma CollectStep(objects: seq<ObjectEntry>, o: ObjectEntry, byHash: map<Str, ObjectEntry>)
    requires ObjectsOk(objects) && Collected(objects, byHash) && ValidObject(o)
    requires objects != [] ==> Less(objects[|objects| - 1].hash, o.hash)
    ensures ObjectsOk(objects + [o]) && Collected(objects + [o], byHash[o.hash := o])
  {
    StrictExtend(Hashes(objects), o.hash);
    assert Hashes(objects + [o]) == Hashes(objects) + [o.hash];
    forall i | 0 <= i < |objects| ensures objects[i].hash != o.hash {
      assert Less(Hashes(objects + [o])[i], Hashes(objects + [o])[|objects|]);
      LessIrreflexive(o.hash);
    }
  }

  lemma LookupCovers(objects: seq<ObjectEntry>, byHash: map<Str, ObjectEntry>, e: IndexEntry)
    requires Collected(objects, byHash)
    ensures FileCovered(e, objects) <==> Trimmed(e.ref) in byHash && byHash[Trimmed(e.ref)].size == e.size
  {}

  method CollectPacks(packs: seq<PackEntry>) returns (hashes: set<Str>)
    ensures forall h :: h in hashes <==> PackListed(packs, h)
  {
    hashes := {};
    for i := 0 to |packs|
      invariant forall h :: h in hashes <==> exists j | 0 <= j < i :: packs[j].pack == h
    {
      hashes := hashes + {packs[i].pack};
    }
  }

  method CheckObjectPacks(objects: seq<ObjectEntry>, hashes: set<Str>) returns (ok: bool)
    ensures ok <==> forall i | 0 <= i < |objects| :: objects[i].pack in hashes
  {
    for i := 0 to |objects|
      invariant forall j | 0 <= j < i :: objects[j].pack in hashes
    {
      if objects[i].pack !in hashes { return false; }
    }
    ok := true;
  }

  method CheckEntries(index: seq<IndexEntry>, objects: seq<ObjectEntry>, byHash: map<Str, ObjectEntry>) returns (ok: bool)
    requires Collected(objects, byHash)
    ensures ok <==> forall i | 0 <= i < |index| :: EntryOk(index[i], objects)
  {
    for i := 0 to |index|
      invariant forall j | 0 <= j < i :: EntryOk(index[j], objects)
    {
      var e := index[i];
      if !Valid(e) { return false; }
      if e.kind != KIND_FILE { continue; }
      LookupCovers(objects, byHash, e);
      var hash := Trimmed(e.ref);
      if hash !in byHash || byHash[hash].size != e.size {
        assert !EntryOk(index[i], objects);
        return false;
      }
    }
    ok := true;
  }

  method ValidateCatalogs(index: seq<IndexEntry>, objects: seq<ObjectEntry>, packs: seq<PackEntry>) returns (ok: bool)
    ensures ok <==> CatalogsOk(index, objects, packs)
  {
    var ordered := AncestorSweep.ValidateIndexOrder(Paths(index));
    OrderedMeans(index, ordered);
    if !ordered { return false; }
    var sequenced := ValidatePackSequence(packs);
    if !sequenced { return false; }
    var byHash := CollectObjects(objects);
    if byHash.None? { return false; }
    var hashes := CollectPacks(packs);
    var listed := CheckObjectPacks(objects, hashes);
    if !listed { return false; }
    ok := CheckEntries(index, objects, byHash.value);
  }

  lemma OrderedMeans(index: seq<IndexEntry>, ordered: bool)
    requires ordered <==> Strict(Paths(index)) && AncestorSweep.NoneCovers(Paths(index))
    ensures AllValid(index) ==> (ordered <==> IndexOk(index))
    ensures IndexOk(index) ==> AllValid(index)
  {
    if AllValid(index) {
      PathsRooted(index);
      AncestorSweep.RootedCovers(Paths(index));
    }
  }

  // ---- merges of derived files --------------------------------------------------------------

  /** A derived row: at least one field, as splitting a line always yields. */
  predicate DerivedRows(rows: seq<seq<Str>>) {
    forall i | 0 <= i < |rows| :: rows[i] != []
  }

  function Keys(rows: seq<seq<Str>>): seq<Str>
    requires DerivedRows(rows)
  {
    seq(|rows|, i requires 0 <= i < |rows| => rows[i][0])
  }

  /** Skips the rows below `key`. */
  method SkipTo(rows: seq<seq<Str>>, from: nat, key: Str) returns (j: nat)
    requires DerivedRows(rows) && Strict(Keys(rows)) && from <= |rows|
    requires forall k | 0 <= k < from :: Less(rows[k][0], key)
    ensures from <= j <= |rows| && forall k | 0 <= k < j :: Less(rows[k][0], key)
    ensures forall k | j < k < |rows| :: rows[k][0] != key
    ensures j < |rows| && rows[j][0] != key ==> forall k | 0 <= k < |rows| :: rows[k][0] != key
  {
    j := from;
    while j < |rows| && Less(rows[j][0], key)
      invariant from <= j <= |rows|
      invariant forall k | 0 <= k < j :: Less(rows[k][0], key)
    {
      j := j + 1;
    }
    if j < |rows| {
      LessTotal(rows[j][0], key);
      forall k | j < k < |rows| ensures rows[k][0] != key {
        assert Less(Keys(rows)[j], Keys(rows)[k]);
        if rows[j][0] != key { LessAsymmetric(key, rows[j][0]); }
        LaterKey(rows[j][0], rows[k][0], key);
      }
    }
    forall k | 0 <= k < j ensures rows[k][0] != key { LessIrreflexive(key); }
  }

  lemma LaterKey(a: Str, b: Str, key: Str)
    requires Less(a, b) && (a == key || Less(key, a))
    ensures b != key
  {
    AtMostTransitive(key, a, b);
    LessIrreflexive(key);
  }

  function ParseSize(s: Str): Option<nat> {
    if s != [] && AllDigits(s) && Value(s) < UINT64 then Some(Value(s)) else None
  }

  predicate SameSize(r: seq<Str>, o: seq<Str>) {
    |r| == 3 && |o| == 3 && o[0] == r[0] && ParseSize(o[1]).Some? && ParseSize(o[1]) == ParseSize(r[1])
  }

  predicate HasSize(r: seq<Str>, objects: seq<seq<Str>>) {
    |r| == 3 && exists j | 0 <= j < |objects| :: SameSize(r, objects[j])
  }

  lemma NextKey(rows: seq<seq<Str>>, keys: seq<seq<Str>>, i: nat, j: nat)
    requires DerivedRows(rows) && DerivedRows(keys) && Ordered(Keys(rows)) && i + 1 < |rows| && j <= |keys|
    requires forall k | 0 <= k < j :: Less(keys[k][0], rows[i][0])
    ensures forall k | 0 <= k < j :: Less(keys[k][0], rows[i + 1][0])
  {
    assert AtMost(Keys(rows)[i], Keys(rows)[i + 1]);
    forall k | 0 <= k < j ensures Less(keys[k][0], rows[i + 1][0]) {
      AtMostTransitive(keys[k][0], rows[i][0], rows[i + 1][0]);
    }
  }

  /** The merge finds exactly the references that a lookup by hash finds. */
  method MergeIndexObjects(index: seq<seq<Str>>, objects: seq<seq<Str>>) returns (ok: bool)
    requires DerivedRows(index) && Ordered(Keys(index)) && DerivedRows(objects) && Strict(Keys(objects))
    ensures ok <==> forall i | 0 <= i < |index| :: HasSize(index[i], objects)
  {
    var j := 0;
    for i := 0 to |index|
      invariant forall k | 0 <= k < i :: HasSize(index[k], objects)
      invariant j <= |objects| && (i < |index| ==> forall k | 0 <= k < j :: Less(objects[k][0], index[i][0]))
    {
      if |index[i]| != 3 { return false; }
      j := SkipTo(objects, j, index[i][0]);
      if j == |objects| || !SameSize(index[i], objects[j]) {
        OnlyHere(index[i], objects, j);
        return false;
      }
      assert HasSize(index[i], objects);
      if i + 1 < |index| { NextKey(index, objects, i, j); }
    }
    ok := true;
  }

  lemma OnlyHere(r: seq<Str>, objects: seq<seq<Str>>, j: nat)
    requires |r| == 3 && DerivedRows(objects) && j <= |objects| && (j < |objects| ==> !SameSize(r, objects[j]))
    requires forall k | 0 <= k < j :: Less(objects[k][0], r[0])
    requires forall k | j < k < |objects| :: objects[k][0] != r[0]
    ensures !HasSize(r, objects)
  {
    forall k | 0 <= k < |objects| ensures !SameSize(r, objects[k]) {
      if k < j { LessIrreflexive(r[0]); }
    }
  }

  predicate HasPack(r: seq<Str>, packs: seq<seq<Str>>) {
    |r| == 2 && exists j | 0 <= j < |packs| :: packs[j] == [r[0]]
  }

  method MergeObjectPacks(objects: seq<seq<Str>>, packs: seq<seq<Str>>) returns (ok: bool)
    requires DerivedRows(objects) && Ordered(Keys(objects)) && DerivedRows(packs) && Strict(Keys(packs))
    ensures ok <==> forall i | 0 <= i < |objects| :: HasPack(objects[i], packs)
  {
    var j := 0;
    for i := 0 to |objects|
      invariant forall k | 0 <= k < i :: HasPack(objects[k], packs)
      invariant j <= |packs| && (i < |objects| ==> forall k | 0 <= k < j :: Less(packs[k][0], objects[i][0]))
    {
      if |objects[i]| != 2 { return false; }
      j := SkipTo(packs, j, objects[i][0]);
      if j == |packs| || |packs[j]| != 1 || packs[j][0] != objects[i][0] {
        forall k | 0 <= k < |packs| ensures packs[k] != [objects[i][0]] {
          if k < j { LessIrreflexive(objects[i][0]); }
        }
        return false;
      }
      assert packs[j] == [objects[i][0]];
      if i + 1 < |objects| { NextKey(objects, packs, i, j); }
    }
    ok := true;
  }

  // ---- derived files ------------------------------------------------------------------------

  function RefLine(e: IndexEntry): Str {
    Join([Trimmed(e.ref), Digits(e.size), e.path], TAB)
  }

  function ObjectLine(o: ObjectEntry): Str {
    Join([o.hash, Digits(o.size), o.pack], TAB)
  }

  function ObjectPackLine(o: ObjectEntry): Str {
    Join([o.pack, o.hash], TAB)
  }

  function SplitLines(lines: seq<Str>): (rows: seq<seq<Str>>)
    ensures DerivedRows(rows)
  {
    seq(|lines|, i requires 0 <= i < |lines| => Split(lines[i], TAB))
  }

  predicate SplitsTo(lines: seq<Str>, row: seq<Str>) {
    exists i | 0 <= i < |lines| :: row == Split(lines[i], TAB)
  }

  function RecordRows(records: seq<Rec>): (rows: seq<seq<Str>>)
    ensures DerivedRows(rows)
  {
    seq(|records|, i requires 0 <= i < |records| => Split(records[i].data, TAB))
  }

  /** Sorts a derived file by its first field; the rows are those of the file. */
  method SortRows(lines: seq<Str>, options: RunFiles.Options) returns (r: Option<seq<seq<Str>>>)
    requires !options.unique && Clean(lines)
    ensures r.Some? <==> Keyed(AncestorSweep.FirstField, lines)
    ensures r.Some? ==> DerivedRows(r.value) && Ordered(Keys(r.value))
    ensures r.Some? ==> forall row :: row in r.value <==> SplitsTo(lines, row)
  {
    var sorted := RunFiles.SortLines(lines, AncestorSweep.FirstField, options);
    if sorted.None? { return None; }
    RowsOrdered(lines, sorted.value);
    forall row ensures row in RecordRows(sorted.value) <==> SplitsTo(lines, row) { RowsKept(lines, sorted.value, row); }
    r := Some(RecordRows(sorted.value));
  }

  ghost predicate Rearranged(lines: seq<Str>, records: seq<Rec>) {
    && Sorted(records) && Keyed(AncestorSweep.FirstField, lines)
    && multiset(records) == multiset(RecordsOf(AncestorSweep.FirstField, lines))
  }

  lemma RecordSource(lines: seq<Str>, records: seq<Rec>, i: nat) returns (k: nat)
    requires Rearranged(lines, records) && i < |records|
    ensures k < |lines| && records[i] == RecordOf(AncestorSweep.FirstField, lines[k])
  {
    var all := RecordsOf(AncestorSweep.FirstField, lines);
    assert records[i] in multiset(records);
    assert records[i] in all;
    k :| 0 <= k < |all| && all[k] == records[i];
  }

  lemma RecordTarget(lines: seq<Str>, records: seq<Rec>, k: nat) returns (i: nat)
    requires Rearranged(lines, records) && k < |lines|
    ensures i < |records| && records[i] == RecordOf(AncestorSweep.FirstField, lines[k])
  {
    var all := RecordsOf(AncestorSweep.FirstField, lines);
    assert all[k] in multiset(all);
    assert all[k] in records;
    i :| 0 <= i < |records| && records[i] == all[k];
  }

  lemma FirstFieldSplit(line: Str)
    requires HasKey(AncestorSweep.FirstField, line)
    ensures Split(line, TAB)[0] == AncestorSweep.FirstField(line).value
  {}

  lemma RowsOrdered(lines: seq<Str>, records: seq<Rec>)
    requires Rearranged(lines, records)
    ensures Ordered(Keys(RecordRows(records)))
  {
    var keys := Keys(RecordRows(records));
    forall i | 0 <= i < |records| ensures keys[i] == records[i].key {
      var k := RecordSource(lines, records, i);
      assert HasKey(AncestorSweep.FirstField, lines[k]);
      FirstFieldSplit(lines[k]);
    }
    forall i, j | 0 <= i < j < |keys| ensures AtMost(keys[i], keys[j]) { assert Le(records[i], records[j]); }
  }

  lemma RowsKept(lines: seq<Str>, records: seq<Rec>, row: seq<Str>)
    requires Rearranged(lines, records)
    ensures row in RecordRows(records) <==> SplitsTo(lines, row)
  {
    if row in RecordRows(records) {
      var i :| 0 <= i < |records| && RecordRows(records)[i] == row;
      var k := RecordSource(lines, records, i);
    }
    if SplitsTo(lines, row) {
      var k :| 0 <= k < |lines| && row == Split(lines[k], TAB);
      var i := RecordTarget(lines, records, k);
      assert RecordRows(records)[i] == row;
    }
  }

  lemma JoinUnbroken(fields: seq<Str>)
    requires forall i | 0 <= i < |fields| :: Unbroken(fields[i])
    ensures Unbroken(Join(fields, TAB))
  {
    JoinHolds(fields, TAB, LF);
    JoinHolds(fields, TAB, CR);
  }

  /** The path of an entry holds no line break, nor do hashes and numbers. */
  lemma RefUnbroken(e: IndexEntry)
    requires Valid(e) && e.kind == KIND_FILE
    ensures Unbroken(RefLine(e))
  {
    PlainIsRaw(Digits(e.size));
    JoinUnbroken([Trimmed(e.ref), Digits(e.size), e.path]);
  }

  lemma RefSplit(e: IndexEntry)
    requires Valid(e) && e.kind == KIND_FILE
    ensures Split(RefLine(e), TAB) == [Trimmed(e.ref), Digits(e.size), e.path]
    ensures HasKey(AncestorSweep.FirstField, RefLine(e))
  {
    var hash := Trimmed(e.ref);
    SplitJoin([hash, Digits(e.size), e.path], TAB);
    var rest := Join([Digits(e.size), e.path], TAB);
    assert [hash, Digits(e.size), e.path][1..] == [Digits(e.size), e.path];
    CutUnique(hash, TAB, rest);
    assert RefLine(e) == hash + [TAB] + rest;
  }

  lemma ObjectSplit(o: ObjectEntry)
    requires ValidObject(o)
    ensures Split(ObjectLine(o), TAB) == [o.hash, Digits(o.size), o.pack]
  {
    SplitJoin([o.hash, Digits(o.size), o.pack], TAB);
  }

  lemma ObjectPackSplit(o: ObjectEntry)
    requires ValidObject(o)
    ensures Split(ObjectPackLine(o), TAB) == [o.pack, o.hash]
    ensures HasKey(AncestorSweep.FirstField, ObjectPackLine(o)) && Unbroken(ObjectPackLine(o))
  {
    JoinUnbroken([o.pack, o.hash]);
    SplitJoin([o.pack, o.hash], TAB);
    CutUnique(o.pack, TAB, o.hash);
    assert [o.pack, o.hash][1..] == [o.hash];
    assert ObjectPackLine(o) == o.pack + [TAB] + o.hash;
  }

  lemma SizeRead(n: nat)
    requires n < UINT64
    ensures ParseSize(Digits(n)) == Some(n)
  {
    ValueDigits(n);
  }

  function ObjectRows(objects: seq<ObjectEntry>): seq<seq<Str>> {
    seq(|objects|, i requires 0 <= i < |objects| => [objects[i].hash, Digits(objects[i].size), objects[i].pack])
  }

  lemma ObjectFile(objects: seq<ObjectEntry>)
    requires ObjectsOk(objects)
    ensures SplitLines(seq(|objects|, i requires 0 <= i < |objects| => ObjectLine(objects[i]))) == ObjectRows(objects)
    ensures DerivedRows(ObjectRows(objects)) && Keys(ObjectRows(objects)) == Hashes(objects)
  {
    forall i | 0 <= i < |objects| ensures Split(ObjectLine(objects[i]), TAB) == ObjectRows(objects)[i] { ObjectSplit(objects[i]); }
  }

  /** A reference row finds a row of the object file exactly when its entry is covered. */
  lemma RowCovered(e: IndexEntry, objects: seq<ObjectEntry>)
    requires e.size < UINT64 && ObjectsOk(objects)
    ensures HasSize([Trimmed(e.ref), Digits(e.size), e.path], ObjectRows(objects)) <==> FileCovered(e, objects)
  {
    var row := [Trimmed(e.ref), Digits(e.size), e.path];
    SizeRead(e.size);
    forall j | 0 <= j < |objects|
      ensures SameSize(row, ObjectRows(objects)[j]) <==> objects[j].hash == Trimmed(e.ref) && objects[j].size == e.size
    {
      SizeRead(objects[j].size);
    }
    if FileCovered(e, objects) {
      var j :| 0 <= j < |objects| && objects[j].hash == Trimmed(e.ref) && objects[j].size == e.size;
      assert SameSize(row, ObjectRows(objects)[j]);
    }
  }

  function PackRows(hashes: seq<Str>): (rows: seq<seq<Str>>)
    ensures DerivedRows(rows) && Keys(rows) == hashes
  {
    seq(|hashes|, i requires 0 <= i < |hashes| => [hashes[i]])
  }

  lemma RowPacked(o: ObjectEntry, packs: seq<PackEntry>, hashes: seq<Str>)
    requires Listed(packs, hashes)
    ensures HasPack([o.pack, o.hash], PackRows(hashes)) <==> PackListed(packs, o.pack)
  {
    if PackListed(packs, o.pack) {
      assert o.pack in hashes;
      var j :| 0 <= j < |hashes| && hashes[j] == o.pack;
      assert PackRows(hashes)[j] == [o.pack];
    }
    if HasPack([o.pack, o.hash], PackRows(hashes)) {
      var j :| 0 <= j < |hashes| && PackRows(hashes)[j] == [o.pack];
      assert hashes[j] == [o.pack][0];
    }
  }

  predicate RefOf(e: IndexEntry, line: Str) {
    e.kind == KIND_FILE && line == RefLine(e)
  }

  predicate Emitted(index: seq<IndexEntry>, line: Str) {
    exists i | 0 <= i < |index| :: RefOf(index[i], line)
  }

  predicate RefsOf(index: seq<IndexEntry>, refs: seq<Str>) {
    && (forall i | 0 <= i < |index| && index[i].kind == KIND_FILE :: RefLine(index[i]) in refs)
    && forall k | 0 <= k < |refs| :: Emitted(index, refs[k])
  }

  /** The index walk: row validity, order, and the reference file. */
  method WalkEntries(index: seq<IndexEntry>) returns (ok: bool, refs: seq<Str>)
    ensures ok <==> AllValid(index) && Strict(Paths(index))
    ensures ok ==> RefsOf(index, refs)
  {
    refs := [];
    for i := 0 to |index|
      invariant WalkedTo(index[..i], refs)
    {
      if !Valid(index[i]) { return false, refs; }
      if i > 0 && !Less(index[i - 1].path, index[i].path) {
        assert !Less(Paths(index)[i - 1], Paths(index)[i]);
        return false, refs;
      }
      refs := WalkEntry(index[..i], index[i], refs);
      Longer(index, i);
    }
    assert index[..|index|] == index;
    ok := true;
  }

  /** The entries walked so far are valid and in order, and their references emitted. */
  ghost predicate WalkedTo(index: seq<IndexEntry>, refs: seq<Str>) {
    AllValid(index) && Strict(Paths(index)) && RefsOf(index, refs)
  }

  method WalkEntry(ghost index: seq<IndexEntry>, e: IndexEntry, refs: seq<Str>) returns (all: seq<Str>)
    requires WalkedTo(index, refs) && Valid(e) && (index != [] ==> Less(index[|index| - 1].path, e.path))
    ensures WalkedTo(index + [e], all)
  {
    PathsExtend(index, e);
    all := EmitRef(index, e, refs);
  }

  method EmitRef(ghost index: seq<IndexEntry>, e: IndexEntry, refs: seq<Str>) returns (all: seq<Str>)
    requires RefsOf(index, refs)
    ensures RefsOf(index + [e], all)
  {
    forall k | 0 <= k < |refs| ensures Emitted(index + [e], refs[k]) {
      var i :| 0 <= i < |index| && RefOf(index[i], refs[k]);
      assert RefOf((index + [e])[i], refs[k]);
    }
    all := refs;
    if e.kind == KIND_FILE {
      all := refs + [RefLine(e)];
      assert RefOf((index + [e])[|index|], RefLine(e));
    }
  }

  method CheckReferences(index: seq<IndexEntry>, refs: seq<Str>, objects: seq<ObjectEntry>, options: RunFiles.Options) returns (ok: bool)
    requires AllValid(index) && AllTyped(index) && RefsOf(index, refs) && ObjectsOk(objects) && !options.unique
    ensures ok <==> forall i | 0 <= i < |index| :: EntryOk(index[i], objects)
  {
    forall k | 0 <= k < |refs| ensures HasKey(AncestorSweep.FirstField, refs[k]) && Unbroken(refs[k]) {
      assert Emitted(index, refs[k]);
      var i :| 0 <= i < |index| && RefOf(index[i], refs[k]);
      RefSplit(index[i]);
      RefUnbroken(index[i]);
    }
    var rows := SortRows(refs, options);
    ObjectFile(objects);
    ok := MergeIndexObjects(rows.value, ObjectRows(objects));
    ReferencesMean(index, refs, objects, rows.value);
  }

  lemma ReferencesMean(index: seq<IndexEntry>, refs: seq<Str>, objects: seq<ObjectEntry>, rows: seq<seq<Str>>)
    requires AllValid(index) && AllTyped(index) && RefsOf(index, refs) && ObjectsOk(objects)
    requires forall row :: row in rows <==> SplitsTo(refs, row)
    ensures (forall i | 0 <= i < |rows| :: HasSize(rows[i], ObjectRows(objects))) <==> forall i | 0 <= i < |index| :: EntryOk(index[i], objects)
  {
    if forall i | 0 <= i < |rows| :: HasSize(rows[i], ObjectRows(objects)) {
      forall i | 0 <= i < |index| ensures EntryOk(index[i], objects) {
        if index[i].kind == KIND_FILE { EntryFromRow(index, refs, objects, rows, i); }
      }
    }
    if forall i | 0 <= i < |index| :: EntryOk(index[i], objects) {
      forall k | 0 <= k < |rows| ensures HasSize(rows[k], ObjectRows(objects)) {
        RowFromEntry(index, refs, objects, rows, k);
      }
    }
  }

  lemma EntryFromRow(index: seq<IndexEntry>, refs: seq<Str>, objects: seq<ObjectEntry>, rows: seq<seq<Str>>, i: nat)
    requires AllValid(index) && AllTyped(index) && RefsOf(index, refs) && ObjectsOk(objects)
    requires forall row :: row in rows <==> SplitsTo(refs, row)
    requires forall k | 0 <= k < |rows| :: HasSize(rows[k], ObjectRows(objects))
    requires i < |index| && index[i].kind == KIND_FILE
    ensures EntryOk(index[i], objects)
  {
    var e := index[i];
    RefSplit(e);
    RowCovered(e, objects);
    var k :| 0 <= k < |refs| && refs[k] == RefLine(e);
    assert SplitsTo(refs, Split(refs[k], TAB));
    var j :| 0 <= j < |rows| && rows[j] == Split(refs[k], TAB);
    assert HasSize(rows[j], ObjectRows(objects));
  }

  lemma RowFromEntry(index: seq<IndexEntry>, refs: seq<Str>, objects: seq<ObjectEntry>, rows: seq<seq<Str>>, k: nat)
    requires AllValid(index) && AllTyped(index) && RefsOf(index, refs) && ObjectsOk(objects)
    requires forall row :: row in rows <==> SplitsTo(refs, row)
    requires forall i | 0 <= i < |index| :: EntryOk(index[i], objects)
    requires k < |rows|
    ensures HasSize(rows[k], ObjectRows(objects))
  {
    assert rows[k] in rows;
    var r :| 0 <= r < |refs| && rows[k] == Split(refs[r], TAB);
    assert Emitted(index, refs[r]);
    var i :| 0 <= i < |index| && RefOf(index[i], refs[r]);
    assert EntryOk(index[i], objects);
    RefSplit(index[i]);
    RowCovered(index[i], objects);
  }

  method CheckPacks(objects: seq<ObjectEntry>, packs: seq<PackEntry>, options: RunFiles.Options) returns (ok: bool)
    requires ObjectsOk(objects) && Ascends(packs) && !options.unique
    ensures ok <==> forall i | 0 <= i < |objects| :: PackListed(packs, objects[i].pack)
  {
    var lines := seq(|objects|, i requires 0 <= i < |objects| => ObjectPackLine(objects[i]));
    forall i | 0 <= i < |objects|
      ensures Split(lines[i], TAB) == [objects[i].pack, objects[i].hash]
      ensures HasKey(AncestorSweep.FirstField, lines[i]) && Unbroken(lines[i])
    {
      ObjectPackSplit(objects[i]);
    }
    var hashes := ListPackHashes(packs);
    var rows := SortRows(lines, options);
    ok := MergeObjectPacks(rows.value, PackRows(hashes));
    forall i | 0 <= i < |objects|
      ensures HasPack([objects[i].pack, objects[i].hash], PackRows(hashes)) <==> PackListed(packs, objects[i].pack)
    {
      RowPacked(objects[i], packs, hashes);
    }
    PackRowsMean(objects, lines, rows.value, PackRows(hashes));
  }

  lemma PackRowsMean(objects: seq<ObjectEntry>, lines: seq<Str>, rows: seq<seq<Str>>, packRows: seq<seq<Str>>)
    requires |lines| == |objects| && forall i | 0 <= i < |objects| :: Split(lines[i], TAB) == [objects[i].pack, objects[i].hash]
    requires forall row :: row in rows <==> SplitsTo(lines, row)
    ensures (forall k | 0 <= k < |rows| :: HasPack(rows[k], packRows)) <==>
            forall i | 0 <= i < |objects| :: HasPack([objects[i].pack, objects[i].hash], packRows)
  {
    forall i | 0 <= i < |objects| ensures [objects[i].pack, objects[i].hash] in rows { assert SplitsTo(lines, Split(lines[i], TAB)); }
    forall k | 0 <= k < |rows| ensures exists i | 0 <= i < |objects| :: rows[k] == [objects[i].pack, objects[i].hash] {
      assert rows[k] in rows;
      var i :| 0 <= i < |lines| && rows[k] == Split(lines[i], TAB);
    }
  }

  method WalkObjects(objects: seq<ObjectEntry>) returns (ok: bool)
    ensures ok <==> ObjectsOk(objects)
  {
    for i := 0 to |objects|
      invariant ObjectsOk(objects[..i])
    {
      var o := objects[i];
      if !ValidObject(o) { return false; }
      if i > 0 && !Less(objects[i - 1].hash, o.hash) {
        assert !Less(Hashes(objects)[i - 1], Hashes(objects)[i]);
        return false;
      }
      StrictExtend(Hashes(objects[..i]), o.hash);
      assert objects[..i + 1] == objects[..i] + [o];
      assert Hashes(objects[..i + 1]) == Hashes(objects[..i]) + [o.hash];
    }
    assert objects[..|objects|] == objects;
    ok := true;
  }

  /** The bounded-memory validator accepts exactly what the in-memory one accepts, for every setting of
      the sorter. */
  method ValidateStreamCatalogs(index: seq<IndexEntry>, objects: seq<ObjectEntry>, packs: seq<PackEntry>, options: RunFiles.Options)
    returns (ok: bool)
    requires AllTyped(index) && !options.unique
    ensures ok <==> CatalogsOk(index, objects, packs)
  {
    var walked, refs := WalkEntries(index);
    if !walked { return false; }
    var objectsOk := WalkObjects(objects);
    if !objectsOk { return false; }
    var packsOk := WalkPacks(packs);
    if !packsOk { return false; }
    PathsRooted(index);
    var leaves := AncestorSweep.NoAncestorStream(Paths(index), options);
    if !leaves { return false; }
    var covered := CheckReferences(index, refs, objects, options);
    if !covered { return false; }
    PacksAscend(packs);
    ok := CheckPacks(objects, packs, options);
  }
}
