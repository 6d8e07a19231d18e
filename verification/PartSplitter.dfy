/** Cutting an encrypted pack into parts of one size, and the binary catalog of those parts. */
module PartSplitter {
  import opened Bytes
  import opened Model
  import opened Numbers
  import opened IndexText
  import opened Catalogs
  import AncestorSweep

  // ---- cutting ------------------------------------------------------------------------------

  /** The parts of a text: all but the last have exactly `n` bytes. */
  function Split(s: Str, n: nat): seq<Str>
    requires n > 0
    decreases |s|
  {
    if s == [] then [] else if |s| <= n then [s] else [s[..n]] + Split(s[n..], n)
  }

  function Flatten(parts: seq<Str>): Str {
    if parts == [] then [] else Flatten(parts[..|parts| - 1]) + parts[|parts| - 1]
  }

  predicate Full(parts: seq<Str>, n: nat) {
    forall i | 0 <= i < |parts| :: |parts[i]| == n
  }

  lemma {:induction false} FlattenFirst(x: Str, rest: seq<Str>)
    ensures Flatten([x] + rest) == x + Flatten(rest)
  {
    if rest == [] {
      assert [x] + rest == [x] && [x][..0] == [];
    } else {
      var n := |rest| - 1;
      FlattenFirst(x, rest[..n]);
      assert ([x] + rest)[..n + 1] == [x] + rest[..n];
      assert x + (Flatten(rest[..n]) + rest[n]) == (x + Flatten(rest[..n])) + rest[n];
    }
  }

  /** Concatenating the parts gives the text back. */
  lemma {:induction false} SplitFlatten(s: Str, n: nat)
    requires n > 0
    ensures Flatten(Split(s, n)) == s
    ensures forall i | 0 <= i < |Split(s, n)| :: 0 < |Split(s, n)[i]| <= n && (i < |Split(s, n)| - 1 ==> |Split(s, n)[i]| == n)
    decreases |s|
  {
    if |s| > n {
      SplitFlatten(s[n..], n);
      FlattenFirst(s[..n], Split(s[n..], n));
      assert s == s[..n] + s[n..];
    } else if s != [] {
      assert [s][..0] == [];
    }
  }

  lemma {:induction false} SplitFull(parts: seq<Str>, last: Str, n: nat)
    requires n > 0 && Full(parts, n) && |last| <= n
    ensures Split(Flatten(parts) + last, n) == parts + (if last == [] then [] else [last])
    decreases |parts|
  {
    if parts == [] {
      assert Flatten(parts) + last == last;
    } else {
      var x, rest := parts[0], parts[1..];
      SplitFull(rest, last, n);
      FlattenFirst(x, rest);
      assert parts == [x] + rest;
      SplitNext(x, Flatten(rest) + last, n);
      assert Flatten(parts) + last == x + (Flatten(rest) + last);
    }
  }

  lemma SplitNext(x: Str, s: Str, n: nat)
    requires n > 0 && |x| == n
    ensures Split(x + s, n) == [x] + Split(s, n)
  {
    assert (x + s)[..n] == x && (x + s)[n..] == s;
    if s == [] { assert x + s == x && [x] + [] == [x]; }
  }

  // ---- binary records -----------------------------------------------------------------------

  function Pow256(n: nat): nat {
    if n == 0 then 1 else 256 * Pow256(n - 1)
  }

  function BigEndian(v: nat, n: nat): (s: Str)
    ensures |s| == n
  {
    if n == 0 then [] else BigEndian(v / 256, n - 1) + [v % 256]
  }

  function FromBigEndian(s: Str): nat {
    if s == [] then 0 else FromBigEndian(s[..|s| - 1]) * 256 + s[|s| - 1]
  }

  lemma {:induction false} BigEndianRead(v: nat, n: nat)
    requires v < Pow256(n)
    ensures FromBigEndian(BigEndian(v, n)) == v
  {
    if n > 0 {
      BigEndianRead(v / 256, n - 1);
      assert BigEndian(v, n)[..n - 1] == BigEndian(v / 256, n - 1);
    }
  }

  function HexValue(b: Byte): Option<nat> {
    if 48 <= b <= 57 then Some(b - 48) else if 97 <= b <= 102 then Some(b - 87) else if 65 <= b <= 70 then Some(b - 55) else None
  }

  function UnHex(s: Str): Option<Str>
    decreases |s|
  {
    if s == [] then Some([])
    else if |s| == 1 then None
    else
      var hi, lo, rest := HexValue(s[0]), HexValue(s[1]), UnHex(s[2..]);
      if hi.None? || lo.None? || rest.None? then None else Some([hi.value * 16 + lo.value] + rest.value)
  }

  lemma {:induction false} HexRead(b: Str)
    ensures UnHex(AncestorSweep.Hex(b)) == Some(b) && HexText(AncestorSweep.Hex(b), 2 * |b|)
  {
    if b != [] {
      HexRead(b[1..]);
      var h := AncestorSweep.Hex(b);
      assert h[2..] == AncestorSweep.Hex(b[1..]);
      assert b[0] == b[0] / 16 * 16 + b[0] % 16;
      assert [b[0]] + b[1..] == b;
    }
  }

  /** Lower-case digits are what their value prints as. */
  lemma {:induction false} HexPrinted(t: Str, b: Str)
    requires HexText(t, |t|) && UnHex(t) == Some(b)
    ensures AncestorSweep.Hex(b) == t
    decreases |t|
  {
    if t != [] {
      var hi, lo := HexValue(t[0]).value, HexValue(t[1]).value;
      var rest := UnHex(t[2..]).value;
      HexPrinted(t[2..], rest);
      assert b == [hi * 16 + lo] + rest && b[1..] == rest;
      assert (hi * 16 + lo) / 16 == hi && (hi * 16 + lo) % 16 == lo;
      assert t == [t[0], t[1]] + t[2..];
    }
  }

  lemma {:induction false} HexLength(t: Str)
    requires HexText(t, |t|) && |t| % 2 == 0
    ensures UnHex(t).Some? && 2 * |UnHex(t).value| == |t|
    decreases |t|
  {
    if t != [] { HexLength(t[2..]); }
  }

  datatype StreamPart = StreamPart(number: nat, hash: Str, sha256: Str, md5: Str, size: nat, id: Str)

  predicate PartValid(p: StreamPart) {
    && p.number < UINT32 && 0 < p.size < UINT64
    && HexText(p.hash, 128) && HexText(p.sha256, 64) && HexText(p.md5, 32) && HexText(p.id, 32)
  }

  const RECORD := 140

  function Decoded(t: Str, n: nat): Option<Str> {
    var b := UnHex(t);
    if b.Some? && |b.value| == n then b else None
  }

  /** The 140-byte record of a part. */
  function PartRecord(p: StreamPart): Option<Str> {
    var hash, sha, md5, id := Decoded(p.hash, 64), Decoded(p.sha256, 32), Decoded(p.md5, 16), Decoded(p.id, 16);
    if p.size == 0 || hash.None? || sha.None? || md5.None? || id.None? then None
    else Some(BigEndian(p.number, 4) + hash.value + sha.value + md5.value + BigEndian(p.size, 8) + id.value)
  }

  function ReadRecord(r: Str): StreamPart
    requires |r| == RECORD
  {
    StreamPart(FromBigEndian(r[0..4]), AncestorSweep.Hex(r[4..68]), AncestorSweep.Hex(r[68..100]), AncestorSweep.Hex(r[100..116]),
               FromBigEndian(r[116..124]), AncestorSweep.Hex(r[124..140]))
  }

  lemma Slices(a: Str, b: Str, c: Str, d: Str, e: Str, f: Str)
    requires |a| == 4 && |b| == 64 && |c| == 32 && |d| == 16 && |e| == 8 && |f| == 16
    ensures var r := a + b + c + d + e + f;
            |r| == RECORD && r[0..4] == a && r[4..68] == b && r[68..100] == c && r[100..116] == d && r[116..124] == e && r[124..140] == f
  {}

  lemma DecodedPrinted(t: Str, n: nat)
    requires HexText(t, 2 * n)
    ensures Decoded(t, n).Some? && AncestorSweep.Hex(Decoded(t, n).value) == t
  {
    HexLength(t);
    HexPrinted(t, UnHex(t).value);
  }

  lemma Widths()
    ensures Pow256(4) == UINT32 && Pow256(8) == UINT64
  {
    assert Pow256(4) == 256 * Pow256(3) == 65536 * Pow256(2) == 65536 * 65536;
    assert Pow256(8) == 256 * Pow256(7) == 65536 * Pow256(6) == 65536 * 256 * Pow256(5) == 65536 * 65536 * Pow256(4);
  }

  /** A written record is read back as the part it was written for. */
  lemma RecordRead(p: StreamPart)
    requires PartValid(p)
    ensures PartRecord(p).Some? && |PartRecord(p).value| == RECORD && ReadRecord(PartRecord(p).value) == p
  {
    DecodedPrinted(p.hash, 64);
    DecodedPrinted(p.sha256, 32);
    DecodedPrinted(p.md5, 16);
    DecodedPrinted(p.id, 16);
    Widths();
    BigEndianRead(p.number, 4);
    BigEndianRead(p.size, 8);
    Slices(BigEndian(p.number, 4), Decoded(p.hash, 64).value, Decoded(p.sha256, 32).value, Decoded(p.md5, 16).value,
           BigEndian(p.size, 8), Decoded(p.id, 16).value);
  }

  // ---- the catalog of a completed pack ------------------------------------------------------

  function Records(parts: seq<StreamPart>): Str
    requires forall i | 0 <= i < |parts| :: PartValid(parts[i])
  {
    if parts == [] then []
    else
      RecordRead(parts[|parts| - 1]);
      Records(parts[..|parts| - 1]) + PartRecord(parts[|parts| - 1]).value
  }

  predicate Numbered(parts: seq<StreamPart>) {
    forall i | 0 <= i < |parts| :: PartValid(parts[i]) && parts[i].number == i
  }

  lemma SliceLeft(a: Str, b: Str, from: nat, to: nat)
    requires from <= to <= |a|
    ensures (a + b)[from..to] == a[from..to]
  {}

  lemma SliceRight(a: Str, b: Str)
    ensures (a + b)[|a|..|a| + |b|] == b
  {}

  /** The record at position `i` of the file is that of `p`. */
  predicate RecordIn(file: Str, i: nat, p: StreamPart) {
    RECORD * (i + 1) <= |file| && ReadRecord(file[RECORD * i..RECORD * (i + 1)]) == p
  }

  lemma {:induction false} RecordAt(parts: seq<StreamPart>, i: nat)
    requires Numbered(parts) && i < |parts|
    ensures RecordIn(Records(parts), i, parts[i])
  {
    RecordsSnoc(parts);
    if i < |parts| - 1 {
      RecordAt(parts[..|parts| - 1], i);
      RecordBefore(Records(parts[..|parts| - 1]), PartRecord(parts[|parts| - 1]).value, i, parts[i]);
    } else {
      RecordLast(Records(parts[..|parts| - 1]), PartRecord(parts[|parts| - 1]).value, i, parts[i]);
    }
  }

  lemma RecordLast(front: Str, last: Str, n: nat, p: StreamPart)
    requires |front| == RECORD * n && |last| == RECORD && ReadRecord(last) == p
    ensures RecordIn(front + last, n, p)
  {
    SliceRight(front, last);
  }

  lemma RecordBefore(front: Str, last: Str, i: nat, p: StreamPart)
    requires RecordIn(front, i, p)
    ensures RecordIn(front + last, i, p)
  {
    SliceLeft(front, last, RECORD * i, RECORD * (i + 1));
  }

  lemma RecordsSnoc(parts: seq<StreamPart>)
    requires Numbered(parts) && parts != []
    ensures Numbered(parts[..|parts| - 1]) && |Records(parts[..|parts| - 1])| == RECORD * (|parts| - 1)
    ensures PartRecord(parts[|parts| - 1]).Some? && |PartRecord(parts[|parts| - 1]).value| == RECORD
    ensures ReadRecord(PartRecord(parts[|parts| - 1]).value) == parts[|parts| - 1]
    ensures Records(parts) == Records(parts[..|parts| - 1]) + PartRecord(parts[|parts| - 1]).value
  {
    FrontNumbered(parts);
    RecordRead(parts[|parts| - 1]);
    RecordsLength(parts[..|parts| - 1]);
  }

  lemma FrontNumbered(parts: seq<StreamPart>)
    requires Numbered(parts) && parts != []
    ensures Numbered(parts[..|parts| - 1]) && PartValid(parts[|parts| - 1])
  {
    var front := parts[..|parts| - 1];
    forall i | 0 <= i < |front| ensures PartValid(front[i]) && front[i].number == i { assert front[i] == parts[i]; }
  }

  lemma {:induction false} RecordsLength(parts: seq<StreamPart>)
    requires Numbered(parts)
    ensures |Records(parts)| == RECORD * |parts|
  {
    if parts != [] {
      RecordRead(parts[|parts| - 1]);
      RecordsLength(parts[..|parts| - 1]);
    }
  }

  function Total(parts: seq<StreamPart>): nat {
    if parts == [] then 0 else Total(parts[..|parts| - 1]) + parts[|parts| - 1].size
  }

  function EntryOf(pack: Str, count: nat, p: StreamPart): PackEntry {
    PackEntry(pack, p.number, count, p.hash, p.sha256, p.md5, p.size, p.id)
  }

  function EntriesOf(pack: Str, parts: seq<StreamPart>): seq<PackEntry> {
    seq(|parts|, i requires 0 <= i < |parts| => EntryOf(pack, |parts|, parts[i]))
  }

  /** The catalog file of a completed pack is the one that was written. */
  ghost predicate Intact(file: Str, pack: Str, count: nat, size: nat, parts: seq<StreamPart>) {
    && Numbered(parts) && HexText(pack, 128) && 0 < |parts| < UINT32
    && file == Records(parts) && count == |parts| && size == Total(parts) < UINT64
  }

  ghost predicate WalkedSoFar(pack: Str, parts: seq<StreamPart>, number: nat, entries: seq<PackEntry>, total: nat) {
    number <= |parts| && entries == EntriesOf(pack, parts)[..number] && total == Total(parts[..number])
  }

  lemma NextPart(file: Str, pack: Str, count: nat, size: nat, parts: seq<StreamPart>, number: nat, entries: seq<PackEntry>, total: nat)
    requires Intact(file, pack, count, size, parts) && number < count && WalkedSoFar(pack, parts, number, entries, total)
    ensures RECORD * (number + 1) <= |file|
    ensures var p := ReadRecord(file[RECORD * number..RECORD * (number + 1)]);
            var e := EntryOf(pack, count, p);
            && p.number == number && ValidPack(e) && total + p.size < UINT64
            && WalkedSoFar(pack, parts, number + 1, entries + [e], total + p.size)
  {
    RecordsLength(parts);
    RecordAt(parts, number);
    assert PartValid(parts[number]);
    assert parts[..number + 1][..number] == parts[..number];
    TotalGrows(parts, number + 1);
  }

  lemma {:induction false} TotalGrows(parts: seq<StreamPart>, i: nat)
    requires i <= |parts|
    ensures Total(parts[..i]) <= Total(parts)
    decreases |parts|
  {
    if i < |parts| {
      TotalGrows(parts[..|parts| - 1], i);
      assert parts[..|parts| - 1][..i] == parts[..i];
    } else {
      assert parts[..i] == parts;
    }
  }

  /** Walking the catalog visits exactly the recorded parts; whatever it accepts is one complete pack. */
  method WalkParts(file: Str, pack: Str, count: nat, size: nat, ghost parts: seq<StreamPart>) returns (r: Option<seq<PackEntry>>)
    ensures Intact(file, pack, count, size, parts) ==> r == Some(EntriesOf(pack, parts))
    ensures r.Some? ==> |r.value| == count && PacksOk(r.value)
  {
    ghost var intact := Intact(file, pack, count, size, parts);
    if intact { RecordsLength(parts); }
    if count == 0 || |file| != RECORD * count { return None; }
    var entries: seq<PackEntry>, total: nat := [], 0;
    for number := 0 to count
      invariant |entries| == number && total < UINT64 && Walkable(entries, pack, count)
      invariant intact ==> WalkedSoFar(pack, parts, number, entries, total)
    {
      if intact { NextPart(file, pack, count, size, parts, number, entries, total); }
      var p := ReadRecord(file[RECORD * number..RECORD * (number + 1)]);
      var e := EntryOf(pack, count, p);
      if p.number != number || !ValidPack(e) || UINT64 - 1 - total < e.size { return None; }
      entries, total := entries + [e], total + p.size;
    }
    if intact { assert parts[..count] == parts && EntriesOf(pack, parts)[..count] == EntriesOf(pack, parts); }
    if total != size { return None; }
    WalkableComplete(entries, pack);
    r := Some(entries);
  }

  predicate Walkable(entries: seq<PackEntry>, pack: Str, count: nat) {
    forall i | 0 <= i < |entries| :: ValidPack(entries[i]) && entries[i].pack == pack && entries[i].count == count && entries[i].number == i
  }

  lemma WalkableComplete(entries: seq<PackEntry>, pack: Str)
    requires Walkable(entries, pack, |entries|)
    ensures PacksOk(entries)
  {
    forall i | 0 <= i < |entries| ensures ValidPack(entries[i]) && Complete(entries, i) {
      assert SamePack(entries[i], entries[i]);
    }
  }

  // ---- the sink -----------------------------------------------------------------------------

  /** The three digests of a part's bytes. */
  datatype Digests = Digests(blake: Str -> Str, sha: Str -> Str, md5: Str -> Str)

  ghost predicate Sized(d: Digests) {
    forall s: Str :: |d.blake(s)| == 64 && |d.sha(s)| == 32 && |d.md5(s)| == 16
  }

  function Describe(d: Digests, number: nat, bytes: Str, id: Str): StreamPart {
    StreamPart(number, AncestorSweep.Hex(d.blake(bytes)), AncestorSweep.Hex(d.sha(bytes)), AncestorSweep.Hex(d.md5(bytes)), |bytes|, id)
  }

  /** Receives the encrypted pack in writes of any length. */
  class PartSink {
    const partSize: nat
    const digests: Digests
    var parts: seq<Str>          // consumed parts
    var catalog: seq<StreamPart>
    var current: Str
    var packSize: nat
    var failed: bool
    var closed: bool
    ghost var input: Str

    constructor (partSize: nat, digests: Digests)
      requires 0 < partSize < UINT64 && Sized(digests)
      ensures Valid() && !failed && !closed && input == [] && this.partSize == partSize && this.digests == digests
    {
      this.partSize, this.digests := partSize, digests;
      parts, catalog, current, packSize, failed, closed := [], [], [], 0, false, false;
      input := [];
    }

    ghost predicate Catalogued()
      reads this
    {
      |catalog| == |parts| && forall i | 0 <= i < |parts| ::
        HexText(catalog[i].id, 32) && catalog[i] == Describe(digests, i, parts[i], catalog[i].id)
    }

    /** Everything received is in full parts and the open one. */
    ghost predicate Topped()
      reads this
    {
      && Catalogued() && |parts| < UINT32 && Full(parts, partSize) && |current| <= partSize
      && Flatten(parts) + current == input && packSize == |input| < UINT64
    }

    ghost predicate Filling()
      reads this
    {
      Topped() && |current| < partSize
    }

    ghost predicate Finished()
      reads this
    {
      Catalogued() && |parts| < UINT32 && partSize > 0 && parts == Split(input, partSize) && packSize == |input| < UINT64
    }

    ghost predicate Valid()
      reads this
    {
      0 < partSize < UINT64 && Sized(digests) && (!failed ==> if closed then Finished() else Filling())
    }

    /** Describes and hands over the open part under a fresh object ID. */
    method FinishPart(id: Str, accepted: bool)
      requires !failed && Catalogued() && HexText(id, 32) && current != [] && |parts| + 1 < UINT32
      modifies `parts, `catalog, `current, `failed
      ensures !failed ==> Catalogued() && parts == old(parts) + [old(current)] && current == []
    {
      if !accepted {
        failed := true;
        return;
      }
      catalog := catalog + [Describe(digests, |parts|, current, id)];
      parts, current := parts + [current], [];
    }

    /** Writes what fits into the open part, or less when the file takes less, and finishes a full part
        under the given object ID. */
    method WriteChunk(rest: Str, id: Str) returns (count: nat)
      requires Valid() && !failed && !closed && rest != [] && HexText(id, 32)
      modifies this
      ensures Valid() && !closed
      ensures !failed ==> 0 < count <= |rest| && input == old(input) + rest[..count]
    {
      count := 0;
      var room := partSize - |current|;
      var chunk := if |rest| > room then room else |rest|;
      var taken: int, accepted: bool := *, *;
      if |parts| + 1 >= UINT32 || UINT64 - 1 - packSize < chunk || taken <= 0 || taken > chunk {
        failed := true;
        return;
      }
      count := taken;
      Appended(parts, current, input, rest, count);
      input, current, packSize := input + rest[..count], current + rest[..count], packSize + count;
      if |current| == partSize { FinishFull(id, accepted); }
    }

    method FinishFull(id: Str, accepted: bool)
      requires Topped() && !failed && |current| == partSize > 0 && HexText(id, 32) && |parts| + 1 < UINT32
      modifies `parts, `catalog, `current, `failed
      ensures !failed ==> Filling()
    {
      FlattenLast(parts, current);
      FinishPart(id, accepted);
      if !failed { assert Flatten(parts) + [] == Flatten(parts); }
    }

    /** Appends the data, whatever lengths the file writes report; `ids` are the random object IDs. */
    method Write(data: Str, ids: nat -> Str)
      requires Valid() && forall n: nat :: HexText(ids(n), 32)
      modifies this
      ensures Valid() && closed == old(closed)
      ensures !failed ==> input == old(input) + data
    {
      if failed { return; }
      if closed {
        failed := true;
        return;
      }
      var rest := data;
      while rest != []
        invariant Valid() && !failed && !closed && input + rest == old(input) + data
        decreases |rest|
      {
        ghost var before := input;
        var count := WriteChunk(rest, ids(|parts|));
        if failed { return; }
        Regroup(before, rest, count);
        rest := rest[count..];
      }
      assert input + [] == input;
    }

    /** Finishes the last part. The parts depend on the bytes only, not on how they were written. */
    method Close(id: Str)
      requires Valid() && HexText(id, 32)
      modifies this
      ensures Valid() && input == old(input)
      ensures !failed ==> closed && parts == Split(input, partSize) && Flatten(parts) == input
    {
      if !closed && !failed { CloseOpen(id); }
      SplitFlatten(input, partSize);
    }

    method CloseOpen(id: Str)
      requires Valid() && !closed && !failed && HexText(id, 32)
      modifies this
      ensures Valid() && input == old(input) && (!failed ==> closed)
    {
      LastSplit();
      if current != [] {
        if |parts| + 1 >= UINT32 {
          failed := true;
          return;
        }
        var accepted: bool := *;
        FinishPart(id, accepted);
        if failed { return; }
      }
      closed := true;
    }

    lemma LastSplit()
      requires Filling() && partSize > 0
      ensures Split(input, partSize) == if current == [] then parts else parts + [current]
    {
      SplitFull(parts, current, partSize);
      assert parts + [] == parts;
    }
  }

  lemma Regroup(before: Str, rest: Str, n: nat)
    requires n <= |rest|
    ensures (before + rest[..n]) + rest[n..] == before + rest
  {}

  lemma Appended(parts: seq<Str>, current: Str, input: Str, rest: Str, n: nat)
    requires Flatten(parts) + current == input && n <= |rest|
    ensures Flatten(parts) + (current + rest[..n]) == input + rest[..n]
  {}

  lemma FlattenLast(parts: seq<Str>, last: Str)
    ensures Flatten(parts + [last]) == Flatten(parts) + last
  {
    assert (parts + [last])[..|parts|] == parts;
  }

  // ---- the catalog that the sink wrote --------------------------------------------------------

  lemma {:induction false} TotalIsLength(parts: seq<Str>, catalog: seq<StreamPart>)
    requires |catalog| == |parts| && forall i | 0 <= i < |parts| :: catalog[i].size == |parts[i]|
    ensures Total(catalog) == |Flatten(parts)|
  {
    if parts != [] { TotalIsLength(parts[..|parts| - 1], catalog[..|parts| - 1]); }
  }

  lemma DescribedValid(d: Digests, number: nat, bytes: Str, id: Str)
    requires Sized(d) && number < UINT32 && 0 < |bytes| < UINT64 && HexText(id, 32)
    ensures PartValid(Describe(d, number, bytes, id))
  {
    HexRead(d.blake(bytes));
    HexRead(d.sha(bytes));
    HexRead(d.md5(bytes));
  }

  lemma ClosedIntact(sink: PartSink, pack: Str)
    requires sink.Valid() && sink.closed && !sink.failed && sink.input != [] && HexText(pack, 128)
    ensures Numbered(sink.catalog) && Intact(Records(sink.catalog), pack, |sink.catalog|, sink.packSize, sink.catalog)
  {
    var parts, catalog := sink.parts, sink.catalog;
    SplitFlatten(sink.input, sink.partSize);
    forall i | 0 <= i < |catalog| ensures PartValid(catalog[i]) && catalog[i].number == i && catalog[i].size == |parts[i]| {
      assert |parts[i]| <= sink.partSize;
      DescribedValid(sink.digests, i, parts[i], catalog[i].id);
    }
    TotalIsLength(parts, catalog);
  }

  /** Walking the catalog of a closed sink gives one row for each part of the split input, in order, with
      that part's digests and size. An empty pack has no parts and is refused. */
  method WalkClosed(sink: PartSink, pack: Str) returns (r: Option<seq<PackEntry>>)
    requires sink.Valid() && sink.closed && !sink.failed && HexText(pack, 128)
    ensures r.Some? <==> sink.input != []
    ensures r.Some? ==> PacksOk(r.value) && |r.value| == |Split(sink.input, sink.partSize)|
    ensures r.Some? ==> forall i | 0 <= i < |r.value| ::
              r.value[i] == EntryOf(pack, |r.value|, Describe(sink.digests, i, Split(sink.input, sink.partSize)[i], r.value[i].id))
  {
    if sink.packSize == 0 { return None; }
    ClosedIntact(sink, pack);
    r := WalkParts(Records(sink.catalog), pack, |sink.catalog|, sink.packSize, sink.catalog);
  }
}
