/** The three catalogs of a state and what makes them consistent, decided by the in-memory validator
    and by the bounded-memory one. */
module Catalogs {
  import opened Bytes
  import opened Model
  import opened Numbers
  import opened IndexText

  datatype ObjectEntry = ObjectEntry(hash: Str, size: nat, pack: Str)

  datatype PackEntry = PackEntry(
    pack: Str, number: nat, count: nat, partHash: Str, sha256: Str, md5: Str, size: nat, id: Str)

  predicate ValidObject(o: ObjectEntry) {
    HexText(o.hash, BLAKE2B) && HexText(o.pack, BLAKE2B) && o.size < UINT64
  }

  predicate ValidPack(p: PackEntry) {
    && HexText(p.pack, BLAKE2B) && HexText(p.partHash, BLAKE2B) && HexText(p.sha256, 64) && HexText(p.md5, 32)
    && p.number < p.count < UINT32 && 0 < p.size < UINT64 && HexText(p.id, 32)
  }

  // ---- packs --------------------------------------------------------------------------------

  predicate SamePack(p: PackEntry, q: PackEntry) {
    p.pack == q.pack && p.count == q.count
  }

  /** Around row `i` stand all parts of its pack in order, and the next pack has a larger hash. */
  predicate Complete(packs: seq<PackEntry>, i: nat)
    requires i < |packs|
  {
    var p := packs[i];
    && p.number <= i && p.number < p.count && i - p.number + p.count <= |packs|
    && (forall j | i - p.number <= j < i - p.number + p.count :: SamePack(packs[j], p) && packs[j].number == j - i + p.number)
    && (i - p.number + p.count < |packs| ==> Less(p.pack, packs[i - p.number + p.count].pack))
  }

  predicate PacksOk(packs: seq<PackEntry>) {
    forall i | 0 <= i < |packs| :: ValidPack(packs[i]) && Complete(packs, i)
  }

  predicate Opens(packs: seq<PackEntry>, i: nat)
    requires i < |packs|
  {
    i == 0 || packs[i - 1].pack != packs[i].pack
  }

  /** How a row must follow the one before it. */
  predicate Follows(packs: seq<PackEntry>, i: nat)
    requires i < |packs|
  {
    if Opens(packs, i) then packs[i].number == 0 && (i > 0 ==> Less(packs[i - 1].pack, packs[i].pack))
    else packs[i].count == packs[i - 1].count && packs[i].number == packs[i - 1].number + 1
  }

  /** The last row of a pack is its last part. */
  predicate Closes(packs: seq<PackEntry>, i: nat)
    requires i < |packs|
  {
    i == |packs| - 1 || packs[i + 1].pack != packs[i].pack ==> packs[i].number + 1 == packs[i].count
  }

  predicate Local(packs: seq<PackEntry>, i: nat)
    requires i < |packs|
  {
    ValidPack(packs[i]) && Follows(packs, i) && Closes(packs, i)
  }

  lemma {:induction false} RowsBefore(packs: seq<PackEntry>, i: nat, k: nat)
    requires forall j | 0 <= j < |packs| :: Local(packs, j)
    requires i < |packs| && k <= packs[i].number
    ensures k <= i && SamePack(packs[i - k], packs[i]) && packs[i - k].number == packs[i].number - k
  {
    if k > 0 {
      RowsBefore(packs, i, k - 1);
      assert Local(packs, i - (k - 1));
    }
  }

  lemma {:induction false} RowsAfter(packs: seq<PackEntry>, i: nat, k: nat)
    requires forall j | 0 <= j < |packs| :: Local(packs, j)
    requires i < |packs| && packs[i].number + k < packs[i].count
    ensures i + k < |packs| && SamePack(packs[i + k], packs[i]) && packs[i + k].number == packs[i].number + k
  {
    if k > 0 {
      RowsAfter(packs, i, k - 1);
      assert Local(packs, i + k - 1) && Closes(packs, i + k - 1);
      assert Local(packs, i + k) && Follows(packs, i + k);
    }
  }

  lemma LocalComplete(packs: seq<PackEntry>, i: nat)
    requires forall j | 0 <= j < |packs| :: Local(packs, j)
    requires i < |packs|
    ensures ValidPack(packs[i]) && Complete(packs, i)
  {
    var p := packs[i];
    assert Local(packs, i);
    RowsBefore(packs, i, p.number);
    RowsAfter(packs, i, p.count - 1 - p.number);
    var base := i - p.number;
    forall j | base <= j < base + p.count ensures SamePack(packs[j], p) && packs[j].number == j - base {
      if j <= i { RowsBefore(packs, i, i - j); } else { RowsAfter(packs, i, j - i); }
    }
    if base + p.count < |packs| {
      assert packs[base + p.count - 1].number == p.count - 1;
      assert Local(packs, base + p.count) && Follows(packs, base + p.count);
    }
  }

  lemma CompleteFollows(packs: seq<PackEntry>, i: nat)
    requires i < |packs| && Complete(packs, i) && (i > 0 ==> Complete(packs, i - 1))
    ensures Follows(packs, i)
  {
    var p := packs[i];
    if p.number > 0 {
      assert SamePack(packs[i - 1], p);
    } else if i > 0 {
      var q := packs[i - 1];
      assert q.number + 1 == q.count;
      LessIrreflexive(p.pack);
    }
  }

  lemma CompleteCloses(packs: seq<PackEntry>, i: nat)
    requires i < |packs| && Complete(packs, i)
    ensures Closes(packs, i)
  {
    var p := packs[i];
    if p.number + 1 < p.count { assert SamePack(packs[i + 1], p); }
  }

  /** The neighbour conditions say the same as completeness of every pack. */
  lemma PacksLocal(packs: seq<PackEntry>)
    ensures PacksOk(packs) <==> forall i | 0 <= i < |packs| :: Local(packs, i)
  {
    if PacksOk(packs) {
      forall i | 0 <= i < |packs| ensures Local(packs, i) {
        assert Complete(packs, i) && (i > 0 ==> Complete(packs, i - 1));
        CompleteFollows(packs, i);
        CompleteCloses(packs, i);
      }
    }
    if forall i | 0 <= i < |packs| :: Local(packs, i) {
      forall i | 0 <= i < |packs| ensures ValidPack(packs[i]) && Complete(packs, i) { LocalComplete(packs, i); }
    }
  }

  /** The in-memory check, which looks one row ahead. */
  method ValidatePackSequence(packs: seq<PackEntry>) returns (ok: bool)
    ensures ok <==> PacksOk(packs)
  {
    PacksLocal(packs);
    for i := 0 to |packs|
      invariant forall j | 0 <= j < i :: Local(packs, j)
    {
      var valid := ValidPack(packs[i]);
      var follows := CheckFollows(packs, i);
      var last := i == |packs| - 1 || packs[i + 1].pack != packs[i].pack;
      if !valid || !follows || (last && packs[i].number + 1 != packs[i].count) {
        assert !Local(packs, i);
        return false;
      }
    }
    ok := true;
  }

  method CheckFollows(packs: seq<PackEntry>, i: nat) returns (ok: bool)
    requires i < |packs|
    ensures ok <==> Follows(packs, i)
  {
    var e := packs[i];
    if i == 0 || packs[i - 1].pack != e.pack {
      if i > 0 && !Less(packs[i - 1].pack, e.pack) { return false; }
      ok := e.number == 0;
    } else {
      ok := e.count == packs[i - 1].count && e.number == packs[i - 1].number + 1;
    }
  }

  /** One step of the one-pass check, which knows only the previous row. */
  method WalkPack(previous: Option<PackEntry>, e: PackEntry) returns (ok: bool)
    ensures ok <==> Walks(previous, e)
  {
    if !ValidPack(e) { return false; }
    if previous.None? || previous.value.pack != e.pack {
      if previous.Some? {
        if previous.value.number + 1 != previous.value.count { return false; }
        if !Less(previous.value.pack, e.pack) { return false; }
      }
      ok := e.number == 0;
    } else {
      ok := e.count == previous.value.count && e.number == previous.value.number + 1;
    }
  }

  predicate Walks(previous: Option<PackEntry>, e: PackEntry) {
    && ValidPack(e)
    && if previous.Some? && previous.value.pack == e.pack then
         e.count == previous.value.count && e.number == previous.value.number + 1
       else
         && e.number == 0
         && (previous.Some? ==> previous.value.number + 1 == previous.value.count && Less(previous.value.pack, e.pack))
  }

  function Before(packs: seq<PackEntry>, i: nat): Option<PackEntry>
    requires i <= |packs|
  {
    if i == 0 then None else Some(packs[i - 1])
  }

  predicate Walked(packs: seq<PackEntry>, i: nat)
    requires i < |packs|
  {
    Walks(Before(packs, i), packs[i])
  }

  /** What a row must end is known one row late. */
  lemma WalkedLocal(packs: seq<PackEntry>, i: nat)
    requires i < |packs|
    ensures Walked(packs, i) <==> ValidPack(packs[i]) && Follows(packs, i) && (i > 0 ==> Closes(packs, i - 1))
  {}

  lemma WalkedMeans(packs: seq<PackEntry>)
    ensures PacksOk(packs) <==>
            && (forall i | 0 <= i < |packs| :: Walked(packs, i))
            && (packs != [] ==> packs[|packs| - 1].number + 1 == packs[|packs| - 1].count)
  {
    PacksLocal(packs);
    forall i | 0 <= i < |packs|
      ensures Walked(packs, i) <==> ValidPack(packs[i]) && Follows(packs, i) && (i > 0 ==> Closes(packs, i - 1))
    {
      WalkedLocal(packs, i);
    }
    if PacksOk(packs) {
      forall i | 0 <= i < |packs| ensures Walked(packs, i) { assert Local(packs, i) && (i > 0 ==> Local(packs, i - 1)); }
      assert packs != [] ==> Local(packs, |packs| - 1);
    } else {
      var i :| 0 <= i < |packs| && !Local(packs, i);
      assert i < |packs| - 1 ==> !Walked(packs, i) || !Walked(packs, i + 1);
    }
  }

  method WalkPacks(packs: seq<PackEntry>) returns (ok: bool)
    ensures ok <==> PacksOk(packs)
  {
    WalkedMeans(packs);
    var previous: Option<PackEntry> := None;
    for i := 0 to |packs|
      invariant previous == Before(packs, i)
      invariant forall j | 0 <= j < i :: Walked(packs, j)
    {
      var walks := WalkPack(previous, packs[i]);
      if !walks {
        assert !Walked(packs, i);
        return false;
      }
      previous := Some(packs[i]);
    }
    ok := previous.None? || previous.value.number + 1 == previous.value.count;
  }

  /** (pack, part number) rises strictly, so equal hashes stand together. */
  lemma PackKeysRise(packs: seq<PackEntry>, i: nat, j: nat)
    requires PacksOk(packs) && i < j < |packs|
    ensures Less(packs[i].pack, packs[j].pack) || (packs[i].pack == packs[j].pack && packs[i].number < packs[j].number)
    decreases j - i
  {
    PacksLocal(packs);
    assert Local(packs, i + 1) && Follows(packs, i + 1);
    if i + 1 < j {
      PackKeysRise(packs, i + 1, j);
      if Less(packs[i].pack, packs[i + 1].pack) && Less(packs[i + 1].pack, packs[j].pack) {
        LessTransitive(packs[i].pack, packs[i + 1].pack, packs[j].pack);
      }
    }
  }

  predicate Ascends(packs: seq<PackEntry>) {
    forall i | 0 < i < |packs| :: packs[i - 1].pack == packs[i].pack || Less(packs[i - 1].pack, packs[i].pack)
  }

  lemma PacksAscend(packs: seq<PackEntry>)
    requires PacksOk(packs)
    ensures Ascends(packs)
  {
    forall i | 0 < i < |packs| ensures packs[i - 1].pack == packs[i].pack || Less(packs[i - 1].pack, packs[i].pack) {
      PackKeysRise(packs, i - 1, i);
    }
  }

  /** The pack hashes written for the merge: each one when it first appears. */
  method ListPackHashes(packs: seq<PackEntry>) returns (hashes: seq<Str>)
    requires Ascends(packs)
    ensures Listed(packs, hashes)
  {
    hashes := [];
    for i := 0 to |packs|
      invariant Listed(packs[..i], hashes)
    {
      assert packs[..i + 1] == packs[..i] + [packs[i]];
      if i == 0 || packs[i].pack != packs[i - 1].pack {
        ListedNew(packs[..i], packs[i], hashes);
        hashes := hashes + [packs[i].pack];
      } else {
        ListedSame(packs[..i], packs[i], hashes);
      }
    }
    assert packs[..|packs|] == packs;
  }

  predicate PackListed(packs: seq<PackEntry>, h: Str) {
    exists i | 0 <= i < |packs| :: packs[i].pack == h
  }

  predicate Listed(packs: seq<PackEntry>, hashes: seq<Str>) {
    && Strict(hashes) && (packs == [] <==> hashes == [])
    && (packs != [] ==> hashes[|hashes| - 1] == packs[|packs| - 1].pack)
    && (forall i | 0 <= i < |packs| :: packs[i].pack in hashes)
    && forall k | 0 <= k < |hashes| :: PackListed(packs, hashes[k])
  }

  lemma ListedKept(packs: seq<PackEntry>, e: PackEntry, hashes: seq<Str>)
    requires forall k | 0 <= k < |hashes| :: PackListed(packs, hashes[k])
    ensures forall k | 0 <= k < |hashes| :: PackListed(packs + [e], hashes[k])
  {
    forall k | 0 <= k < |hashes| ensures PackListed(packs + [e], hashes[k]) {
      var i :| 0 <= i < |packs| && packs[i].pack == hashes[k];
      assert (packs + [e])[i].pack == hashes[k];
    }
  }

  lemma ListedNew(packs: seq<PackEntry>, e: PackEntry, hashes: seq<Str>)
    requires Listed(packs, hashes) && (packs != [] ==> Less(packs[|packs| - 1].pack, e.pack))
    ensures Listed(packs + [e], hashes + [e.pack])
  {
    StrictExtend(hashes, e.pack);
    ListedKept(packs, e, hashes);
    assert (packs + [e])[|packs|].pack == e.pack;
  }

  lemma ListedSame(packs: seq<PackEntry>, e: PackEntry, hashes: seq<Str>)
    requires Listed(packs, hashes) && packs != [] && packs[|packs| - 1].pack == e.pack
    ensures Listed(packs + [e], hashes)
  {
    ListedKept(packs, e, hashes);
  }
}
