/** File-backed hash tables with linear probing, kept at most half full: each refines a plain map. */
module HashTables {
  import opened Model

  /** The slot after `d` probes from `start` among `n` slots. */
  function Place(start: nat, d: nat, n: nat): (s: nat)
    requires start < n && d < n
    ensures s < n
  {
    if start + d < n then start + d else start + d - n
  }

  function BitAnd(x: nat, y: nat): nat
    decreases y
  {
    if y == 0 then 0 else 2 * BitAnd(x / 2, y / 2) + (if x % 2 == 1 && y % 2 == 1 then 1 else 0)
  }

  lemma Remainder(x: nat, n: nat, q: nat, r: nat)
    requires n > 0 && r < n && x == n * q + r
    ensures x % n == r
  {
    var k := x / n;
    assert x == n * k + x % n;
    if k > q { Multiples(n, q, k); } else if k < q { Multiples(n, k, q); }
  }

  lemma {:induction false} Multiples(n: nat, a: nat, b: nat)
    requires a < b
    ensures n * a + n <= n * b
  {
    assert n * b == n * (b - 1) + n;
    if a < b - 1 { Multiples(n, a, b - 1); }
  }

  lemma HalvedRemainder(x: nat, m: nat)
    requires m > 0
    ensures x % (2 * m) == 2 * (x / 2 % m) + x % 2
  {
    var q, r := x / 2 / m, x / 2 % m;
    assert x / 2 == m * q + r;
    assert x == 2 * (x / 2) + x % 2;
    assert 2 * m * q == 2 * (m * q);
    Remainder(x, 2 * m, q, 2 * r + x % 2);
  }

  /** With a power of two, masking is taking the remainder. */
  lemma {:induction false} MaskIsRemainder(x: nat, n: nat)
    requires IsPowerOfTwo(n)
    ensures BitAnd(x, n - 1) == x % n
    decreases n
  {
    if n > 1 {
      var m := n / 2;
      assert n == 2 * m && (n - 1) / 2 == m - 1 && (n - 1) % 2 == 1;
      MaskIsRemainder(x / 2, m);
      HalvedRemainder(x, m);
    }
  }

  /** The slot after `d` probes, by masking the sum. */
  method Masked(start: nat, d: nat, n: nat) returns (s: nat)
    requires start < n && d < n && IsPowerOfTwo(n)
    ensures s == Place(start, d, n)
  {
    MaskWraps(start, d, n);
    s := BitAnd(start + d, n - 1);
  }

  lemma MaskWraps(start: nat, d: nat, n: nat)
    requires start < n && d < n && IsPowerOfTwo(n)
    ensures BitAnd(start + d, n - 1) == Place(start, d, n)
  {
    MaskIsRemainder(start + d, n);
    var x := start + d;
    if x < n { Remainder(x, n, 0, x); } else { Remainder(x, n, 1, x - n); }
  }

  /** How many probes lead from `start` to `s`. */
  function Probes(start: nat, s: nat, n: nat): (d: nat)
    requires start < n && s < n
    ensures d < n && Place(start, d, n) == s
    ensures forall e | 0 <= e < n && Place(start, e, n) == s :: e == d
  {
    if s >= start then s - start else s + n - start
  }

  predicate IsPowerOfTwo(n: nat) {
    n == 1 || (n > 1 && n % 2 == 0 && IsPowerOfTwo(n / 2))
  }

  /** The capacity for a planned number of entries: the least power of two at least twice as large. */
  method Capacity(entries: nat) returns (capacity: nat)
    ensures capacity >= 2 && capacity >= 2 * entries && IsPowerOfTwo(capacity)
    ensures capacity == 2 || capacity < 4 * entries
  {
    capacity := 2;
    assert IsPowerOfTwo(1);
    while capacity < 2 * entries
      invariant capacity >= 2 && IsPowerOfTwo(capacity) && (capacity == 2 || capacity < 4 * entries)
    {
      assert 2 * capacity / 2 == capacity;
      capacity := 2 * capacity;
    }
  }

  // ---- slots --------------------------------------------------------------------------------

  function Start<K>(bucket: K -> nat, k: K, n: nat): (s: nat)
    requires n > 0
    ensures s < n
  {
    bucket(k) % n
  }

  ghost predicate KeysDiffer<K, V>(s: seq<Option<V>>, key: V -> K) {
    forall i, j | 0 <= i < j < |s| && s[i].Some? && s[j].Some? :: key(s[i].value) != key(s[j].value)
  }

  /** The first `p` places a key probes are used. */
  predicate Busy<K, V>(s: seq<Option<V>>, bucket: K -> nat, k: K, p: nat)
    requires p <= |s| && |s| > 0
  {
    forall d | 0 <= d < p :: s[Place(Start(bucket, k, |s|), d, |s|)].Some?
  }

  /** A value stands at a place its key reaches over used slots only. */
  predicate Reached<K, V>(s: seq<Option<V>>, key: V -> K, bucket: K -> nat, i: nat)
    requires i < |s|
  {
    s[i].Some? ==> Busy(s, bucket, key(s[i].value), Probes(Start(bucket, key(s[i].value), |s|), i, |s|))
  }

  predicate Stored<K(==), V(==)>(s: seq<Option<V>>, key: V -> K, contents: map<K, V>, i: nat)
    requires i < |s|
  {
    s[i].Some? ==> key(s[i].value) in contents && contents[key(s[i].value)] == s[i].value
  }

  predicate Held<K(==), V(==)>(s: seq<Option<V>>, key: V -> K, contents: map<K, V>, k: K)
    requires k in contents
  {
    key(contents[k]) == k && Some(contents[k]) in s
  }

  /** The slots hold exactly the map. */
  ghost predicate Refines<K, V>(s: seq<Option<V>>, key: V -> K, bucket: K -> nat, contents: map<K, V>) {
    && |s| >= 2 && KeysDiffer(s, key)
    && (forall i | 0 <= i < |s| :: Reached(s, key, bucket, i))
    && (forall i | 0 <= i < |s| :: Stored(s, key, contents, i))
    && forall k | k in contents :: Held(s, key, contents, k)
  }

  ghost function KeysBelow<K, V>(s: seq<Option<V>>, key: V -> K, n: nat): set<K>
    requires n <= |s| && forall i | 0 <= i < n :: s[i].Some?
  {
    set i | 0 <= i < n :: key(s[i].value)
  }

  lemma {:induction false} KeysBelowSize<K, V>(s: seq<Option<V>>, key: V -> K, n: nat)
    requires KeysDiffer(s, key) && n <= |s| && forall i | 0 <= i < n :: s[i].Some?
    ensures |KeysBelow(s, key, n)| == n
  {
    if n > 0 {
      KeysBelowSize(s, key, n - 1);
      var k := key(s[n - 1].value);
      assert k !in KeysBelow(s, key, n - 1);
      assert KeysBelow(s, key, n) == KeysBelow(s, key, n - 1) + {k};
    }
  }

  lemma SubsetSize<T>(a: set<T>, b: set<T>)
    requires a <= b
    ensures |a| <= |b|
  {
    assert b == a + (b - a);
  }

  /** With fewer entries than slots, every key's probes meet an empty slot. */
  lemma WhereEmpty<K, V>(s: seq<Option<V>>, key: V -> K, bucket: K -> nat, contents: map<K, V>, k: K) returns (p: nat)
    requires Refines(s, key, bucket, contents) && |contents| < |s|
    ensures p < |s| && s[Place(Start(bucket, k, |s|), p, |s|)].None?
  {
    if forall i | 0 <= i < |s| :: s[i].Some? {
      KeysBelowSize(s, key, |s|);
      forall i | 0 <= i < |s| ensures key(s[i].value) in contents { assert Stored(s, key, contents, i); }
      SubsetSize(KeysBelow(s, key, |s|), contents.Keys);
    }
    var i :| 0 <= i < |s| && s[i].None?;
    p := Probes(Start(bucket, k, |s|), i, |s|);
  }

  lemma WhereHeld<K, V>(s: seq<Option<V>>, key: V -> K, bucket: K -> nat, contents: map<K, V>, k: K) returns (p: nat)
    requires Refines(s, key, bucket, contents) && k in contents
    ensures p < |s| && s[Place(Start(bucket, k, |s|), p, |s|)] == Some(contents[k]) && Busy(s, bucket, k, p)
  {
    assert Held(s, key, contents, k);
    var i :| 0 <= i < |s| && s[i] == Some(contents[k]);
    assert Reached(s, key, bucket, i);
    p := Probes(Start(bucket, k, |s|), i, |s|);
  }

  /** Filling the first empty place a new key reaches adds it to the map. */
  lemma Placed<K, V>(s: seq<Option<V>>, key: V -> K, bucket: K -> nat, contents: map<K, V>, v: V, d: nat)
    requires Refines(s, key, bucket, contents) && key(v) !in contents && d < |s| && Busy(s, bucket, key(v), d)
    requires s[Place(Start(bucket, key(v), |s|), d, |s|)].None?
    ensures Refines(s[Place(Start(bucket, key(v), |s|), d, |s|) := Some(v)], key, bucket, contents[key(v) := v])
  {
    var n, p := |s|, Place(Start(bucket, key(v), |s|), d, |s|);
    var t, more := s[p := Some(v)], contents[key(v) := v];
    forall i | 0 <= i < n ensures Stored(t, key, more, i) { assert Stored(s, key, contents, i); }
    forall i | 0 <= i < n ensures Reached(t, key, bucket, i) {
      assert Reached(s, key, bucket, i);
      assert i == p ==> Probes(Start(bucket, key(v), n), p, n) == d;
    }
    forall i, j | 0 <= i < j < n && t[i].Some? && t[j].Some? ensures key(t[i].value) != key(t[j].value) {
      assert Stored(s, key, contents, i) && Stored(s, key, contents, j);
    }
    forall k | k in more ensures Held(t, key, more, k) {
      if k == key(v) {
        assert t[p] == Some(more[k]);
      } else {
        assert Held(s, key, contents, k);
        var i :| 0 <= i < n && s[i] == Some(contents[k]);
        assert t[i] == Some(more[k]);
      }
    }
  }

  /** One table. A stored value knows its key; `bucket` is where a key's probes start. */
  class Table<K(==), V(==)> {
    const slots: array<Option<V>>
    const key: V -> K
    const bucket: K -> nat
    var count: nat
    ghost var contents: map<K, V>

    ghost predicate Valid()
      reads this, slots
    {
      && IsPowerOfTwo(slots.Length) && count == |contents| && 2 * count <= slots.Length
      && Refines(slots[..], key, bucket, contents)
    }

    constructor (capacity: nat, key: V -> K, bucket: K -> nat)
      requires capacity >= 2 && IsPowerOfTwo(capacity)
      ensures Valid() && fresh(slots) && contents == map[] && count == 0 && slots.Length == capacity
      ensures this.key == key && this.bucket == bucket
    {
      slots := new Option<V>[capacity](i => None);
      this.key, this.bucket, count := key, bucket, 0;
      contents := map[];
    }

    /** Probing ends at the key's slot or at an empty one: running out of slots cannot happen. */
    method Find(k: K) returns (s: nat)
      requires Valid()
      ensures s < slots.Length && slots[s] == (if k in contents then Some(contents[k]) else None)
      ensures Busy(slots[..], bucket, k, Probes(Start(bucket, k, slots.Length), s, slots.Length))
    {
      var n, d := slots.Length, 0;
      MaskIsRemainder(bucket(k), n);
      var start := BitAnd(bucket(k), n - 1);
      while d < n
        invariant 0 <= d <= n && Busy(slots[..], bucket, k, d)
        invariant forall e | 0 <= e < d :: slots[Place(start, e, n)].Some? && key(slots[Place(start, e, n)].value) != k
      {
        s := Masked(start, d, n);
        if slots[s].None? {
          if k in contents { ghost var p := WhereHeld(slots[..], key, bucket, contents, k); }
          return;
        }
        if key(slots[s].value) == k {
          assert Stored(slots[..], key, contents, s);
          return;
        }
        d := d + 1;
      }
      ghost var p := WhereEmpty(slots[..], key, bucket, contents, k);
      assert false;
    }

    /** Adds an absent key; fails exactly when the planned load is used up. */
    method Add(v: V) returns (ok: bool)
      requires Valid() && key(v) !in contents
      modifies this, slots
      ensures Valid() && ok == (old(count) < slots.Length / 2)
      ensures contents == if ok then old(contents)[key(v) := v] else old(contents)
      ensures count == if ok then old(count) + 1 else old(count)
    {
      var s := Find(key(v));
      if count >= slots.Length / 2 { return false; }
      Placed(slots[..], key, bucket, contents, v, Probes(Start(bucket, key(v), slots.Length), s, slots.Length));
      ghost var after := slots[..][s := Some(v)];
      slots[s] := Some(v);
      assert slots[..] == after;
      count := count + 1;
      contents := contents[key(v) := v];
      ok := true;
    }
  }

  // ---- deduplication ------------------------------------------------------------------------

  type Digest = string
  datatype Plain = Plain(hash: Digest, size: nat)
  function HashOf(p: Plain): Digest { p.hash }

  datatype Answer = Present | Absent | Conflict

  /** What hash-to-size says about a plaintext. */
  function Expected(sizes: map<Digest, Plain>, p: Plain): Answer {
    if p.hash !in sizes then Absent else if sizes[p.hash].size == p.size then Present else Conflict
  }

  method Contains(t: Table<Digest, Plain>, p: Plain) returns (a: Answer)
    requires t.Valid() && t.key == HashOf
    ensures a == Expected(t.contents, p)
  {
    var s := t.Find(p.hash);
    if t.slots[s].None? { return Absent; }
    a := if t.slots[s].value.size == p.size then Present else Conflict;
  }

  datatype Inserted = Done | SizeConflict | OverPlan

  method Insert(t: Table<Digest, Plain>, p: Plain) returns (r: Inserted)
    requires t.Valid() && t.key == HashOf
    modifies t, t.slots
    ensures t.Valid()
    ensures r == SizeConflict <==> Expected(old(t.contents), p) == Conflict
    ensures r == OverPlan <==> Expected(old(t.contents), p) == Absent && old(t.count) >= t.slots.Length / 2
    ensures t.contents == if r == Done then old(t.contents)[p.hash := p] else old(t.contents)
  {
    var a := Contains(t, p);
    if a == Conflict { return SizeConflict; }
    if a == Present { return Done; }
    var ok := t.Add(p);
    r := if ok then Done else OverPlan;
  }

  predicate Agree(ps: seq<Plain>) {
    forall i, j | 0 <= i < |ps| && 0 <= j < |ps| && ps[i].hash == ps[j].hash :: ps[i] == ps[j]
  }

  /** The map says what the list of plaintexts says. */
  predicate Records(contents: map<Digest, Plain>, ps: seq<Plain>) {
    && (forall k | 0 <= k < |ps| :: ps[k].hash in contents && contents[ps[k].hash] == ps[k])
    && forall h | h in contents :: contents[h] in ps && contents[h].hash == h
  }

  lemma RecordMore(contents: map<Digest, Plain>, ps: seq<Plain>, p: Plain)
    requires Records(contents, ps) && Expected(contents, p) != Conflict
    requires p.hash in contents ==> contents[p.hash].hash == p.hash
    ensures Records(contents[p.hash := p], ps + [p]) && |contents[p.hash := p]| <= |contents| + 1
  {
    assert p.hash in contents ==> contents[p.hash] == p;
    assert contents[p.hash := p].Keys == contents.Keys + {p.hash};
  }

  lemma RecordsMean(contents: map<Digest, Plain>, ps: seq<Plain>)
    requires Records(contents, ps)
    ensures Agree(ps)
    ensures forall p: Plain :: Expected(contents, p) == Present <==> p in ps
    ensures forall p: Plain :: Expected(contents, p) == Absent <==> forall i | 0 <= i < |ps| :: ps[i].hash != p.hash
  {
    forall p: Plain ensures Expected(contents, p) == Present <==> p in ps {
      if Expected(contents, p) == Present { assert contents[p.hash] == p; }
    }
    forall p: Plain ensures Expected(contents, p) == Absent <==> forall i | 0 <= i < |ps| :: ps[i].hash != p.hash {
      if p.hash in contents {
        var i :| 0 <= i < |ps| && ps[i] == contents[p.hash];
        assert ps[i].hash == p.hash;
      }
    }
  }

  lemma ConflictFound(contents: map<Digest, Plain>, ps: seq<Plain>, i: nat)
    requires i < |ps| && Records(contents, ps[..i]) && Expected(contents, ps[i]) == Conflict
    ensures !Agree(ps)
  {
    var q := contents[ps[i].hash];
    var k :| 0 <= k < i && ps[..i][k] == q;
    assert ps[k].hash == ps[i].hash && ps[k] != ps[i];
  }

  lemma RecordNext(contents: map<Digest, Plain>, ps: seq<Plain>, i: nat)
    requires i < |ps| && Records(contents, ps[..i])
    ensures Expected(contents, ps[i]) == Conflict ==> !Agree(ps)
    ensures Expected(contents, ps[i]) != Conflict ==>
              Records(contents[ps[i].hash := ps[i]], ps[..i + 1]) && |contents[ps[i].hash := ps[i]]| <= |contents| + 1
  {
    if Expected(contents, ps[i]) == Conflict {
      ConflictFound(contents, ps, i);
    } else {
      RecordMore(contents, ps[..i], ps[i]);
      assert ps[..i + 1] == ps[..i] + [ps[i]];
    }
  }

  method InsertNext(t: Table<Digest, Plain>, ps: seq<Plain>, i: nat) returns (ok: bool)
    requires t.Valid() && t.key == HashOf && i < |ps| && t.count <= i && 2 * |ps| <= t.slots.Length && Records(t.contents, ps[..i])
    modifies t, t.slots
    ensures t.Valid()
    ensures ok ==> t.count <= i + 1 && Records(t.contents, ps[..i + 1])
    ensures !ok ==> !Agree(ps)
  {
    RecordNext(t.contents, ps, i);
    var r := Insert(t, ps[i]);
    assert r != OverPlan;
    ok := r == Done;
  }

  /** A table planned for its inserts takes them all unless two sizes conflict. */
  method InsertAll(t: Table<Digest, Plain>, ps: seq<Plain>) returns (ok: bool)
    requires t.Valid() && t.key == HashOf && t.contents == map[] && 2 * |ps| <= t.slots.Length
    modifies t, t.slots
    ensures t.Valid() && (ok <==> Agree(ps))
    ensures ok ==> Records(t.contents, ps)
  {
    for i := 0 to |ps|
      invariant t.Valid() && t.count <= i && Records(t.contents, ps[..i])
    {
      ok := InsertNext(t, ps, i);
      if !ok { return; }
    }
    assert ps[..|ps|] == ps;
    RecordsMean(t.contents, ps);
    ok := true;
  }

  // ---- observations -------------------------------------------------------------------------

  datatype Row = FileRow(path: string, data: string) | LinkRow(path: string)

  /** A slot refers to a row by its digest and its position. */
  datatype Ref = Ref(digest: nat, path: string, position: nat)

  function PathOf(r: Ref): string { r.path }

  /** What the table of the first `n` rows refers to: their file rows. */
  predicate Indexes(contents: map<string, Ref>, rows: seq<Row>, n: nat, digest: string -> nat) {
    && n <= |rows|
    && (forall i | 0 <= i < n && rows[i].FileRow? :: rows[i].path in contents && contents[rows[i].path] == Ref(digest(rows[i].path), rows[i].path, i))
    && forall p | p in contents :: contents[p].position < n && rows[contents[p].position].FileRow? &&
         contents[p] == Ref(digest(p), p, contents[p].position) && rows[contents[p].position].path == p
  }

  predicate PathsDiffer(rows: seq<Row>) {
    forall i, j | 0 <= i < j < |rows| :: rows[i].path != rows[j].path
  }

  method CountFiles(rows: seq<Row>) returns (count: nat)
    ensures count <= |rows| && count == Files(rows, |rows|)
  {
    count := 0;
    for i := 0 to |rows|
      invariant count == Files(rows, i) && count <= i
    {
      if rows[i].FileRow? { count := count + 1; }
    }
  }

  function Files(rows: seq<Row>, n: nat): nat
    requires n <= |rows|
  {
    if n == 0 then 0 else Files(rows, n - 1) + if rows[n - 1].FileRow? then 1 else 0
  }

  lemma {:induction false} FilesGrow(rows: seq<Row>, m: nat, n: nat)
    requires m <= n <= |rows|
    ensures Files(rows, m) <= Files(rows, n)
  {
    if m < n { FilesGrow(rows, m, n - 1); }
  }

  lemma IndexMore(contents: map<string, Ref>, rows: seq<Row>, i: nat, digest: string -> nat)
    requires PathsDiffer(rows) && i < |rows| && Indexes(contents, rows, i, digest)
    ensures rows[i].path !in contents
    ensures var p := rows[i].path;
            Indexes(if rows[i].FileRow? then contents[p := Ref(digest(p), p, i)] else contents, rows, i + 1, digest)
  {
  }

  ghost predicate Building(t: Table<string, Ref>, rows: seq<Row>, i: nat)
    reads t, t.slots
  {
    t.Valid() && t.key == PathOf && i <= |rows| && t.count == Files(rows, i) && Indexes(t.contents, rows, i, t.bucket)
  }

  method IndexRow(t: Table<string, Ref>, rows: seq<Row>, i: nat)
    requires PathsDiffer(rows) && i < |rows| && Building(t, rows, i) && 2 * Files(rows, |rows|) <= t.slots.Length
    modifies t, t.slots
    ensures Building(t, rows, i + 1)
  {
    IndexMore(t.contents, rows, i, t.bucket);
    FilesGrow(rows, i + 1, |rows|);
    if rows[i].FileRow? { AddPlanned(t, Ref(t.bucket(rows[i].path), rows[i].path, i)); }
  }

  /** The table was planned for all file rows, so adding one cannot fail. */
  method AddPlanned(t: Table<string, Ref>, r: Ref)
    requires t.Valid() && t.key == PathOf && r.path !in t.contents && 2 * (t.count + 1) <= t.slots.Length
    modifies t, t.slots
    ensures t.Valid() && t.count == old(t.count) + 1 && t.contents == old(t.contents)[r.path := r]
  {
    var ok := t.Add(r);
  }

  /** Building over sorted unique rows never fills the table. */
  method BuildObservations(t: Table<string, Ref>, rows: seq<Row>)
    requires t.Valid() && t.key == PathOf && t.contents == map[] && t.count == 0
    requires PathsDiffer(rows) && 2 * Files(rows, |rows|) <= t.slots.Length
    modifies t, t.slots
    ensures t.Valid() && Indexes(t.contents, rows, |rows|, t.bucket)
  {
    for i := 0 to |rows|
      invariant Building(t, rows, i)
    {
      IndexRow(t, rows, i);
    }
  }

  method NewObservationIndex(rows: seq<Row>, digest: string -> nat) returns (t: Table<string, Ref>)
    requires PathsDiffer(rows)
    ensures fresh(t) && fresh(t.slots) && t.Valid() && t.key == PathOf && t.bucket == digest
    ensures Indexes(t.contents, rows, |rows|, digest)
  {
    var files := CountFiles(rows);
    var capacity := Capacity(files);
    t := new Table(capacity, PathOf, digest);
    BuildObservations(t, rows);
  }

  /** Lookup finds a file row exactly when that path has one, whatever digests collide. */
  method Lookup(t: Table<string, Ref>, rows: seq<Row>, path: string) returns (found: Option<Row>)
    requires t.Valid() && t.key == PathOf && Indexes(t.contents, rows, |rows|, t.bucket)
    ensures found.Some? ==> found.value in rows && found.value.FileRow? && found.value.path == path
    ensures found.None? ==> forall i | 0 <= i < |rows| :: rows[i].FileRow? ==> rows[i].path != path
  {
    var s := t.Find(path);
    if t.slots[s].None? { return None; }
    var r := t.slots[s].value;
    found := Some(rows[r.position]);
  }
}
