/** Metadata manifests: their text form, its parser, and the part-count ceiling that follows from the
    length of a part row. */
module ManifestText {
  import opened Bytes
  import opened Model
  import opened ExternalSort
  import opened Canonical
  import opened Numbers
  import opened IndexText

  const MAX_BYTES := 0x10_0000
  const MAX_PARTS := MAX_BYTES / 271
  const DEFAULT_LINE := 0x4000
  const DEFAULT_FIELD := 0x2000

  const FULL: Str := [102, 117, 108, 108]
  const INCREMENTAL: Str := [105, 110, 99, 114, 101, 109, 101, 110, 116, 97, 108]
  const PART: Str := [112, 97, 114, 116]
  const VERSION: Str := [49]
  // repository-uuid, manifest-format, sequence, base-commit, tip-commit, kind, bundle-blake2b, bundle-size, part-count
  const TAGS: seq<Str> := [
    [114, 101, 112, 111, 115, 105, 116, 111, 114, 121, 45, 117, 117, 105, 100],
    [109, 97, 110, 105, 102, 101, 115, 116, 45, 102, 111, 114, 109, 97, 116],
    [115, 101, 113, 117, 101, 110, 99, 101],
    [98, 97, 115, 101, 45, 99, 111, 109, 109, 105, 116],
    [116, 105, 112, 45, 99, 111, 109, 109, 105, 116],
    [107, 105, 110, 100],
    [98, 117, 110, 100, 108, 101, 45, 98, 108, 97, 107, 101, 50, 98],
    [98, 117, 110, 100, 108, 101, 45, 115, 105, 122, 101],
    [112, 97, 114, 116, 45, 99, 111, 117, 110, 116]]

  datatype ManifestPart = ManifestPart(number: nat, count: nat, id: Str, hash: Str, sha256: Str, md5: Str, size: nat)

  datatype MetadataManifest = MetadataManifest(
    uuid: Str, sequence: nat, base: Str, tip: Str, kind: Str, bundleHash: Str, bundleSize: nat, parts: seq<ManifestPart>)

  /** The integer widths of the fields. */
  predicate TypedPart(p: ManifestPart) {
    p.number < UINT32 && p.count < UINT32 && p.size < UINT64
  }

  predicate TypedManifest(m: MetadataManifest) {
    m.sequence < UINT64 && m.bundleSize < UINT64 && forall i | 0 <= i < |m.parts| :: TypedPart(m.parts[i])
  }

  predicate UuidText(s: Str) {
    && |s| == 36 && s[8] == 45 && s[13] == 45 && s[18] == 45 && s[23] == 45
    && 49 <= s[14] <= 53 && s[19] in {56, 57, 97, 98}
    && forall i | 0 <= i < 36 && i !in {8, 13, 18, 23} :: HexByte(s[i])
  }

  predicate PartOk(p: ManifestPart, i: nat, n: nat) {
    && p.number == i && p.count == n && p.size > 0
    && HexText(p.id, 32) && HexText(p.hash, 128) && HexText(p.sha256, 64) && HexText(p.md5, 32)
  }

  function Total(parts: seq<ManifestPart>): nat {
    if parts == [] then 0 else Total(parts[..|parts| - 1]) + parts[|parts| - 1].size
  }

  predicate HeaderOk(m: MetadataManifest) {
    && UuidText(m.uuid) && HexText(m.tip, 64) && HexText(m.bundleHash, 128) && m.bundleSize > 0
    && if m.kind == FULL then m.sequence == 0 && m.base == DASH
       else m.kind == INCREMENTAL && m.sequence > 0 && HexText(m.base, 64) && m.base != m.tip
  }

  predicate ManifestOk(m: MetadataManifest) {
    && HeaderOk(m) && 0 < |m.parts| <= MAX_PARTS
    && (forall i | 0 <= i < |m.parts| :: PartOk(m.parts[i], i, |m.parts|))
    && Total(m.parts) == m.bundleSize
  }

  lemma {:induction false} TotalGrows(parts: seq<ManifestPart>, i: nat)
    requires i <= |parts|
    ensures Total(parts[..i]) <= Total(parts)
    decreases |parts|
  {
    if i < |parts| {
      TotalGrows(parts[..|parts| - 1], i);
      assert parts[..|parts| - 1][..i] == parts[..i];
    } else {
      assert parts[..i] == parts;
    }
  }

  /** The running total wraps for no accepted manifest: the overflow test decides nothing else. */
  method Validate(m: MetadataManifest) returns (ok: bool)
    requires TypedManifest(m)
    ensures ok <==> ManifestOk(m)
  {
    if !HeaderOk(m) || |m.parts| == 0 || |m.parts| > MAX_PARTS { return false; }
    var total := 0;
    for i := 0 to |m.parts|
      invariant forall j | 0 <= j < i :: PartOk(m.parts[j], j, |m.parts|)
      invariant total == Total(m.parts[..i]) < UINT64
    {
      if !PartOk(m.parts[i], i, |m.parts|) { return false; }
      assert m.parts[..i + 1][..i] == m.parts[..i];
      if UINT64 - 1 - total < m.parts[i].size {
        TotalGrows(m.parts, i + 1);
        return false;
      }
      total := total + m.parts[i].size;
    }
    assert m.parts[..|m.parts|] == m.parts;
    ok := total == m.bundleSize;
  }

  // ---- rows ---------------------------------------------------------------------------------

  function Values(m: MetadataManifest): seq<Str> {
    [m.uuid, VERSION, Digits(m.sequence), m.base, m.tip, m.kind, m.bundleHash, Digits(m.bundleSize), Digits(|m.parts|)]
  }

  function Header(m: MetadataManifest): seq<seq<Str>> {
    seq(9, i requires 0 <= i < 9 => [TAGS[i], Values(m)[i]])
  }

  function PartRow(p: ManifestPart): seq<Str> {
    [PART, Digits(p.number), Digits(p.count), p.id, p.hash, p.sha256, p.md5, Digits(p.size)]
  }

  function PartRows(parts: seq<ManifestPart>): seq<seq<Str>> {
    seq(|parts|, i requires 0 <= i < |parts| => PartRow(parts[i]))
  }

  function ManifestRows(m: MetadataManifest): seq<seq<Str>> {
    Header(m) + PartRows(m.parts)
  }

  function ParsePart(row: seq<Str>): Option<ManifestPart> {
    if |row| != 8 || row[0] != PART then None
    else
      var number, count, size := ParseUint(row[1], UINT32), ParseUint(row[2], UINT32), ParseUint(row[7], UINT64);
      if number.None? || count.None? || size.None? then None
      else Some(ManifestPart(number.value, count.value, row[3], row[4], row[5], row[6], size.value))
  }

  lemma PartExact(row: seq<Str>, p: ManifestPart)
    ensures ParsePart(row) == Some(p) <==> TypedPart(p) && row == PartRow(p)
  {
    if |row| == 8 {
      ParseUintExact(row[1], UINT32, p.number);
      ParseUintExact(row[2], UINT32, p.count);
      ParseUintExact(row[7], UINT64, p.size);
      assert row == [row[0], row[1], row[2], row[3], row[4], row[5], row[6], row[7]];
    }
  }

  predicate ParsedParts(rows: seq<seq<Str>>, parts: seq<ManifestPart>) {
    |rows| == |parts| && forall i | 0 <= i < |rows| :: ParsePart(rows[i]) == Some(parts[i])
  }

  lemma PartsExact(rows: seq<seq<Str>>, parts: seq<ManifestPart>)
    ensures ParsedParts(rows, parts) <==> (forall i | 0 <= i < |parts| :: TypedPart(parts[i])) && rows == PartRows(parts)
  {
    if |rows| == |parts| {
      forall i | 0 <= i < |rows|
        ensures ParsePart(rows[i]) == Some(parts[i]) <==> TypedPart(parts[i]) && rows[i] == PartRow(parts[i])
      {
        PartExact(rows[i], parts[i]);
      }
    }
  }

  method ParseParts(rows: seq<seq<Str>>) returns (r: Option<seq<ManifestPart>>)
    ensures r.Some? ==> ParsedParts(rows, r.value)
    ensures forall parts | ParsedParts(rows, parts) :: r == Some(parts)
  {
    var parts: seq<ManifestPart> := [];
    for i := 0 to |rows|
      invariant ParsedParts(rows[..i], parts)
    {
      var p := ParsePart(rows[i]);
      if p.None? { return None; }
      parts := parts + [p.value];
    }
    assert rows[..|rows|] == rows;
    forall ps | ParsedParts(rows, ps) ensures ps == parts { assert forall i | 0 <= i < |rows| :: ps[i] == parts[i]; }
    r := Some(parts);
  }

  /** The nine leading records carry their tags, two fields each. */
  predicate Tagged(rows: seq<seq<Str>>) {
    |rows| >= 10 && forall i | 0 <= i < 9 :: |rows[i]| == 2 && rows[i][0] == TAGS[i]
  }

  method CheckTags(rows: seq<seq<Str>>) returns (ok: bool)
    ensures ok <==> Tagged(rows)
  {
    if |rows| < 10 { return false; }
    for i := 0 to 9
      invariant forall j | 0 <= j < i :: |rows[j]| == 2 && rows[j][0] == TAGS[j]
    {
      if |rows[i]| != 2 || rows[i][0] != TAGS[i] { return false; }
    }
    ok := true;
  }

  predicate Describes(rows: seq<seq<Str>>, m: MetadataManifest) {
    TypedManifest(m) && ManifestOk(m) && rows == ManifestRows(m)
  }

  lemma DescribesHeader(rows: seq<seq<Str>>, m: MetadataManifest)
    requires Tagged(rows)
    ensures rows == ManifestRows(m) <==> (forall i | 0 <= i < 9 :: rows[i][1] == Values(m)[i]) && rows[9..] == PartRows(m.parts)
  {
    forall i | 0 <= i < 9 ensures rows[i] == Header(m)[i] <==> rows[i][1] == Values(m)[i] {
      assert rows[i] == [rows[i][0], rows[i][1]];
    }
    assert rows == rows[..9] + rows[9..];
    if rows == ManifestRows(m) {
      assert rows[..9] == Header(m) && rows[9..] == PartRows(m.parts);
    }
    if forall i | 0 <= i < 9 :: rows[i][1] == Values(m)[i] {
      assert rows[..9] == Header(m);
    }
  }

  lemma DescribedTagged(rows: seq<seq<Str>>, m: MetadataManifest)
    requires Describes(rows, m)
    ensures Tagged(rows)
  {
    assert forall i | 0 <= i < 9 :: rows[i] == Header(m)[i];
  }

  /** Rows parse to exactly the valid manifest they describe, if they describe one. */
  method ParseManifestRows(rows: seq<seq<Str>>, records: int) returns (r: Option<MetadataManifest>)
    requires |rows| <= records
    ensures r.Some? ==> Describes(rows, r.value)
    ensures forall m | Describes(rows, m) :: r == Some(m)
  {
    var tagged := CheckTags(rows);
    if !tagged {
      forall m ensures !Describes(rows, m) { if Describes(rows, m) { DescribedTagged(rows, m); } }
      return None;
    }
    var sequence, size, count := ParseUint(rows[2][1], UINT64), ParseUint(rows[7][1], UINT64), ParseUint(rows[8][1], UINT32);
    forall m | Describes(rows, m) ensures HeaderRead(rows, m) { DescribedRead(rows, m); }
    if rows[1][1] != VERSION || sequence.None? || size.None? || count.None? { return None; }
    if count.value == 0 || count.value > records - 9 || |rows| != 9 + count.value { return None; }
    var parts := ParseParts(rows[9..]);
    if parts.None? { return None; }
    var m := MetadataManifest(rows[0][1], sequence.value, rows[3][1], rows[4][1], rows[5][1], rows[6][1], size.value, parts.value);
    ReadDescribes(rows, m);
    forall n | Describes(rows, n) ensures n == m { assert HeaderRead(rows, n); }
    var ok := Validate(m);
    if !ok { return None; }
    r := Some(m);
  }

  /** What the parser takes from the rows is the manifest. */
  predicate HeaderRead(rows: seq<seq<Str>>, m: MetadataManifest)
    requires Tagged(rows)
  {
    && rows[1][1] == VERSION
    && ParseUint(rows[2][1], UINT64) == Some(m.sequence) && ParseUint(rows[7][1], UINT64) == Some(m.bundleSize)
    && ParseUint(rows[8][1], UINT32) == Some(|m.parts|) && |rows| == 9 + |m.parts|
    && rows[0][1] == m.uuid && rows[3][1] == m.base && rows[4][1] == m.tip && rows[5][1] == m.kind && rows[6][1] == m.bundleHash
    && ParsedParts(rows[9..], m.parts)
  }

  lemma DescribedRead(rows: seq<seq<Str>>, m: MetadataManifest)
    requires Tagged(rows) && Describes(rows, m)
    ensures HeaderRead(rows, m)
  {
    DescribesHeader(rows, m);
    ParseUintExact(rows[2][1], UINT64, m.sequence);
    ParseUintExact(rows[7][1], UINT64, m.bundleSize);
    ParseUintExact(rows[8][1], UINT32, |m.parts|);
    PartsExact(rows[9..], m.parts);
    assert rows[2][1] == Values(m)[2] && rows[7][1] == Values(m)[7] && rows[8][1] == Values(m)[8];
    assert rows[0][1] == Values(m)[0] && rows[1][1] == Values(m)[1] && rows[3][1] == Values(m)[3];
    assert rows[4][1] == Values(m)[4] && rows[5][1] == Values(m)[5] && rows[6][1] == Values(m)[6];
  }

  lemma ReadDescribes(rows: seq<seq<Str>>, m: MetadataManifest)
    requires Tagged(rows) && HeaderRead(rows, m)
    ensures TypedManifest(m) && rows == ManifestRows(m)
  {
    ParseUintExact(rows[2][1], UINT64, m.sequence);
    ParseUintExact(rows[7][1], UINT64, m.bundleSize);
    ParseUintExact(rows[8][1], UINT32, |m.parts|);
    PartsExact(rows[9..], m.parts);
    DescribesHeader(rows, m);
  }

  // ---- sizes --------------------------------------------------------------------------------

  lemma {:induction false} DigitsLength(n: nat, k: nat)
    requires k >= 1 && n < Pow10(k)
    ensures |Digits(n)| <= k
  {
    if n >= 10 {
      assert k > 1 by { assert Pow10(1) == 10; }
      DigitsLength(n / 10, k - 1);
    }
  }

  lemma NumberLength(n: nat)
    requires n < UINT64
    ensures 1 <= |Digits(n)| <= 20
  {
    assert Pow10(4) == 10 * Pow10(3) == 10000;
    assert Pow10(8) == 10 * Pow10(7) == 100 * Pow10(6) == 1000 * Pow10(5) == 100000000;
    assert Pow10(12) == 10 * Pow10(11) == 100 * Pow10(10) == 1000 * Pow10(9) == 1000000000000;
    assert Pow10(16) == 10 * Pow10(15) == 100 * Pow10(14) == 1000 * Pow10(13) == 10000000000000000;
    assert Pow10(20) == 10 * Pow10(19) == 100 * Pow10(18) == 1000 * Pow10(17) == 100000000000000000000;
    DigitsLength(n, 20);
  }

  lemma SumOfPart(a: Str, b: Str, c: Str, d: Str, e: Str, f: Str, g: Str, h: Str)
    ensures Sum([a, b, c, d, e, f, g, h]) == |a| + |b| + |c| + |d| + |e| + |f| + |g| + |h|
  {
    assert [h][1..] == [] && Sum([h]) == |h|;
    assert [g, h][1..] == [h] && Sum([g, h]) == |g| + Sum([h]);
    assert [f, g, h][1..] == [g, h] && Sum([f, g, h]) == |f| + Sum([g, h]);
    assert [e, f, g, h][1..] == [f, g, h] && Sum([e, f, g, h]) == |e| + Sum([f, g, h]);
    assert [d, e, f, g, h][1..] == [e, f, g, h] && Sum([d, e, f, g, h]) == |d| + Sum([e, f, g, h]);
    assert [c, d, e, f, g, h][1..] == [d, e, f, g, h] && Sum([c, d, e, f, g, h]) == |c| + Sum([d, e, f, g, h]);
    assert [b, c, d, e, f, g, h][1..] == [c, d, e, f, g, h];
    assert [a, b, c, d, e, f, g, h][1..] == [b, c, d, e, f, g, h];
  }

  lemma PartFields(p: ManifestPart, i: nat, n: nat)
    requires PartOk(p, i, n)
    ensures Printable(PartRow(p))
  {
    PlainIsRaw(PART);
    PlainIsRaw(Digits(p.number));
    PlainIsRaw(Digits(p.count));
    PlainIsRaw(Digits(p.size));
    PlainIsRaw(p.id);
    PlainIsRaw(p.hash);
    PlainIsRaw(p.sha256);
    PlainIsRaw(p.md5);
  }

  lemma PartRowBytes(p: ManifestPart, i: nat, n: nat)
    requires PartOk(p, i, n)
    ensures |Join(PartRow(p), TAB)| == Sum(PartRow(p)) + 7 == 267 + |Digits(p.number)| + |Digits(p.count)| + |Digits(p.size)|
  {
    SumOfPart(PART, Digits(p.number), Digits(p.count), p.id, p.hash, p.sha256, p.md5, Digits(p.size));
    JoinLength(PartRow(p), TAB);
  }

  lemma PartRowFits(p: ManifestPart, i: nat, n: nat)
    requires PartOk(p, i, n) && TypedPart(p)
    ensures RowFits(PartRow(p), UNMARSHAL)
  {
    PartRowBytes(p, i, n);
    NumberLength(p.number);
    NumberLength(p.count);
    NumberLength(p.size);
  }

  predicate ShortPlain(s: Str) {
    Plain(s) && |s| <= 128
  }

  lemma TagsPlain()
    ensures forall i | 0 <= i < 9 :: ShortPlain(TAGS[i])
  {}

  lemma ValuesPlain(m: MetadataManifest)
    requires TypedManifest(m) && HeaderOk(m) && |m.parts| < UINT32
    ensures forall i | 0 <= i < 9 :: ShortPlain(Values(m)[i]) && ShortPlain(TAGS[i])
  {
    TagsPlain();
    NumberLength(m.sequence);
    NumberLength(m.bundleSize);
    NumberLength(|m.parts|);
    assert forall i | 0 <= i < 36 :: 32 < m.uuid[i] < 0x80;
  }

  lemma HeaderRowOk(tag: Str, value: Str)
    requires ShortPlain(tag) && ShortPlain(value)
    ensures Printable([tag, value]) && RowFits([tag, value], UNMARSHAL)
  {
    PlainIsRaw(tag);
    PlainIsRaw(value);
    assert [tag, value][1..] == [value];
    assert Sum([tag, value]) == |tag| + Sum([value]) == |tag| + |value|;
  }

  lemma {:induction false} TextFloor(lines: seq<Str>, k: nat)
    requires forall i | 0 <= i < |lines| :: |lines[i]| + 1 >= k
    ensures |Text(lines)| >= k * |lines|
  {
    if lines != [] { TextFloor(lines[1..], k); }
  }

  lemma {:induction false} TextConcat(a: seq<Str>, b: seq<Str>)
    ensures Text(a + b) == Text(a) + Text(b)
  {
    if a == [] {
      assert a + b == b;
    } else {
      TextConcat(a[1..], b);
      assert (a + b)[1..] == a[1..] + b;
    }
  }

  /** Whatever fits the byte ceiling fits the part ceiling: a part row takes at least 271 bytes. */
  lemma PartCeiling(m: MetadataManifest)
    requires forall i | 0 <= i < |m.parts| :: PartOk(m.parts[i], i, |m.parts|)
    requires |Print(ManifestRows(m))| <= MAX_BYTES
    ensures |m.parts| <= MAX_PARTS
  {
    var header, rows := Header(m), PartRows(m.parts);
    assert JoinedLines(ManifestRows(m)) == JoinedLines(header) + JoinedLines(rows);
    TextConcat(JoinedLines(header), JoinedLines(rows));
    forall i | 0 <= i < |rows| ensures |JoinedLines(rows)[i]| + 1 >= 271 { PartRowBytes(m.parts[i], i, |m.parts|); }
    TextFloor(JoinedLines(rows), 271);
  }

  const UNMARSHAL: Limits := Limits(MAX_BYTES, DEFAULT_LINE, DEFAULT_FIELD, 9 + MAX_PARTS)

  lemma ManifestRowOk(m: MetadataManifest, i: nat)
    requires TypedManifest(m) && ManifestOk(m) && i < |ManifestRows(m)|
    ensures Printable(ManifestRows(m)[i]) && RowFits(ManifestRows(m)[i], UNMARSHAL)
  {
    if i < 9 {
      ValuesPlain(m);
      HeaderRowOk(TAGS[i], Values(m)[i]);
    } else {
      PartFields(m.parts[i - 9], i - 9, |m.parts|);
      PartRowFits(m.parts[i - 9], i - 9, |m.parts|);
    }
  }

  lemma ManifestPrintable(m: MetadataManifest)
    requires TypedManifest(m) && ManifestOk(m)
    ensures forall i | 0 <= i < |ManifestRows(m)| :: Printable(ManifestRows(m)[i])
    ensures Within(ManifestRows(m), UNMARSHAL) <==> |Print(ManifestRows(m))| <= MAX_BYTES
  {
    forall i | 0 <= i < |ManifestRows(m)| ensures Printable(ManifestRows(m)[i]) && RowFits(ManifestRows(m)[i], UNMARSHAL) {
      ManifestRowOk(m, i);
    }
  }

  // ---- texts --------------------------------------------------------------------------------

  method MarshalText(m: MetadataManifest) returns (r: Option<Str>)
    requires TypedManifest(m)
    ensures r.Some? <==> ManifestOk(m) && |Print(ManifestRows(m))| <= MAX_BYTES
    ensures r.Some? ==> r.value == Print(ManifestRows(m))
  {
    var ok := Validate(m);
    if !ok { return None; }
    ManifestPrintable(m);
    r := MarshalRows(ManifestRows(m));
    if |r.value| > MAX_BYTES { r := None; }
  }

  function Clamped(l: Limits): Limits {
    l.(file := if l.file > MAX_BYTES then MAX_BYTES else l.file,
       records := if l.records > 9 + MAX_PARTS then 9 + MAX_PARTS else l.records)
  }

  predicate SpellsManifest(text: Str, l: Limits, m: MetadataManifest) {
    Readable(text, l) && TypedManifest(m) && ManifestOk(m) && text == Print(ManifestRows(m))
  }

  lemma SpellsDescribes(text: Str, l: Limits, m: MetadataManifest)
    requires Readable(text, l)
    ensures SpellsManifest(text, l, m) <==> Describes(Rows(text), m)
  {
    PrintRead(text, l);
    if TypedManifest(m) && ManifestOk(m) {
      ManifestPrintable(m);
      RowsPrinted(ManifestRows(m));
    }
  }

  /** A text parses to exactly the valid manifest it spells within the clamped limits. */
  method ParseMetadataManifest(text: Str, l: Limits) returns (r: Option<MetadataManifest>)
    ensures r.Some? ==> SpellsManifest(text, Clamped(l), r.value)
    ensures forall m | SpellsManifest(text, Clamped(l), m) :: r == Some(m)
  {
    var c := Clamped(l);
    var rows := ScanRows(text, c);
    if rows.None? { return None; }
    forall m ensures SpellsManifest(text, c, m) <==> Describes(rows.value, m) { SpellsDescribes(text, c, m); }
    RecordsBound(text, c);
    r := ParseManifestRows(rows.value, c.records);
  }

  lemma RecordsBound(text: Str, l: Limits)
    requires Readable(text, l)
    ensures |Rows(text)| <= l.records
  {
    var n := |RowLines(text)|;
    if n > 0 { assert LineOk(RowLines(text)[n - 1], n - 1, l); }
  }

  /** Every manifest that can be written is read back unchanged under the limits of the reader. */
  method ManifestRoundTrip(m: MetadataManifest) returns (text: Option<Str>, back: Option<MetadataManifest>)
    requires TypedManifest(m)
    ensures text.Some? <==> ManifestOk(m) && |Print(ManifestRows(m))| <= MAX_BYTES
    ensures text.Some? ==> back == Some(m)
  {
    text := MarshalText(m);
    if text.None? { return None, None; }
    ManifestPrintable(m);
    ReadPrinted(ManifestRows(m), UNMARSHAL);
    assert SpellsManifest(text.value, Clamped(UNMARSHAL), m);
    back := ParseMetadataManifest(text.value, UNMARSHAL);
  }

  /** Every accepted text is what its manifest prints as. */
  method TextRoundTrip(text: Str, l: Limits) returns (m: Option<MetadataManifest>, back: Option<Str>)
    ensures m.Some? ==> back == Some(text)
    ensures m.None? ==> forall n :: !SpellsManifest(text, Clamped(l), n)
  {
    m := ParseMetadataManifest(text, l);
    if m.None? { return None, None; }
    back := MarshalText(m.value);
  }
}
