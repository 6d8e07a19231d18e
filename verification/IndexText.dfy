/** index.tsv: printing and parsing of index entries, and of whole index files. */
module IndexText {
  import opened Bytes
  import opened Model
  import opened ExternalSort
  import opened Canonical
  import opened Numbers
  import AncestorSweep

  const KIND_FILE: Str := [102, 105, 108, 101]
  const KIND_SYMLINK: Str := [115, 121, 109, 108, 105, 110, 107]
  const FILE_PREFIX: Str := [98, 108, 97, 107, 101, 50, 98, 58]  // blake2b:
  const LINK_PREFIX: Str := [116, 97, 114, 103, 101, 116, 58]    // target:
  const DASH: Str := [45]
  const NOTHING: Str := [48]  // the size of a link
  const ROOT: Str := [46, 47]
  const SLASH: Byte := 47
  const BLAKE2B := 128  // hex digits

  predicate HexByte(b: Byte) {
    48 <= b <= 57 || 97 <= b <= 102
  }

  predicate HexText(s: Str, n: nat) {
    |s| == n && forall i | 0 <= i < |s| :: HexByte(s[i])
  }

  predicate Component(c: Str) {
    c != [] && c != [46] && c != [46, 46]
  }

  predicate ValidPath(p: Str) {
    && |p| > 2 && HasPrefix(p, ROOT) && RawField(p)
    && forall i | 0 <= i < |Split(p[2..], SLASH)| :: Component(Split(p[2..], SLASH)[i])
  }

  predicate ValidTarget(p: Str) {
    p == ROOT || ValidPath(p)
  }

  datatype IndexEntry = IndexEntry(path: Str, kind: Str, ref: Str, size: nat, mode: nat, mtime: int)

  /** The integer widths of the fields. */
  predicate Typed(e: IndexEntry) {
    e.size < UINT64 && e.mode < UINT32 && -INT64 <= e.mtime < INT64
  }

  predicate Valid(e: IndexEntry) {
    && ValidPath(e.path)
    && if e.kind == KIND_FILE then
         HasPrefix(e.ref, FILE_PREFIX) && HexText(e.ref[|FILE_PREFIX|..], BLAKE2B) && e.mode <= 511
       else
         && e.kind == KIND_SYMLINK && e.size == 0 && e.mode == 0 && e.mtime == 0
         && HasPrefix(e.ref, LINK_PREFIX) && ValidTarget(e.ref[|LINK_PREFIX|..])
  }

  function ModeText(mode: nat): Str
    requires mode <= 511
  {
    [48, 48 + mode / 64, 48 + mode / 8 % 8, 48 + mode % 8]
  }

  predicate Octal(b: Byte) {
    48 <= b <= 55
  }

  function ParseMode(s: Str): Option<nat> {
    if |s| == 4 && s[0] == 48 && Octal(s[1]) && Octal(s[2]) && Octal(s[3])
    then var a: nat, b: nat, c: nat := s[1] - 48, s[2] - 48, s[3] - 48; Some(a * 64 + b * 8 + c)
    else None
  }

  lemma ModeValue(mode: nat)
    requires mode <= 511
    ensures 0 <= mode / 64 < 8 && mode / 64 * 64 + mode / 8 % 8 * 8 + mode % 8 == mode
  {}

  lemma ModeDigits(a: nat, b: nat, c: nat)
    requires a < 8 && b < 8 && c < 8
    ensures ModeText(a * 64 + b * 8 + c) == [48, 48 + a, 48 + b, 48 + c]
  {
    var mode := a * 64 + b * 8 + c;
    assert mode / 8 == a * 8 + b && mode % 8 == c;
    assert mode / 64 == a;
  }

  lemma ParseModeExact(s: Str, mode: nat)
    ensures ParseMode(s) == Some(mode) <==> mode <= 511 && s == ModeText(mode)
  {
    if mode <= 511 { ModeValue(mode); }
    if ParseMode(s).Some? {
      assert s == [s[0], s[1], s[2], s[3]];
      ModeDigits(s[1] - 48, s[2] - 48, s[3] - 48);
    }
  }

  function Row(e: IndexEntry): seq<Str>
    requires Valid(e)
  {
    if e.kind == KIND_SYMLINK then [e.path, e.kind, e.ref, NOTHING, DASH, DASH]
    else [e.path, e.kind, e.ref, Digits(e.size), ModeText(e.mode), IntText(e.mtime)]
  }

  function Checked(e: IndexEntry): Option<IndexEntry> {
    if Valid(e) then Some(e) else None
  }

  function ParseFile(row: seq<Str>, size: nat): Option<IndexEntry>
    requires |row| == 6
  {
    var mode, mtime := ParseMode(row[4]), ParseInt64(row[5]);
    if mode.None? || mtime.None? then None
    else Checked(IndexEntry(row[0], row[1], row[2], size, mode.value, mtime.value))
  }

  function ParseRow(row: seq<Str>): Option<IndexEntry> {
    if |row| != 6 then None
    else
      var size := ParseUint(row[3], UINT64);
      if size.None? then None
      else if row[1] == KIND_FILE then ParseFile(row, size.value)
      else if row[1] != KIND_SYMLINK || row[4] != DASH || row[5] != DASH then None
      else Checked(IndexEntry(row[0], row[1], row[2], size.value, 0, 0))
  }

  /** A row parses to an entry exactly when it is that entry's row. */
  lemma RowExact(row: seq<Str>, e: IndexEntry)
    ensures ParseRow(row) == Some(e) <==> Typed(e) && Valid(e) && row == Row(e)
  {
    if |row| == 6 {
      ParseUintExact(row[3], UINT64, e.size);
      if e.kind == KIND_FILE {
        FileRowExact(row, e);
      } else {
        LinkRowExact(row, e);
      }
    }
  }

  lemma FileRowExact(row: seq<Str>, e: IndexEntry)
    requires |row| == 6 && e.kind == KIND_FILE
    ensures ParseRow(row) == Some(e) <==> Typed(e) && Valid(e) && row == Row(e)
  {
    ParseUintExact(row[3], UINT64, e.size);
    ParseModeExact(row[4], e.mode);
    ParseInt64Exact(row[5], e.mtime);
    assert ParseRow(row) == Some(e) <==>
      && ParseUint(row[3], UINT64) == Some(e.size) && ParseMode(row[4]) == Some(e.mode) && ParseInt64(row[5]) == Some(e.mtime)
      && row[0] == e.path && row[1] == e.kind && row[2] == e.ref && Valid(e);
    assert row == [row[0], row[1], row[2], row[3], row[4], row[5]];
  }

  lemma LinkRowExact(row: seq<Str>, e: IndexEntry)
    requires |row| == 6 && e.kind != KIND_FILE
    ensures ParseRow(row) == Some(e) <==> Typed(e) && Valid(e) && row == Row(e)
  {
    ParseUintExact(row[3], UINT64, 0);
    assert Digits(0) == [48];
    if ParseRow(row) == Some(e) {
      assert ParseUint(row[3], UINT64) == Some(0);
      assert row == [row[0], row[1], row[2], row[3], row[4], row[5]];
    }
  }

  // ---- printable rows -----------------------------------------------------------------------

  predicate Plain(s: Str) {
    s != [] && forall i | 0 <= i < |s| :: 32 < s[i] < 0x80
  }

  lemma {:induction false} AsciiUtf8(s: Str)
    requires forall i | 0 <= i < |s| :: s[i] < 0x80
    ensures Utf8(s)
  {
    if s != [] { AsciiUtf8(s[1..]); }
  }

  lemma PlainIsRaw(s: Str)
    requires Plain(s)
    ensures RawField(s)
  {
    AsciiUtf8(s);
    MarkedBytes(s);
  }

  lemma {:induction false} AsciiBefore(a: Str, b: Str)
    requires forall i | 0 <= i < |a| :: a[i] < 0x80
    requires Utf8(b)
    ensures Utf8(a + b)
  {
    if a == [] {
      assert a + b == b;
    } else {
      AsciiBefore(a[1..], b);
      assert (a + b)[1..] == a[1..] + b;
    }
  }

  lemma RefIsRaw(prefix: Str, tail: Str)
    requires Plain(prefix) && Utf8(tail) && NUL !in tail && TAB !in tail && CR !in tail && LF !in tail
    ensures RawField(prefix + tail)
  {
    AsciiBefore(prefix, tail);
    MarkedBytes(prefix + tail);
  }

  lemma FileRefIsRaw(ref: Str)
    requires HasPrefix(ref, FILE_PREFIX) && HexText(ref[|FILE_PREFIX|..], BLAKE2B)
    ensures RawField(ref)
  {
    AsciiUtf8(ref[|FILE_PREFIX|..]);
    RefIsRaw(FILE_PREFIX, ref[|FILE_PREFIX|..]);
    assert ref == FILE_PREFIX + ref[|FILE_PREFIX|..];
  }

  lemma LinkRefIsRaw(ref: Str)
    requires HasPrefix(ref, LINK_PREFIX) && ValidTarget(ref[|LINK_PREFIX|..])
    ensures RawField(ref)
  {
    AsciiUtf8(ROOT);
    RefIsRaw(LINK_PREFIX, ref[|LINK_PREFIX|..]);
    assert ref == LINK_PREFIX + ref[|LINK_PREFIX|..];
  }

  lemma NumbersAreRaw(size: nat, mode: nat, mtime: int)
    requires mode <= 511
    ensures RawField(Digits(size)) && RawField(ModeText(mode)) && RawField(IntText(mtime))
  {
    PlainIsRaw(Digits(size));
    PlainIsRaw(ModeText(mode));
    PlainIsRaw(IntText(mtime));
  }

  lemma SixRaw(a: Str, b: Str, c: Str, d: Str, e: Str, f: Str)
    requires RawField(a) && RawField(b) && RawField(c) && RawField(d) && RawField(e) && RawField(f)
    ensures Printable([a, b, c, d, e, f])
  {}

  lemma RowPrintable(e: IndexEntry)
    requires Valid(e)
    ensures Printable(Row(e))
  {
    if e.kind == KIND_FILE { FileRowPrintable(e); } else { LinkRowPrintable(e); }
  }

  lemma FileRowPrintable(e: IndexEntry)
    requires Valid(e) && e.kind == KIND_FILE
    ensures Printable(Row(e))
  {
    PlainIsRaw(KIND_FILE);
    FileRefIsRaw(e.ref);
    NumbersAreRaw(e.size, e.mode, e.mtime);
    SixRaw(e.path, e.kind, e.ref, Digits(e.size), ModeText(e.mode), IntText(e.mtime));
  }

  lemma LinkFieldsRaw()
    ensures RawField(KIND_SYMLINK) && RawField(DASH) && RawField(NOTHING)
  {
    SymlinkRaw();
    DashRaw();
    NothingRaw();
  }

  lemma SymlinkRaw()
    ensures RawField(KIND_SYMLINK)
  {
    PlainIsRaw(KIND_SYMLINK);
  }

  lemma DashRaw()
    ensures RawField(DASH)
  {
    PlainIsRaw(DASH);
  }

  lemma NothingRaw()
    ensures RawField(NOTHING)
  {
    PlainIsRaw(NOTHING);
  }

  lemma LinkRowPrintable(e: IndexEntry)
    requires Valid(e) && e.kind != KIND_FILE
    ensures Printable(Row(e))
  {
    LinkFieldsRaw();
    LinkRefIsRaw(e.ref);
    SixRaw(e.path, KIND_SYMLINK, e.ref, NOTHING, DASH, DASH);
  }

  // ---- whole files --------------------------------------------------------------------------

  function Paths(entries: seq<IndexEntry>): seq<Str> {
    seq(|entries|, i requires 0 <= i < |entries| => entries[i].path)
  }

  predicate AllValid(entries: seq<IndexEntry>) {
    forall i | 0 <= i < |entries| :: Valid(entries[i])
  }

  predicate IndexOk(entries: seq<IndexEntry>) {
    AllValid(entries) && Strict(Paths(entries)) && AncestorSweep.NoneAbove(Paths(entries))
  }

  function IndexRows(entries: seq<IndexEntry>): seq<seq<Str>>
    requires AllValid(entries)
  {
    seq(|entries|, i requires 0 <= i < |entries| => Row(entries[i]))
  }

  lemma PathsRooted(entries: seq<IndexEntry>)
    requires AllValid(entries)
    ensures forall i | 0 <= i < |entries| :: AncestorSweep.Rooted(Paths(entries)[i])
  {
    forall i | 0 <= i < |entries| ensures AncestorSweep.Rooted(Paths(entries)[i]) {
      assert entries[i].path[..2] == ROOT;
    }
  }

  /** Printing succeeds exactly on well-formed indexes. */
  method MarshalIndex(entries: seq<IndexEntry>) returns (r: Option<Str>)
    ensures r.Some? <==> IndexOk(entries)
    ensures r.Some? ==> r.value == Print(IndexRows(entries))
  {
    var rows: seq<seq<Str>> := [];
    for i := 0 to |entries|
      invariant AllValid(entries[..i]) && rows == IndexRows(entries[..i])
    {
      if !Valid(entries[i]) { return None; }
      rows := rows + [Row(entries[i])];
    }
    assert entries[..|entries|] == entries;
    PathsRooted(entries);
    AncestorSweep.RootedCovers(Paths(entries));
    var ordered := AncestorSweep.ValidateIndexOrder(Paths(entries));
    if !ordered { return None; }
    forall i | 0 <= i < |rows| ensures Printable(rows[i]) { RowPrintable(entries[i]); }
    r := MarshalRows(rows);
  }

  predicate Parsed(rows: seq<seq<Str>>, entries: seq<IndexEntry>) {
    |entries| == |rows| && forall i | 0 <= i < |rows| :: ParseRow(rows[i]) == Some(entries[i])
  }

  lemma PathsExtend(entries: seq<IndexEntry>, e: IndexEntry)
    requires Strict(Paths(entries)) && (entries != [] ==> Less(entries[|entries| - 1].path, e.path))
    ensures Strict(Paths(entries + [e]))
  {
    StrictExtend(Paths(entries), e.path);
    assert Paths(entries + [e]) == Paths(entries) + [e.path];
  }

  /** Walking visits the parsed rows in order and stops at the first that fails or falls back. */
  method WalkIndex(rows: seq<seq<Str>>) returns (r: Option<seq<IndexEntry>>)
    ensures r.Some? ==> Parsed(rows, r.value) && Strict(Paths(r.value))
    ensures forall entries | Parsed(rows, entries) && Strict(Paths(entries)) :: r == Some(entries)
  {
    var entries: seq<IndexEntry> := [];
    for i := 0 to |rows|
      invariant |entries| == i && forall j | 0 <= j < i :: ParseRow(rows[j]) == Some(entries[j])
      invariant Strict(Paths(entries))
    {
      var e := ParseRow(rows[i]);
      if e.None? { return None; }
      if i > 0 && !Less(entries[i - 1].path, e.value.path) {
        forall es | Parsed(rows, es) ensures !Strict(Paths(es)) { FallsBack(rows, es, i, entries[i - 1], e.value); }
        return None;
      }
      PathsExtend(entries, e.value);
      entries := entries + [e.value];
    }
    forall es | Parsed(rows, es) ensures es == entries { ParsedOnce(rows, es, entries); }
    r := Some(entries);
  }

  lemma FallsBack(rows: seq<seq<Str>>, entries: seq<IndexEntry>, i: nat, before: IndexEntry, e: IndexEntry)
    requires Parsed(rows, entries) && 0 < i < |rows| && !Less(before.path, e.path)
    requires ParseRow(rows[i - 1]) == Some(before) && ParseRow(rows[i]) == Some(e)
    ensures !Strict(Paths(entries))
  {
    assert Paths(entries)[i - 1] == before.path && Paths(entries)[i] == e.path;
  }

  lemma ParsedOnce(rows: seq<seq<Str>>, a: seq<IndexEntry>, b: seq<IndexEntry>)
    requires Parsed(rows, a) && Parsed(rows, b)
    ensures a == b
  {
    assert forall i | 0 <= i < |rows| :: Some(a[i]) == ParseRow(rows[i]) == Some(b[i]);
  }

  predicate AllTyped(entries: seq<IndexEntry>) {
    forall i | 0 <= i < |entries| :: Typed(entries[i])
  }

  lemma ParsedExact(rows: seq<seq<Str>>, entries: seq<IndexEntry>)
    ensures Parsed(rows, entries) <==> AllTyped(entries) && AllValid(entries) && rows == IndexRows(entries)
  {
    if |rows| == |entries| {
      forall i | 0 <= i < |rows|
        ensures ParseRow(rows[i]) == Some(entries[i]) <==> Typed(entries[i]) && Valid(entries[i]) && rows[i] == Row(entries[i])
      {
        RowExact(rows[i], entries[i]);
      }
    }
  }

  predicate Spells(text: Str, l: Limits, entries: seq<IndexEntry>) {
    Readable(text, l) && AllTyped(entries) && IndexOk(entries) && text == Print(IndexRows(entries))
  }

  lemma SpellsExact(text: Str, l: Limits, entries: seq<IndexEntry>)
    requires Readable(text, l)
    ensures Spells(text, l, entries) <==> Parsed(Rows(text), entries) && IndexOk(entries)
  {
    ParsedExact(Rows(text), entries);
    PrintRead(text, l);
    if AllValid(entries) {
      forall i | 0 <= i < |entries| ensures Printable(IndexRows(entries)[i]) { RowPrintable(entries[i]); }
      RowsPrinted(IndexRows(entries));
    }
  }

  /** A text parses to exactly the well-formed index it spells, if it spells one. */
  method ParseIndex(text: Str, l: Limits) returns (r: Option<seq<IndexEntry>>)
    ensures r.Some? ==> Spells(text, l, r.value)
    ensures forall entries | Spells(text, l, entries) :: r == Some(entries)
  {
    var rows := ScanRows(text, l);
    if rows.None? { return None; }
    forall entries ensures Spells(text, l, entries) <==> Parsed(rows.value, entries) && IndexOk(entries) {
      SpellsExact(text, l, entries);
    }
    var walked := WalkIndex(rows.value);
    if walked.None? { return None; }
    ParsedExact(rows.value, walked.value);
    PathsRooted(walked.value);
    AncestorSweep.RootedCovers(Paths(walked.value));
    var ordered := AncestorSweep.ValidateIndexOrder(Paths(walked.value));
    if !ordered { return None; }
    r := walked;
  }

  /** A printed index within the limits is parsed back, entry for entry. */
  method RoundTrip(entries: seq<IndexEntry>, l: Limits) returns (r: Option<seq<IndexEntry>>)
    requires AllTyped(entries) && IndexOk(entries)
    ensures r == if Within(IndexRows(entries), l) then Some(entries) else None
  {
    var text := MarshalIndex(entries);
    forall i | 0 <= i < |entries| ensures Printable(IndexRows(entries)[i]) { RowPrintable(entries[i]); }
    ReadPrinted(IndexRows(entries), l);
    r := ParseIndex(text.value, l);
    assert Readable(text.value, l) ==> Spells(text.value, l, entries);
  }
}
