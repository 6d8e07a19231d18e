/** The canonical text layer under every metadata file: records that end in LF, fields separated by
    tabs, no quoting, and numbers with exactly one spelling. */
module Canonical {
  import opened Bytes
  import opened Model
  import opened ExternalSort

  const TAB: Byte := 9
  const NUL: Byte := 0
  const BOM: Str := [0xef, 0xbb, 0xbf]

  // ---- UTF-8 --------------------------------------------------------------------------------

  predicate Continuation(b: Byte) {
    0x80 <= b <= 0xbf
  }

  /** The second byte of a longer rune, whose range depends on the first. */
  predicate Second(a: Byte, b: Byte) {
    && Continuation(b)
    && (a == 0xe0 ==> b >= 0xa0) && (a == 0xed ==> b <= 0x9f)
    && (a == 0xf0 ==> b >= 0x90) && (a == 0xf4 ==> b <= 0x8f)
  }

  /** The length of the rune `s` starts with, 0 where none does. */
  function RuneLength(s: Str): (n: nat)
    requires s != []
    ensures n <= |s| && (n > 1 ==> forall k | 1 <= k < n :: Continuation(s[k]))
  {
    if s[0] < 0x80 then 1
    else if |s| >= 2 && 0xc2 <= s[0] <= 0xdf && Second(s[0], s[1]) then 2
    else if |s| >= 3 && 0xe0 <= s[0] <= 0xef && Second(s[0], s[1]) && Continuation(s[2]) then 3
    else if |s| >= 4 && 0xf0 <= s[0] <= 0xf4 && Second(s[0], s[1]) && Continuation(s[2]) && Continuation(s[3]) then 4
    else 0
  }

  predicate Utf8(s: Str)
    decreases |s|
  {
    s == [] || (RuneLength(s) > 0 && Utf8(s[RuneLength(s)..]))
  }

  /** An ASCII byte ends every rune before it, so validity splits at it. */
  lemma {:induction false} Utf8Cut(a: Str, t: Byte, b: Str)
    requires t < 0x80
    ensures Utf8(a + [t] + b) <==> Utf8(a) && Utf8(b)
    decreases |a|
  {
    var s := a + [t] + b;
    if a == [] {
      assert s[1..] == b;
    } else {
      assert s[|a|] == t && forall k | 0 <= k < |a| :: s[k] == a[k];
      var n := RuneLength(s);
      assert !Continuation(s[|a|]) && n <= |a|;
      assert RuneLength(a) == n;
      if n > 0 {
        Utf8Cut(a[n..], t, b);
        assert s[n..] == a[n..] + [t] + b;
      }
    }
  }

  // ---- fields -------------------------------------------------------------------------------

  function Split(s: Str, sep: Byte): (fields: seq<Str>)
    ensures fields != []
    decreases |s|
  {
    var n := Cut(s, sep);
    if n == |s| then [s] else [s[..n]] + Split(s[n + 1..], sep)
  }

  lemma {:induction false} SplitFree(s: Str, sep: Byte)
    ensures forall i | 0 <= i < |Split(s, sep)| :: sep !in Split(s, sep)[i]
    decreases |s|
  {
    var n := Cut(s, sep);
    if n < |s| { SplitFree(s[n + 1..], sep); } else { assert s[..n] == s; }
  }

  function Join(fields: seq<Str>, sep: Byte): Str {
    if fields == [] then []
    else if |fields| == 1 then fields[0]
    else fields[0] + [sep] + Join(fields[1..], sep)
  }

  lemma SplitCons(a: Str, sep: Byte, b: Str)
    requires sep !in a
    ensures Split(a + [sep] + b, sep) == [a] + Split(b, sep) && Split(a, sep) == [a]
  {
    var s := a + [sep] + b;
    CutUnique(a, sep, b);
    assert s[..|a|] == a && s[|a| + 1..] == b;
  }

  lemma JoinCons(x: Str, rest: seq<Str>, sep: Byte)
    requires rest != []
    ensures Join([x] + rest, sep) == x + [sep] + Join(rest, sep)
  {
    assert ([x] + rest)[1..] == rest;
  }

  lemma {:induction false} SplitJoin(fields: seq<Str>, sep: Byte)
    requires fields != [] && forall i | 0 <= i < |fields| :: sep !in fields[i]
    ensures Split(Join(fields, sep), sep) == fields
  {
    if |fields| == 1 {
      SplitCons(fields[0], sep, []);
    } else {
      SplitJoin(fields[1..], sep);
      SplitCons(fields[0], sep, Join(fields[1..], sep));
    }
  }

  lemma JoinSplitCons(a: Str, sep: Byte, b: Str)
    requires sep !in a && Join(Split(b, sep), sep) == b
    ensures Join(Split(a + [sep] + b, sep), sep) == a + [sep] + b
  {
    SplitCons(a, sep, b);
    JoinCons(a, Split(b, sep), sep);
  }

  lemma {:induction false} JoinSplit(s: Str, sep: Byte)
    ensures Join(Split(s, sep), sep) == s
    decreases |s|
  {
    var n := Cut(s, sep);
    if n < |s| {
      JoinSplit(s[n + 1..], sep);
      JoinSplitCons(s[..n], sep, s[n + 1..]);
      Around(s, n);
    } else {
      assert Join([s], sep) == s;
    }
  }

  /** Bytes other than the separator are in the joined text exactly when some field holds them. */
  lemma {:induction false} JoinHolds(fields: seq<Str>, sep: Byte, b: Byte)
    requires b != sep
    ensures b in Join(fields, sep) <==> exists i | 0 <= i < |fields| :: b in fields[i]
  {
    if |fields| > 1 {
      JoinHolds(fields[1..], sep, b);
      assert forall i | 1 <= i < |fields| :: fields[i] == fields[1..][i - 1];
      if b in Join(fields[1..], sep) {
        var i :| 0 <= i < |fields[1..]| && b in fields[1..][i];
        assert b in fields[i + 1];
      }
    }
  }

  lemma {:induction false} JoinUtf8(fields: seq<Str>, sep: Byte)
    requires sep < 0x80
    ensures Utf8(Join(fields, sep)) <==> forall i | 0 <= i < |fields| :: Utf8(fields[i])
  {
    if |fields| > 1 {
      JoinUtf8(fields[1..], sep);
      Utf8Cut(fields[0], sep, Join(fields[1..], sep));
      assert forall i | 1 <= i < |fields| :: fields[i] == fields[1..][i - 1];
    }
  }

  function Sum(fields: seq<Str>): nat {
    if fields == [] then 0 else |fields[0]| + Sum(fields[1..])
  }

  lemma {:induction false} JoinLength(fields: seq<Str>, sep: Byte)
    requires fields != []
    ensures |Join(fields, sep)| == Sum(fields) + |fields| - 1
  {
    if |fields| > 1 { JoinLength(fields[1..], sep); }
  }

  // ---- records ------------------------------------------------------------------------------

  datatype Limits = Limits(file: int, line: int, field: int, records: int)

  predicate Sound(l: Limits) {
    l.file > 0 && l.line > 0 && l.field > 0 && l.records > 0 && l.line <= l.file && l.field <= l.line
  }

  lemma TextCons(x: Str, rest: seq<Str>)
    ensures Text([x] + rest) == x + [LF] + Text(rest)
  {
    assert ([x] + rest)[1..] == rest;
  }

  lemma LinesPrintedCons(line: Str, rest: Str)
    requires LF !in line && Text(RowLines(rest)) == rest
    ensures Text(RowLines(line + [LF] + rest)) == line + [LF] + rest
  {
    LinesCut(line, rest);
    TextCons(line, RowLines(rest));
  }

  lemma {:induction false} LinesPrinted(text: Str)
    requires Terminated(text)
    ensures Text(RowLines(text)) == text
    decreases |text|
  {
    if text != [] {
      var n := Cut(text, LF);
      assert n < |text|;
      var line, rest := text[..n], text[n + 1..];
      assert Terminated(rest);
      LinesPrinted(rest);
      LinesPrintedCons(line, rest);
      Around(text, n);
    }
  }

  predicate FieldFits(field: Str, l: Limits) {
    0 < |field| <= l.field
  }

  /** What the reader demands of the record at position `i`. */
  predicate LineOk(line: Str, i: nat, l: Limits) {
    && |line| <= l.line && i < l.records
    && Utf8(line) && (i == 0 ==> !HasPrefix(line, BOM))
    && line != [] && NUL !in line && CR !in line
    && forall k | 0 <= k < |Split(line, TAB)| :: FieldFits(Split(line, TAB)[k], l)
  }

  predicate Readable(text: Str, l: Limits) {
    && Sound(l) && |text| <= l.file && Terminated(text)
    && forall i | 0 <= i < |RowLines(text)| :: LineOk(RowLines(text)[i], i, l)
  }

  function Rows(text: Str): seq<seq<Str>> {
    var lines := RowLines(text);
    seq(|lines|, i requires 0 <= i < |lines| => Split(lines[i], TAB))
  }

  method CheckFields(fields: seq<Str>, l: Limits) returns (ok: bool)
    ensures ok <==> forall k | 0 <= k < |fields| :: FieldFits(fields[k], l)
  {
    for k := 0 to |fields|
      invariant forall j | 0 <= j < k :: FieldFits(fields[j], l)
    {
      if |fields[k]| == 0 || |fields[k]| > l.field { return false; }
    }
    ok := true;
  }

  /** Reading succeeds exactly on readable texts and returns all their rows. */
  method ScanRows(text: Str, l: Limits) returns (r: Option<seq<seq<Str>>>)
    ensures r.Some? <==> Readable(text, l)
    ensures r.Some? ==> r.value == Rows(text)
  {
    if !Sound(l) { return None; }
    var rows: seq<seq<Str>> := [];
    var lines := RowLines(text);
    for i := 0 to |lines|
      invariant rows == Rows(text)[..i]
      invariant forall j | 0 <= j < i :: LineOk(lines[j], j, l)
    {
      var line := lines[i];
      if |line| > l.line || i >= l.records || !Utf8(line) { return None; }
      if i == 0 && HasPrefix(line, BOM) { return None; }
      if |line| == 0 || NUL in line || CR in line { return None; }
      var fields := Split(line, TAB);
      var fit := CheckFields(fields, l);
      if !fit { return None; }
      rows := rows + [fields];
    }
    if |text| > l.file { return None; }
    if text != [] && text[|text| - 1] != LF { return None; }
    r := Some(rows);
  }

  predicate RawField(f: Str) {
    f != [] && Utf8(f) && NUL !in f && TAB !in f && CR !in f && LF !in f && !HasPrefix(f, BOM)
  }

  predicate Printable(row: seq<Str>) {
    row != [] && forall k | 0 <= k < |row| :: RawField(row[k])
  }

  function JoinedLines(rows: seq<seq<Str>>): seq<Str> {
    seq(|rows|, i requires 0 <= i < |rows| => Join(rows[i], TAB))
  }

  function Print(rows: seq<seq<Str>>): Str {
    Text(JoinedLines(rows))
  }

  lemma {:induction false} TextAppend(a: seq<Str>, x: Str)
    ensures Text(a + [x]) == Text(a) + x + [LF]
  {
    if a == [] {
      assert a + [x] == [x] && [x][1..] == [];
    } else {
      TextAppend(a[1..], x);
      assert (a + [x])[1..] == a[1..] + [x];
    }
  }

  lemma {:induction false} JoinAppend(fields: seq<Str>, x: Str)
    requires fields != []
    ensures Join(fields + [x], TAB) == Join(fields, TAB) + [TAB] + x
  {
    if |fields| > 1 {
      JoinAppend(fields[1..], x);
      assert (fields + [x])[1..] == fields[1..] + [x];
    }
  }

  method PrintRow(row: seq<Str>) returns (r: Option<Str>)
    ensures r.Some? <==> Printable(row)
    ensures r.Some? ==> r.value == Join(row, TAB)
  {
    if row == [] { return None; }
    var output: Str := [];
    for k := 0 to |row|
      invariant forall j | 0 <= j < k :: RawField(row[j])
      invariant output == Join(row[..k], TAB)
    {
      if !RawField(row[k]) { return None; }
      assert row[..k + 1] == row[..k] + [row[k]];
      if k != 0 {
        JoinAppend(row[..k], row[k]);
        output := output + [TAB];
      }
      output := output + row[k];
    }
    assert row[..|row|] == row;
    r := Some(output);
  }

  method MarshalRows(rows: seq<seq<Str>>) returns (r: Option<Str>)
    ensures r.Some? <==> forall i | 0 <= i < |rows| :: Printable(rows[i])
    ensures r.Some? ==> r.value == Print(rows)
  {
    var output: Str := [];
    for i := 0 to |rows|
      invariant forall j | 0 <= j < i :: Printable(rows[j])
      invariant output == Print(rows[..i])
    {
      var line := PrintRow(rows[i]);
      if line.None? { return None; }
      TextAppend(JoinedLines(rows[..i]), line.value);
      assert JoinedLines(rows[..i + 1]) == JoinedLines(rows[..i]) + [line.value];
      output := output + line.value + [LF];
    }
    assert rows[..|rows|] == rows;
    r := Some(output);
  }

  predicate RowFits(row: seq<Str>, l: Limits) {
    Sum(row) + |row| - 1 <= l.line && forall k | 0 <= k < |row| :: |row[k]| <= l.field
  }

  /** Rows that stay within the reader's limits. */
  predicate Within(rows: seq<seq<Str>>, l: Limits) {
    && Sound(l) && |Print(rows)| <= l.file && |rows| <= l.records
    && forall i | 0 <= i < |rows| :: RowFits(rows[i], l)
  }

  lemma PrefixOfJoin(row: seq<Str>)
    requires Printable(row)
    ensures !HasPrefix(Join(row, TAB), BOM)
  {
    MarkedBytes(row[0]);
    MarkedBytes(Join(row, TAB));
    assert forall k | 0 <= k < |row[0]| :: Join(row, TAB)[k] == row[0][k];
    assert |row| > 1 ==> Join(row, TAB)[|row[0]|] == TAB;
  }

  lemma MarkedBytes(s: Str)
    ensures HasPrefix(s, BOM) <==> |s| >= 3 && s[0] == 0xef && s[1] == 0xbb && s[2] == 0xbf
  {
    if |s| >= 3 { assert s[..3] == [s[0], s[1], s[2]]; }
  }

  lemma PrintedLineOk(row: seq<Str>, i: nat, l: Limits)
    requires Printable(row) && i < l.records
    ensures Split(Join(row, TAB), TAB) == row && LF !in Join(row, TAB)
    ensures LineOk(Join(row, TAB), i, l) <==> RowFits(row, l)
  {
    SplitJoin(row, TAB);
    JoinHolds(row, TAB, LF);
    JoinHolds(row, TAB, NUL);
    JoinHolds(row, TAB, CR);
    JoinUtf8(row, TAB);
    JoinLength(row, TAB);
    PrefixOfJoin(row);
    assert row == [row[0]] + row[1..];
  }

  lemma RowsPrinted(rows: seq<seq<Str>>)
    requires forall i | 0 <= i < |rows| :: Printable(rows[i])
    ensures RowLines(Print(rows)) == JoinedLines(rows) && Terminated(Print(rows))
    ensures Rows(Print(rows)) == rows
  {
    var lines := JoinedLines(rows);
    forall i | 0 <= i < |rows| ensures LF !in lines[i] && Split(lines[i], TAB) == rows[i] {
      PrintedLineOk(rows[i], 0, Limits(1, 1, 1, 1));
    }
    PrintedLines(lines);
  }

  /** Printed rows are read back unchanged exactly when they are within the limits. */
  lemma ReadPrinted(rows: seq<seq<Str>>, l: Limits)
    requires forall i | 0 <= i < |rows| :: Printable(rows[i])
    ensures Readable(Print(rows), l) <==> Within(rows, l)
    ensures Rows(Print(rows)) == rows
  {
    RowsPrinted(rows);
    forall i | 0 <= i < |rows| && i < l.records ensures LineOk(JoinedLines(rows)[i], i, l) <==> RowFits(rows[i], l) {
      PrintedLineOk(rows[i], i, l);
    }
    if Readable(Print(rows), l) && |rows| > 0 {
      assert LineOk(JoinedLines(rows)[|rows| - 1], |rows| - 1, l);
    }
  }

  /** Any readable text is the print of its rows, which could have been printed unless a later field
      starts with a byte order mark. */
  lemma PrintRead(text: Str, l: Limits)
    requires Readable(text, l)
    ensures Print(Rows(text)) == text
    ensures forall i | 0 <= i < |Rows(text)| ::
              Printable(Rows(text)[i]) <==> forall k | 0 <= k < |Rows(text)[i]| :: !HasPrefix(Rows(text)[i][k], BOM)
  {
    LinesPrinted(text);
    LinesFree(text);
    var lines := RowLines(text);
    forall i | 0 <= i < |lines| ensures Join(Split(lines[i], TAB), TAB) == lines[i] { JoinSplit(lines[i], TAB); }
    assert JoinedLines(Rows(text)) == lines;
    forall i | 0 <= i < |lines|
      ensures Printable(Rows(text)[i]) <==> forall k | 0 <= k < |Rows(text)[i]| :: !HasPrefix(Rows(text)[i][k], BOM)
    {
      RawFields(lines[i], i, l);
    }
  }

  lemma RawFields(line: Str, i: nat, l: Limits)
    requires LineOk(line, i, l) && LF !in line
    ensures Printable(Split(line, TAB)) <==> forall k | 0 <= k < |Split(line, TAB)| :: !HasPrefix(Split(line, TAB)[k], BOM)
  {
    var row := Split(line, TAB);
    SplitFree(line, TAB);
    JoinSplit(line, TAB);
    JoinHolds(row, TAB, LF);
    JoinHolds(row, TAB, NUL);
    JoinHolds(row, TAB, CR);
    JoinUtf8(row, TAB);
    forall k | 0 <= k < |row| ensures RawField(row[k]) <==> !HasPrefix(row[k], BOM) {
      assert FieldFits(row[k], l);
    }
  }
}
