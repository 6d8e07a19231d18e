/** The external sorter over its files: chunks are sorted and written as run files, and passes of
    limited width read them back and merge them. The scanner that reads a file drops one CR from each
    line, and keys are extracted anew. */
module RunFiles {
  import opened Bytes
  import opened Model
  import opened ExternalSort

  // ---- the same lines in some order -----------------------------------------------------------

  function Count(lines: seq<Str>, x: Str): nat {
    if lines == [] then 0 else Count(lines[..|lines| - 1], x) + if lines[|lines| - 1] == x then 1 else 0
  }

  /** One list is a permutation of the other. */
  ghost predicate Same(a: seq<Str>, b: seq<Str>) {
    forall x: Str :: Count(a, x) == Count(b, x)
  }

  lemma {:induction false} CountBag(lines: seq<Str>, x: Str)
    ensures Count(lines, x) == multiset(lines)[x]
  {
    if lines != [] {
      CountBag(lines[..|lines| - 1], x);
      assert lines == lines[..|lines| - 1] + [lines[|lines| - 1]];
    }
  }

  lemma SameBag(a: seq<Str>, b: seq<Str>)
    ensures Same(a, b) <==> multiset(a) == multiset(b)
  {
    forall x: Str ensures Count(a, x) == multiset(a)[x] && Count(b, x) == multiset(b)[x] {
      CountBag(a, x);
      CountBag(b, x);
    }
  }

  lemma CountSum(a: seq<Str>, b: seq<Str>, x: Str)
    ensures Count(a + b, x) == Count(a, x) + Count(b, x)
  {
    CountBag(a, x);
    CountBag(b, x);
    CountBag(a + b, x);
  }

  // ---- the contents of files ------------------------------------------------------------------

  /** The lines of all files, as they were written. */
  function RawAll(texts: seq<Str>): seq<Str> {
    if texts == [] then [] else RawAll(texts[..|texts| - 1]) + RowLines(texts[|texts| - 1])
  }

  /** The lines of all files, as the scanner gives them. */
  function ScanAll(texts: seq<Str>): seq<Str> {
    if texts == [] then [] else ScanAll(texts[..|texts| - 1]) + Lines(texts[|texts| - 1])
  }

  lemma RawSnoc(texts: seq<Str>, text: Str)
    ensures RawAll(texts + [text]) == RawAll(texts) + RowLines(text)
  {
    assert (texts + [text])[..|texts|] == texts;
  }

  lemma ScanSnoc(texts: seq<Str>, text: Str)
    ensures ScanAll(texts + [text]) == ScanAll(texts) + Lines(text)
  {
    assert (texts + [text])[..|texts|] == texts;
  }

  lemma {:induction false} ScanAppend(a: seq<Str>, b: seq<Str>)
    ensures ScanAll(a + b) == ScanAll(a) + ScanAll(b)
    decreases |b|
  {
    if b == [] {
      assert a + b == a;
    } else {
      ScanAppend(a, b[..|b| - 1]);
      ScanStep(a, b[..|b| - 1], b[|b| - 1]);
      SumOfInit(a, b);
    }
  }

  lemma ScanStep(a: seq<Str>, rest: seq<Str>, last: Str)
    requires ScanAll(a + rest) == ScanAll(a) + ScanAll(rest)
    ensures ScanAll(a + rest + [last]) == ScanAll(a) + (ScanAll(rest) + Lines(last))
  {
    ScanSnoc(a + rest, last);
    SumsRegroup(ScanAll(a), ScanAll(rest), Lines(last));
  }

  lemma SumsRegroup<T>(x: seq<T>, y: seq<T>, z: seq<T>)
    ensures (x + y) + z == x + (y + z)
  {}

  lemma SumOfInit<T>(a: seq<T>, b: seq<T>)
    requires b != []
    ensures a + b == a + b[..|b| - 1] + [b[|b| - 1]]
  {}

  lemma {:induction false} ScanDropped(texts: seq<Str>)
    ensures ScanAll(texts) == Dropped(RawAll(texts))
  {
    if texts != [] {
      var n := |texts| - 1;
      ScanDropped(texts[..n]);
      LinesDropped(texts[n]);
      DroppedAppend(RawAll(texts[..n]), RowLines(texts[n]));
    }
  }

  lemma {:induction false} ScanFree(texts: seq<Str>)
    ensures Free(ScanAll(texts))
  {
    if texts != [] {
      ScanFree(texts[..|texts| - 1]);
      LinesFree(texts[|texts| - 1]);
    }
  }

  // ---- sorted files ---------------------------------------------------------------------------

  /** The lines are in the order of their records. */
  predicate SortedLines(key: KeyFunction, lines: seq<Str>) {
    Sorted(RecordsOf(key, lines))
  }

  predicate UniqueLines(key: KeyFunction, lines: seq<Str>) {
    NoRepeat(RecordsOf(key, lines))
  }

  /** Every file is sorted, as it will be read. */
  predicate ScanSorted(key: KeyFunction, texts: seq<Str>) {
    texts == [] || (SortedLines(key, Lines(texts[|texts| - 1])) && ScanSorted(key, texts[..|texts| - 1]))
  }

  /** Every file is sorted, as it was written. */
  predicate RawSorted(key: KeyFunction, texts: seq<Str>) {
    texts == [] || (SortedLines(key, RowLines(texts[|texts| - 1])) && RawSorted(key, texts[..|texts| - 1]))
  }

  predicate RawUnique(key: KeyFunction, texts: seq<Str>) {
    texts == [] || (UniqueLines(key, RowLines(texts[|texts| - 1])) && RawUnique(key, texts[..|texts| - 1]))
  }

  lemma FileMore(key: KeyFunction, texts: seq<Str>, text: Str)
    ensures RawSorted(key, texts) && SortedLines(key, RowLines(text)) ==> RawSorted(key, texts + [text])
    ensures RawUnique(key, texts) && UniqueLines(key, RowLines(text)) ==> RawUnique(key, texts + [text])
  {
    assert (texts + [text])[..|texts|] == texts;
  }

  lemma {:induction false} ScanSortedPrefix(key: KeyFunction, texts: seq<Str>, n: nat)
    requires ScanSorted(key, texts) && n <= |texts|
    ensures ScanSorted(key, texts[..n])
  {
    if n < |texts| {
      ScanSortedPrefix(key, texts[..|texts| - 1], n);
      assert texts[..|texts| - 1][..n] == texts[..n];
    } else {
      assert texts[..n] == texts;
    }
  }

  lemma {:induction false} ScanSortedSuffix(key: KeyFunction, texts: seq<Str>, k: nat)
    requires ScanSorted(key, texts) && k <= |texts|
    ensures ScanSorted(key, texts[k..])
  {
    if k < |texts| {
      ScanSortedSuffix(key, texts[..|texts| - 1], k);
      SuffixOfInit(texts, k);
    }
  }

  lemma SuffixOfInit<T>(s: seq<T>, k: nat)
    requires k < |s|
    ensures s[..|s| - 1][k..] == s[k..][..|s[k..]| - 1] && s[k..][|s[k..]| - 1] == s[|s| - 1]
  {}

  /** Files of clean lines are read as they were written. */
  lemma {:induction false} CleanSorted(key: KeyFunction, texts: seq<Str>)
    requires RawSorted(key, texts) && Dropped(RawAll(texts)) == RawAll(texts)
    ensures ScanSorted(key, texts)
  {
    if texts != [] {
      var n := |texts| - 1;
      DroppedAppend(RawAll(texts[..n]), RowLines(texts[n]));
      LinesDropped(texts[n]);
      SumsSplit(Dropped(RawAll(texts[..n])), RawAll(texts[..n]), Dropped(RowLines(texts[n])), RowLines(texts[n]));
      CleanSorted(key, texts[..n]);
    }
  }

  lemma SumsSplit(a: seq<Str>, b: seq<Str>, c: seq<Str>, d: seq<Str>)
    requires |a| == |b| && a + c == b + d
    ensures a == b && c == d
  {
    assert a == (a + c)[..|a|] && b == (b + d)[..|b|];
    assert c == (a + c)[|a|..] && d == (b + d)[|b|..];
  }

  // ---- merging run files ----------------------------------------------------------------------

  predicate Readable(key: KeyFunction, lines: seq<Str>) {
    lines == [] || (key(lines[|lines| - 1]).Some? && Readable(key, lines[..|lines| - 1]))
  }

  lemma {:induction false} ReadableAt(key: KeyFunction, lines: seq<Str>)
    ensures Readable(key, lines) <==> forall i | 0 <= i < |lines| :: key(lines[i]).Some?
  {
    if lines != [] {
      ReadableAt(key, lines[..|lines| - 1]);
      assert forall i | 0 <= i < |lines| - 1 :: lines[..|lines| - 1][i] == lines[i];
    }
  }

  predicate KeyIn(key: KeyFunction, lines: seq<Str>, k: Str) {
    lines != [] && (RecordOf(key, lines[|lines| - 1]).key == k || KeyIn(key, lines[..|lines| - 1], k))
  }

  /** Two lines have the same key. */
  predicate Repeats(key: KeyFunction, lines: seq<Str>) {
    lines != [] && (KeyIn(key, lines[..|lines| - 1], RecordOf(key, lines[|lines| - 1]).key) || Repeats(key, lines[..|lines| - 1]))
  }

  lemma {:induction false} WhereKey(key: KeyFunction, lines: seq<Str>, k: Str) returns (i: nat)
    requires KeyIn(key, lines, k)
    ensures i < |lines| && RecordOf(key, lines[i]).key == k
  {
    i := |lines| - 1;
    if RecordOf(key, lines[i]).key != k { i := WhereKey(key, lines[..i], k); }
  }

  lemma {:induction false} KeyAt(key: KeyFunction, lines: seq<Str>, i: nat)
    requires i < |lines|
    ensures KeyIn(key, lines, RecordOf(key, lines[i]).key)
  {
    if i < |lines| - 1 { KeyAt(key, lines[..|lines| - 1], i); }
  }

  lemma RecordsSnoc(key: KeyFunction, lines: seq<Str>)
    requires lines != []
    ensures var n := |lines| - 1;
            multiset(RecordsOf(key, lines)) == multiset(RecordsOf(key, lines[..n])) + multiset{RecordOf(key, lines[n])}
  {
    RecordsMore(key, lines[..|lines| - 1], lines[|lines| - 1]);
    InitAndLast(lines);
  }

  lemma RecordsMore(key: KeyFunction, init: seq<Str>, x: Str)
    ensures multiset(RecordsOf(key, init + [x])) == multiset(RecordsOf(key, init)) + multiset{RecordOf(key, x)}
  {
    RecordsAppend(key, init, [x]);
    assert RecordsOf(key, [x]) == [RecordOf(key, x)];
  }

  lemma InitAndLast<T>(s: seq<T>)
    requires s != []
    ensures s == s[..|s| - 1] + [s[|s| - 1]]
  {}

  lemma ClashWithin(m: multiset<Rec>, all: multiset<Rec>)
    requires m <= all && !DistinctKeys(m)
    ensures !DistinctKeys(all)
  {
    if DistinctKeys(all) { DistinctSubset(m, all); }
  }

  lemma AddDistinct(m: multiset<Rec>, r: Rec)
    requires DistinctKeys(m) && forall a | a in m :: a.key != r.key
    ensures DistinctKeys(m + multiset{r})
  {}

  lemma {:induction false} NoRepeatsDistinct(key: KeyFunction, lines: seq<Str>)
    requires !Repeats(key, lines)
    ensures DistinctKeys(multiset(RecordsOf(key, lines)))
  {
    if lines != [] {
      var n := |lines| - 1;
      NoRepeatsDistinct(key, lines[..n]);
      RecordsSnoc(key, lines);
      var m := multiset(RecordsOf(key, lines[..n]));
      forall a | a in m ensures a.key != RecordOf(key, lines[n]).key {
        var i := Where(RecordsOf(key, lines[..n]), a);
        KeyAt(key, lines[..n], i);
      }
      AddDistinct(m, RecordOf(key, lines[n]));
    }
  }

  lemma SharedKeyClash(key: KeyFunction, lines: seq<Str>, i: nat, j: nat)
    requires i < j < |lines| && RecordOf(key, lines[i]).key == RecordOf(key, lines[j]).key
    ensures !DistinctKeys(multiset(RecordsOf(key, lines)))
  {
    var s := RecordsOf(key, lines);
    assert s[i] in multiset(s) && s[j] in multiset(s);
    if s[i] == s[j] { Twice(s, i, j); }
  }

  lemma {:induction false} RepeatsClash(key: KeyFunction, lines: seq<Str>)
    requires Repeats(key, lines)
    ensures !DistinctKeys(multiset(RecordsOf(key, lines)))
  {
    var n := |lines| - 1;
    if KeyIn(key, lines[..n], RecordOf(key, lines[n]).key) {
      var i := WhereKey(key, lines[..n], RecordOf(key, lines[n]).key);
      SharedKeyClash(key, lines, i, n);
    } else {
      RepeatsClash(key, lines[..n]);
      RecordsSnoc(key, lines);
      ClashWithin(multiset(RecordsOf(key, lines[..n])), multiset(RecordsOf(key, lines)));
    }
  }

  lemma ClashRepeats(key: KeyFunction, lines: seq<Str>)
    requires !DistinctKeys(multiset(RecordsOf(key, lines)))
    ensures Repeats(key, lines)
  {
    if !Repeats(key, lines) { NoRepeatsDistinct(key, lines); }
  }

  /** Why a merge of lines fails: one has no key, or two of a unique sort have the same. */
  ghost predicate Unmergeable(key: KeyFunction, lines: seq<Str>, unique: bool) {
    !Readable(key, lines) || (unique && Repeats(key, lines))
  }

  /** The files as lists of records. */
  function RecordRuns(key: KeyFunction, texts: seq<Str>): (runs: seq<seq<Rec>>)
    ensures |runs| == |texts|
  {
    if texts == [] then [] else RecordRuns(key, texts[..|texts| - 1]) + [RecordsOf(key, Lines(texts[|texts| - 1]))]
  }

  lemma {:induction false} RunsOfFiles(key: KeyFunction, texts: seq<Str>)
    ensures All(RecordRuns(key, texts)) == multiset(RecordsOf(key, ScanAll(texts)))
    ensures ScanSorted(key, texts) ==> AllSorted(RecordRuns(key, texts))
  {
    if texts != [] {
      var n := |texts| - 1;
      var last := RecordsOf(key, Lines(texts[n]));
      RunsOfFiles(key, texts[..n]);
      AllSnoc(RecordRuns(key, texts[..n]), last);
      RecordsAppend(key, ScanAll(texts[..n]), Lines(texts[n]));
      assert RecordRuns(key, texts)[..n] == RecordRuns(key, texts[..n]);
    }
  }

  method ReadRuns(texts: seq<Str>, key: KeyFunction) returns (r: Option<seq<seq<Rec>>>)
    ensures r.Some? ==> r.value == RecordRuns(key, texts)
    ensures r.None? ==> !Readable(key, ScanAll(texts))
  {
    var read: seq<seq<Rec>> := [];
    for i := 0 to |texts|
      invariant read == RecordRuns(key, texts[..i])
    {
      var lines := Lines(texts[i]);
      if !Readable(key, lines) {
        UnreadableFile(key, texts, i);
        return None;
      }
      assert texts[..i + 1][..i] == texts[..i];
      read := read + [RecordsOf(key, lines)];
    }
    assert texts[..|texts|] == texts;
    r := Some(read);
  }

  lemma UnreadableFile(key: KeyFunction, texts: seq<Str>, i: nat)
    requires i < |texts| && !Readable(key, Lines(texts[i]))
    ensures !Readable(key, ScanAll(texts))
  {
    ScanAround(texts, i);
    UnreadablePart(key, ScanAll(texts[..i]), Lines(texts[i]), ScanAll(texts[i + 1..]));
  }

  lemma ScanAround(texts: seq<Str>, i: nat)
    requires i < |texts|
    ensures ScanAll(texts) == ScanAll(texts[..i]) + Lines(texts[i]) + ScanAll(texts[i + 1..])
  {
    Around(texts, i);
    ScanAppend(texts[..i] + [texts[i]], texts[i + 1..]);
    ScanSnoc(texts[..i], texts[i]);
  }

  lemma UnreadablePart(key: KeyFunction, p: seq<Str>, lines: seq<Str>, q: seq<Str>)
    requires !Readable(key, lines)
    ensures !Readable(key, p + lines + q)
  {
    ReadableAt(key, lines);
    ReadableAt(key, p + lines + q);
    var k :| 0 <= k < |lines| && key(lines[k]).None?;
    assert (p + lines + q)[|p| + k] == lines[k];
  }

  /** What merging gives back as lines. */
  lemma MergedLines(key: KeyFunction, lines: seq<Str>, merged: seq<Rec>)
    requires multiset(merged) == multiset(RecordsOf(key, lines)) && Free(lines)
    ensures RecordsOf(key, Data(merged)) == merged && Same(Data(merged), lines) && Free(Data(merged))
  {
    var records := RecordsOf(key, lines);
    forall k | 0 <= k < |merged| ensures merged[k] == RecordOf(key, merged[k].data) && LF !in merged[k].data {
      assert merged[k] in multiset(merged);
      var i := Where(records, merged[k]);
    }
    RecordsOfData(key, merged);
    DataAt(merged);
    DataPermutes(merged, records);
    DataOfRecords(key, lines);
    SameBag(Data(merged), lines);
  }

  /** The file a merge of `lines` writes. */
  ghost predicate MergeResult(key: KeyFunction, unique: bool, lines: seq<Str>, sorted: bool, text: Str) {
    && Same(RowLines(text), lines) && Terminated(text)
    && (sorted ==> SortedLines(key, RowLines(text))) && (unique ==> UniqueLines(key, RowLines(text)))
  }

  /** The merge of run files into one: it reads back what was written. */
  method MergeRuns(texts: seq<Str>, key: KeyFunction, unique: bool) returns (out: Option<Str>)
    ensures out.Some? ==> MergeResult(key, unique, ScanAll(texts), ScanSorted(key, texts), out.value)
    ensures out.None? ==> Unmergeable(key, ScanAll(texts), unique)
  {
    var read := ReadRuns(texts, key);
    if read.None? { return None; }
    RunsOfFiles(key, texts);
    var merged := MergeRecords(read.value, unique);
    if merged.None? {
      ClashRepeats(key, ScanAll(texts));
      return None;
    }
    ScanFree(texts);
    MergedLines(key, ScanAll(texts), merged.value);
    PrintedLines(Data(merged.value));
    out := Some(Text(Data(merged.value)));
  }

  /** The files from `k` on, `n` of them. */
  function Group(texts: seq<Str>, k: nat, n: nat): seq<Str>
    requires k + n <= |texts|
  {
    texts[k..][..n]
  }

  lemma GroupLines(texts: seq<Str>, k: nat, n: nat)
    requires k + n <= |texts|
    ensures ScanAll(texts[k..]) == ScanAll(Group(texts, k, n)) + ScanAll(texts[k + n..])
    ensures ScanAll(texts) == ScanAll(texts[..k]) + ScanAll(texts[k..])
  {
    GroupSplit(texts, k, n);
    ScanAppend(Group(texts, k, n), texts[k + n..]);
    ScanAppend(texts[..k], texts[k..]);
  }

  lemma GroupSplit(texts: seq<Str>, k: nat, n: nat)
    requires k + n <= |texts|
    ensures texts[k..] == Group(texts, k, n) + texts[k + n..] && texts == texts[..k] + texts[k..]
  {}

  lemma PartFails(key: KeyFunction, p: seq<Str>, lines: seq<Str>, q: seq<Str>, unique: bool)
    requires Unmergeable(key, lines, unique)
    ensures Unmergeable(key, p + (lines + q), unique)
  {
    if !Readable(key, lines) {
      UnreadablePart(key, p, lines, q);
      SumsRegroup(p, lines, q);
    } else {
      ClashInPart(key, p, lines, q);
    }
  }

  lemma ClashInPart(key: KeyFunction, p: seq<Str>, lines: seq<Str>, q: seq<Str>)
    requires Repeats(key, lines)
    ensures Repeats(key, p + (lines + q))
  {
    RepeatsClash(key, lines);
    RecordsAppend(key, p, lines + q);
    RecordsAppend(key, lines, q);
    ClashWithin(multiset(RecordsOf(key, lines)), multiset(RecordsOf(key, p + (lines + q))));
    ClashRepeats(key, p + (lines + q));
  }

  lemma GroupFails(key: KeyFunction, texts: seq<Str>, k: nat, n: nat, unique: bool)
    requires k + n <= |texts| && Unmergeable(key, ScanAll(Group(texts, k, n)), unique)
    ensures Unmergeable(key, ScanAll(texts), unique)
  {
    GroupLines(texts, k, n);
    PartFails(key, ScanAll(texts[..k]), ScanAll(Group(texts, k, n)), ScanAll(texts[k + n..]), unique);
  }

  /** Where a pass stands: the first `k` files were merged into `made`. */
  ghost predicate PassAt(texts: seq<Str>, k: nat, key: KeyFunction, unique: bool, made: seq<Str>) {
    && k <= |texts| && Same(RawAll(made) + ScanAll(texts[k..]), ScanAll(texts))
    && (ScanSorted(key, texts) ==> RawSorted(key, made)) && (unique ==> RawUnique(key, made))
  }

  lemma PassMore(texts: seq<Str>, k: nat, n: nat, key: KeyFunction, unique: bool, made: seq<Str>, text: Str)
    requires PassAt(texts, k, key, unique, made) && k + n <= |texts|
    requires MergeResult(key, unique, ScanAll(Group(texts, k, n)), ScanSorted(key, Group(texts, k, n)), text)
    ensures PassAt(texts, k + n, key, unique, made + [text])
  {
    GroupLines(texts, k, n);
    RawSnoc(made, text);
    FileMore(key, made, text);
    if ScanSorted(key, texts) {
      ScanSortedSuffix(key, texts, k);
      ScanSortedPrefix(key, texts[k..], n);
    }
    Exchange(RawAll(made), RowLines(text), ScanAll(Group(texts, k, n)), ScanAll(texts[k + n..]));
  }

  lemma Exchange(a: seq<Str>, b: seq<Str>, c: seq<Str>, d: seq<Str>)
    requires Same(b, c)
    ensures Same(a + b + d, a + (c + d))
  {
    forall x: Str ensures Count(a + b + d, x) == Count(a + (c + d), x) {
      CountSum(a + b, d, x);
      CountSum(a, b, x);
      CountSum(a, c + d, x);
      CountSum(c, d, x);
    }
  }

  /** One group of a pass becomes one file. */
  method MergeGroup(texts: seq<Str>, k: nat, n: nat, made: seq<Str>, key: KeyFunction, unique: bool) returns (more: Option<seq<Str>>)
    requires PassAt(texts, k, key, unique, made) && k + n <= |texts|
    ensures more.Some? ==> PassAt(texts, k + n, key, unique, more.value) && |more.value| == |made| + 1
    ensures more.None? ==> Unmergeable(key, ScanAll(texts), unique)
  {
    var text := MergeRuns(Group(texts, k, n), key, unique);
    if text.None? {
      GroupFails(key, texts, k, n, unique);
      return None;
    }
    PassMore(texts, k, n, key, unique, made, text.value);
    more := Some(made + [text.value]);
  }

  /** One pass: groups of at most `width` files become one file each, so the number of files falls. */
  method MergePass(texts: seq<Str>, width: nat, key: KeyFunction, unique: bool) returns (out: Option<seq<Str>>)
    requires width >= 2 && |texts| > 1
    ensures out.Some? ==> 0 < |out.value| < |texts| && Same(RawAll(out.value), ScanAll(texts))
    ensures out.Some? ==> (ScanSorted(key, texts) ==> RawSorted(key, out.value)) && (unique ==> RawUnique(key, out.value))
    ensures out.None? ==> Unmergeable(key, ScanAll(texts), unique)
  {
    var made: seq<Str>, k := [], 0;
    PassStart(texts, key, unique);
    while k < |texts|
      invariant k <= |texts| && PassAt(texts, k, key, unique, made)
      invariant 2 * |made| <= k + (if k == |texts| then 1 else 0) && (k > 0 ==> made != [])
    {
      var n := if width < |texts| - k then width else |texts| - k;
      var more := MergeGroup(texts, k, n, made, key, unique);
      if more.None? { return None; }
      made, k := more.value, k + n;
    }
    PassEnd(texts, key, unique, made);
    out := Some(made);
  }

  lemma PassStart(texts: seq<Str>, key: KeyFunction, unique: bool)
    ensures PassAt(texts, 0, key, unique, [])
  {
    assert texts[0..] == texts;
    assert RawAll([]) + ScanAll(texts) == ScanAll(texts);
  }

  lemma PassEnd(texts: seq<Str>, key: KeyFunction, unique: bool, made: seq<Str>)
    requires PassAt(texts, |texts|, key, unique, made)
    ensures Same(RawAll(made), ScanAll(texts))
  {
    assert RawAll(made) + ScanAll(texts[|texts|..]) == RawAll(made);
  }

  // ---- spilling -------------------------------------------------------------------------------

  datatype Options = Options(memory: int, maxOpen: int, unique: bool)

  function Normalized(o: Options): (r: Options)
    ensures r.memory > 0 && r.maxOpen >= 2 && r.unique == o.unique
  {
    Options(if o.memory <= 0 then 32 * 1024 * 1024 else o.memory, if o.maxOpen < 2 then 64 else o.maxOpen, o.unique)
  }

  /** What a record counts against the memory setting. */
  function Cost(key: KeyFunction, line: Str): nat {
    |line| + |RecordOf(key, line).key| + 64
  }

  function TotalCost(key: KeyFunction, lines: seq<Str>): nat {
    if lines == [] then 0 else TotalCost(key, lines[..|lines| - 1]) + Cost(key, lines[|lines| - 1])
  }

  lemma CostSnoc(key: KeyFunction, lines: seq<Str>, line: Str)
    ensures TotalCost(key, lines + [line]) == TotalCost(key, lines) + Cost(key, line)
  {
    assert (lines + [line])[..|lines|] == lines;
  }

  /** All lines fit in one chunk, so that there is nothing to merge. */
  predicate OneRun(key: KeyFunction, lines: seq<Str>, o: Options) {
    |lines| <= 1 || TotalCost(key, lines) <= o.memory
  }

  /** A sorted run of lines. */
  function SortOne(key: KeyFunction, lines: seq<Str>): seq<Str> {
    Data(SortChunk(RecordsOf(key, lines)))
  }

  lemma SortOneSorts(key: KeyFunction, lines: seq<Str>)
    requires Free(lines)
    ensures Same(SortOne(key, lines), lines) && Free(SortOne(key, lines))
    ensures RecordsOf(key, SortOne(key, lines)) == SortChunk(RecordsOf(key, lines)) && SortedLines(key, SortOne(key, lines))
  {
    ChunkSorted(RecordsOf(key, lines));
    MergedLines(key, lines, SortChunk(RecordsOf(key, lines)));
  }

  /** Sorts the chunk and writes it as a run file. A key is a function of its record, so the chunk is
      held as its lines. */
  method Spill(chunk: seq<Str>, key: KeyFunction, unique: bool) returns (r: Option<Str>)
    requires Free(chunk)
    ensures r.Some? ==> MergeResult(key, unique, chunk, true, r.value)
    ensures r.None? ==> unique && Repeats(key, chunk)
  {
    var run := SortChunk(RecordsOf(key, chunk));
    ChunkSorted(RecordsOf(key, chunk));
    SortOneSorts(key, chunk);
    if unique {
      var i := SharedKey(run);
      if i < |run| {
        NeighboursShareKey(run, i);
        ClashRepeats(key, chunk);
        return None;
      }
    }
    PrintedLines(Data(run));
    r := Some(Text(Data(run)));
  }

  /** The run files together hold the lines, each file sorted. */
  ghost predicate Written(texts: seq<Str>, key: KeyFunction, unique: bool, lines: seq<Str>) {
    Same(RawAll(texts), lines) && RawSorted(key, texts) && (unique ==> RawUnique(key, texts))
  }

  lemma WrittenMore(texts: seq<Str>, key: KeyFunction, unique: bool, lines: seq<Str>, chunk: seq<Str>, text: Str)
    requires Written(texts, key, unique, lines) && MergeResult(key, unique, chunk, true, text)
    ensures Written(texts + [text], key, unique, lines + chunk)
  {
    RawSnoc(texts, text);
    FileMore(key, texts, text);
    forall x: Str ensures Count(RawAll(texts) + RowLines(text), x) == Count(lines + chunk, x) {
      CountSum(RawAll(texts), RowLines(text), x);
      CountSum(lines, chunk, x);
    }
  }

  /** The chunk loop before line `i`: the lines from `j` on are in the chunk, those before in run files,
      and nothing was spilled exactly while all fit. */
  ghost predicate SpillAt(lines: seq<Str>, j: nat, i: nat, key: KeyFunction, o: Options, texts: seq<Str>, chunk: seq<Str>, used: int) {
    && j <= i <= |lines| && (j == i ==> i == 0) && chunk == lines[j..i] && used == TotalCost(key, chunk)
    && Written(texts, key, o.unique, lines[..j]) && (texts == [] <==> j == 0) && (j == 0 <==> OneRun(key, lines[..i], o))
  }

  lemma KeepLine(lines: seq<Str>, j: nat, i: nat, key: KeyFunction, o: Options, texts: seq<Str>, chunk: seq<Str>, used: int)
    requires SpillAt(lines, j, i, key, o, texts, chunk, used) && i < |lines|
    requires chunk == [] || used + Cost(key, lines[i]) <= o.memory
    ensures SpillAt(lines, j, i + 1, key, o, texts, chunk + [lines[i]], used + Cost(key, lines[i]))
  {
    CostSnoc(key, chunk, lines[i]);
    CostSnoc(key, lines[..i], lines[i]);
    Longer(lines, i);
    assert chunk + [lines[i]] == lines[j..i + 1];
    if j == 0 { assert chunk == lines[..i]; }
  }

  lemma SpillLine(lines: seq<Str>, j: nat, i: nat, key: KeyFunction, o: Options, texts: seq<Str>, chunk: seq<Str>, used: int, text: Str)
    requires SpillAt(lines, j, i, key, o, texts, chunk, used) && i < |lines| && MergeResult(key, o.unique, chunk, true, text)
    requires chunk != [] && used + Cost(key, lines[i]) > o.memory
    ensures SpillAt(lines, i, i + 1, key, o, texts + [text], [lines[i]], Cost(key, lines[i]))
  {
    OneLine(key, lines, i);
    Overflows(key, lines, j, i, o, chunk);
    WrittenMore(texts, key, o.unique, lines[..j], chunk, text);
    assert lines[..j] + lines[j..i] == lines[..i];
  }

  lemma OneLine(key: KeyFunction, lines: seq<Str>, i: nat)
    requires i < |lines|
    ensures [lines[i]] == lines[i..i + 1] && TotalCost(key, [lines[i]]) == Cost(key, lines[i])
  {
    CostSnoc(key, [], lines[i]);
    assert [] + [lines[i]] == [lines[i]];
  }

  lemma Overflows(key: KeyFunction, lines: seq<Str>, j: nat, i: nat, o: Options, chunk: seq<Str>)
    requires j < i < |lines| && chunk == lines[j..i] && TotalCost(key, chunk) + Cost(key, lines[i]) > o.memory
    requires j == 0 <==> OneRun(key, lines[..i], o)
    ensures !OneRun(key, lines[..i + 1], o)
  {
    CostSnoc(key, lines[..i], lines[i]);
    Longer(lines, i);
    if j == 0 { assert chunk == lines[..i]; }
  }

  lemma PartClash(key: KeyFunction, lines: seq<Str>, j: nat, i: nat)
    requires j <= i <= |lines| && Repeats(key, lines[j..i])
    ensures Repeats(key, lines)
  {
    Parts(lines, j, i);
    ClashInPart(key, lines[..j], lines[j..i], lines[i..]);
  }

  lemma Parts<T>(s: seq<T>, j: nat, i: nat)
    requires j <= i <= |s|
    ensures s == s[..j] + (s[j..i] + s[i..])
  {}

  /** Adds a line to the chunk, spilling first if the chunk would cost too much. */
  method AddLine(texts: seq<Str>, chunk: seq<Str>, used: int, line: Str, key: KeyFunction, o: Options, ghost lines: seq<Str>, ghost j: nat, ghost i: nat)
    returns (r: Option<seq<Str>>, next: seq<Str>, cost: int, ghost k: nat)
    requires SpillAt(lines, j, i, key, o, texts, chunk, used) && i < |lines| && lines[i] == line && Free(lines)
    ensures r.Some? ==> SpillAt(lines, k, i + 1, key, o, r.value, next, cost)
    ensures r.None? ==> o.unique && Repeats(key, lines)
  {
    r, next, cost, k := Some(texts), chunk, Cost(key, line), j;
    if chunk != [] && used > o.memory - cost {
      var text := Spill(chunk, key, o.unique);
      if text.None? {
        PartClash(key, lines, j, i);
        return None, next, cost, k;
      }
      SpillLine(lines, j, i, key, o, texts, chunk, used, text.value);
      r, next, k := Some(texts + [text.value]), [line], i;
    } else {
      KeepLine(lines, j, i, key, o, texts, chunk, used);
      cost, next := cost + used, chunk + [line];
    }
  }

  /** Every line has a usable key and, for a unique sort, no key occurs twice. */
  ghost predicate Sortable(key: KeyFunction, lines: seq<Str>, unique: bool) {
    Keyed(key, lines) && (unique ==> !Repeats(key, lines))
  }

  /** Splits the input into sorted run files of bounded cost. */
  method SpillRuns(lines: seq<Str>, key: KeyFunction, o: Options) returns (r: Option<seq<Str>>)
    requires Free(lines)
    ensures SpillResult(r, lines, key, o)
  {
    var texts: seq<Str>, chunk: seq<Str>, used := [], [], 0;
    ghost var j := 0;
    for i := 0 to |lines|
      invariant SpillAt(lines, j, i, key, o, texts, chunk, used) && KeyedTo(key, lines, i)
    {
      if !HasKey(key, lines[i]) { return None; }
      r, chunk, used, j := AddLine(texts, chunk, used, lines[i], key, o, lines, j, i);
      if r.None? { return; }
      texts := r.value;
    }
    r := SpillRest(texts, chunk, used, key, o, lines, j);
  }

  method SpillRest(texts: seq<Str>, chunk: seq<Str>, used: int, key: KeyFunction, o: Options, ghost lines: seq<Str>, ghost j: nat)
    returns (r: Option<seq<Str>>)
    requires Free(lines) && SpillAt(lines, j, |lines|, key, o, texts, chunk, used) && KeyedTo(key, lines, |lines|)
    ensures SpillResult(r, lines, key, o)
  {
    KeyedAll(key, lines, |lines|);
    r := SpillLast(texts, chunk, used, key, o, lines, j);
  }

  /** What spilling gives. */
  ghost predicate SpillResult(r: Option<seq<Str>>, lines: seq<Str>, key: KeyFunction, o: Options) {
    if r.None? then !Sortable(key, lines, o.unique)
    else
      && Keyed(key, lines) && Written(r.value, key, o.unique, lines)
      && (|r.value| <= 1 <==> OneRun(key, lines, o)) && (r.value == [] <==> lines == [])
  }

  predicate KeyedTo(key: KeyFunction, lines: seq<Str>, i: nat)
    requires i <= |lines|
  {
    i == 0 || (HasKey(key, lines[i - 1]) && KeyedTo(key, lines, i - 1))
  }

  lemma {:induction false} KeyedAll(key: KeyFunction, lines: seq<Str>, i: nat)
    requires i <= |lines| && KeyedTo(key, lines, i)
    ensures forall k | 0 <= k < i :: HasKey(key, lines[k])
  {
    if i > 0 { KeyedAll(key, lines, i - 1); }
  }

  method SpillLast(texts: seq<Str>, chunk: seq<Str>, used: int, key: KeyFunction, o: Options, ghost lines: seq<Str>, ghost j: nat)
    returns (r: Option<seq<Str>>)
    requires Free(lines) && SpillAt(lines, j, |lines|, key, o, texts, chunk, used)
    ensures r.Some? ==> Written(r.value, key, o.unique, lines)
    ensures r.Some? ==> (|r.value| <= 1 <==> OneRun(key, lines, o)) && (r.value == [] <==> lines == [])
    ensures r.None? ==> o.unique && Repeats(key, lines)
  {
    assert lines[..|lines|] == lines && lines[..j] + chunk == lines;
    if chunk == [] { return Some(texts); }
    var text := Spill(chunk, key, o.unique);
    if text.None? {
      PartClash(key, lines, j, |lines|);
      return None;
    }
    WrittenMore(texts, key, o.unique, lines[..j], chunk, text.value);
    r := Some(texts + [text.value]);
  }

  // ---- the whole sort -------------------------------------------------------------------------

  predicate AllTerminated(inputs: seq<Str>) {
    forall i | 0 <= i < |inputs| :: Terminated(inputs[i])
  }

  method ReadInputs(inputs: seq<Str>) returns (r: Option<seq<Str>>)
    ensures if AllTerminated(inputs) then r == Some(ScanAll(inputs)) else r.None?
  {
    var lines: seq<Str> := [];
    for i := 0 to |inputs|
      invariant lines == ScanAll(inputs[..i]) && AllTerminated(inputs[..i])
    {
      if !Terminated(inputs[i]) { return None; }
      ScanSnoc(inputs[..i], inputs[i]);
      Longer(inputs, i);
      lines := lines + Lines(inputs[i]);
    }
    assert inputs[..|inputs|] == inputs;
    r := Some(lines);
  }

  /** The lines after `n` merge passes: each pass reads every line back once. */
  function DropTimes(lines: seq<Str>, n: nat): (back: seq<Str>)
    ensures |back| == |lines|
  {
    if n == 0 then lines else Dropped(DropTimes(lines, n - 1))
  }

  lemma {:induction false} DropTimesClean(lines: seq<Str>, n: nat)
    requires Dropped(lines) == lines
    ensures DropTimes(lines, n) == lines
  {
    if n > 0 { DropTimesClean(lines, n - 1); }
  }

  lemma SameDropped(a: seq<Str>, b: seq<Str>)
    requires Same(a, b)
    ensures Same(Dropped(a), Dropped(b))
  {
    SameBag(a, b);
    DroppedPermutes(a, b);
    SameBag(Dropped(a), Dropped(b));
  }

  /** No line ends in a CR. */
  predicate NoCR(lines: seq<Str>) {
    lines == [] || (DropCR(lines[|lines| - 1]) == lines[|lines| - 1] && NoCR(lines[..|lines| - 1]))
  }

  lemma {:induction false} NoCRAt(lines: seq<Str>)
    ensures NoCR(lines) <==> forall i | 0 <= i < |lines| :: DropCR(lines[i]) == lines[i]
  {
    if lines != [] {
      NoCRAt(lines[..|lines| - 1]);
      assert forall i | 0 <= i < |lines| - 1 :: lines[..|lines| - 1][i] == lines[i];
    }
  }

  lemma NoCRDropped(lines: seq<Str>)
    ensures NoCR(lines) <==> Dropped(lines) == lines
  {
    NoCRAt(lines);
    DroppedClean(lines);
  }

  lemma SameClean(a: seq<Str>, b: seq<Str>)
    requires Same(a, b) && Dropped(b) == b
    ensures Dropped(a) == a
  {
    SameBag(a, b);
    DroppedClean(a);
    DroppedClean(b);
    forall i | 0 <= i < |a| ensures DropCR(a[i]) == a[i] {
      assert a[i] in multiset(a);
      var k := Where(b, a[i]);
    }
  }

  /** After `done` passes over the run files of `lines`. */
  ghost predicate PassesAt(texts: seq<Str>, key: KeyFunction, unique: bool, lines: seq<Str>, done: nat) {
    && texts != [] && Same(RawAll(texts), DropTimes(lines, done))
    && (done == 0 || NoCR(lines) ==> RawSorted(key, texts)) && (unique ==> RawUnique(key, texts))
  }

  lemma PassesMore(texts: seq<Str>, key: KeyFunction, unique: bool, lines: seq<Str>, done: nat, next: seq<Str>)
    requires PassesAt(texts, key, unique, lines, done) && next != []
    requires Same(RawAll(next), ScanAll(texts)) && (ScanSorted(key, texts) ==> RawSorted(key, next)) && (unique ==> RawUnique(key, next))
    ensures PassesAt(next, key, unique, lines, done + 1)
  {
    ScanDropped(texts);
    SameDropped(RawAll(texts), DropTimes(lines, done));
    if NoCR(lines) { CleanPass(texts, key, lines, done); }
  }

  lemma CleanPass(texts: seq<Str>, key: KeyFunction, lines: seq<Str>, done: nat)
    requires Same(RawAll(texts), DropTimes(lines, done)) && NoCR(lines) && RawSorted(key, texts)
    ensures ScanSorted(key, texts)
  {
    NoCRDropped(lines);
    DropTimesClean(lines, done);
    SameClean(RawAll(texts), lines);
    CleanSorted(key, texts);
  }

  lemma UnmergeableSame(key: KeyFunction, a: seq<Str>, b: seq<Str>, unique: bool)
    requires Same(a, b) && Unmergeable(key, a, unique)
    ensures Unmergeable(key, b, unique)
  {
    SameBag(a, b);
    ReadableAt(key, a);
    ReadableAt(key, b);
    if !Readable(key, a) {
      var i :| 0 <= i < |a| && key(a[i]).None?;
      assert a[i] in multiset(a);
      var k := Where(b, a[i]);
    } else {
      RepeatsClash(key, a);
      RecordsPermute(key, a, b);
      ClashRepeats(key, b);
    }
  }

  /** A pass fails on the lines as it reads them: less one CR more than the pass before. */
  lemma PassFails(texts: seq<Str>, key: KeyFunction, unique: bool, lines: seq<Str>, done: nat)
    requires PassesAt(texts, key, unique, lines, done) && Unmergeable(key, ScanAll(texts), unique)
    ensures Unmergeable(key, DropTimes(lines, done + 1), unique)
  {
    ScanDropped(texts);
    SameDropped(RawAll(texts), DropTimes(lines, done));
    UnmergeableSame(key, ScanAll(texts), DropTimes(lines, done + 1), unique);
  }

  lemma RecordsMiddle(key: KeyFunction, p: seq<Str>, x: Str, q: seq<Str>)
    ensures multiset(RecordsOf(key, p + [x] + q)) == multiset(RecordsOf(key, p + q)) + multiset{RecordOf(key, x)}
  {
    RecordsAppend(key, p + [x], q);
    RecordsAppend(key, p, [x]);
    RecordsAppend(key, p, q);
    assert RecordsOf(key, [x]) == [RecordOf(key, x)];
  }

  lemma {:induction false} RecordsPermute(key: KeyFunction, a: seq<Str>, b: seq<Str>)
    requires multiset(a) == multiset(b)
    ensures multiset(RecordsOf(key, a)) == multiset(RecordsOf(key, b))
  {
    if a == [] {
      NoElements(b);
    } else {
      var p, q := Matched(a, b);
      RecordsPermute(key, a[1..], p + q);
      RecordsMiddle(key, p, a[0], q);
      RecordsMiddle(key, [], a[0], a[1..]);
      assert a == [] + [a[0]] + a[1..] && [] + a[1..] == a[1..];
    }
  }

  method PassOnce(texts: seq<Str>, key: KeyFunction, o: Options, ghost lines: seq<Str>, ghost done: nat) returns (next: Option<seq<Str>>)
    requires o.maxOpen >= 2 && |texts| > 1 && PassesAt(texts, key, o.unique, lines, done)
    ensures next.Some? ==> |next.value| < |texts| && PassesAt(next.value, key, o.unique, lines, done + 1)
    ensures next.None? ==> Unmergeable(key, DropTimes(lines, done + 1), o.unique)
  {
    next := MergePass(texts, o.maxOpen, key, o.unique);
    if next.None? {
      PassFails(texts, key, o.unique, lines, done);
    } else {
      PassesMore(texts, key, o.unique, lines, done, next.value);
    }
  }

  /** One file is left after `passes` passes, or that many were begun and the last failed. */
  ghost predicate MergedTo(r: Option<Str>, passes: nat, key: KeyFunction, unique: bool, lines: seq<Str>) {
    if r.Some? then PassesAt([r.value], key, unique, lines, passes)
    else passes > 0 && Unmergeable(key, DropTimes(lines, passes), unique)
  }

  /** The merge passes after the first `done`, until one file is left. */
  method MergeAll(texts: seq<Str>, key: KeyFunction, o: Options, ghost lines: seq<Str>, ghost done: nat) returns (r: Option<Str>, ghost passes: nat)
    requires o.maxOpen >= 2 && PassesAt(texts, key, o.unique, lines, done)
    ensures MergedTo(r, passes, key, o.unique, lines)
    ensures if |texts| == 1 then r.Some? && passes == done else passes > done
    decreases |texts|, 1
  {
    if |texts| == 1 {
      assert texts == [texts[0]];
      return Some(texts[0]), done;
    }
    r, passes := MergeMore(texts, key, o, lines, done);
  }

  method MergeMore(texts: seq<Str>, key: KeyFunction, o: Options, ghost lines: seq<Str>, ghost done: nat) returns (r: Option<Str>, ghost passes: nat)
    requires o.maxOpen >= 2 && |texts| > 1 && PassesAt(texts, key, o.unique, lines, done)
    ensures MergedTo(r, passes, key, o.unique, lines) && passes > done
    decreases |texts|, 0
  {
    r, passes := None, done + 1;
    var next := PassOnce(texts, key, o, lines, done);
    if next.Some? { r, passes := MergeAll(next.value, key, o, lines, done + 1); }
  }

  // ---- when nothing is lost -------------------------------------------------------------------

  function Size(lines: seq<Str>): nat {
    if lines == [] then 0 else |lines[0]| + Size(lines[1..])
  }

  lemma {:induction false} SizeAppend(a: seq<Str>, b: seq<Str>)
    ensures Size(a + b) == Size(a) + Size(b)
  {
    if a == [] {
      assert a + b == b;
    } else {
      SizeAppend(a[1..], b);
      TailOfSum(a, b);
    }
  }

  lemma {:induction false} SizePermutes(a: seq<Str>, b: seq<Str>)
    requires multiset(a) == multiset(b)
    ensures Size(a) == Size(b)
  {
    if a == [] {
      NoElements(b);
    } else {
      var p, q := Matched(a, b);
      SizePermutes(a[1..], p + q);
      SizeAppend(p + [a[0]], q);
      SizeAppend(p, [a[0]]);
      SizeAppend(p, q);
      assert Size([a[0]]) == |a[0]| + Size([]);
    }
  }

  /** Reading back shortens the lines, unless none ends in a CR. */
  lemma {:induction false} SizeDropped(lines: seq<Str>)
    ensures Size(Dropped(lines)) <= Size(lines) && (Size(Dropped(lines)) == Size(lines) ==> Dropped(lines) == lines)
  {
    if lines != [] {
      SizeDropped(lines[1..]);
      assert Dropped(lines)[1..] == Dropped(lines[1..]);
      assert lines == [lines[0]] + lines[1..];
    }
  }

  lemma {:induction false} SizeDropTimes(lines: seq<Str>, n: nat)
    requires n > 0
    ensures Size(DropTimes(lines, n)) <= Size(Dropped(lines))
  {
    if n == 1 {
      assert DropTimes(lines, 0) == lines;
    } else {
      SizeDropTimes(lines, n - 1);
      SizeDropped(DropTimes(lines, n - 1));
    }
  }

  /** The lines survive the passes exactly when there is no pass or no line ends in a CR. */
  lemma SurvivesExactly(lines: seq<Str>, passes: nat)
    ensures Same(DropTimes(lines, passes), lines) <==> passes == 0 || NoCR(lines)
  {
    NoCRDropped(lines);
    if passes == 0 || NoCR(lines) {
      DropTimesSame(lines, passes);
    } else if Same(DropTimes(lines, passes), lines) {
      SameBag(DropTimes(lines, passes), lines);
      SizePermutes(DropTimes(lines, passes), lines);
      SizeDropTimes(lines, passes);
      SizeDropped(lines);
    }
  }

  lemma DropTimesSame(lines: seq<Str>, n: nat)
    requires n == 0 || NoCR(lines)
    ensures DropTimes(lines, n) == lines
  {
    NoCRDropped(lines);
    if n > 0 { DropTimesClean(lines, n); }
  }

  /** A sort that neither loses nor changes a line: everything fits in one chunk, or no line ends in a CR. */
  predicate Safe(key: KeyFunction, lines: seq<Str>, o: Options) {
    OneRun(key, lines, Normalized(o)) || NoCR(lines)
  }

  lemma UniqueIsDistinct(key: KeyFunction, lines: seq<Str>, out: seq<Str>)
    requires Keyed(key, lines) && Same(out, lines) && SortedLines(key, out) && UniqueLines(key, out)
    ensures !Repeats(key, lines)
  {
    SameBag(out, lines);
    RecordsPermute(key, out, lines);
    var s := RecordsOf(key, out);
    forall i | 0 <= i < |s| ensures s[i].key != [] {
      assert out[i] in multiset(out);
      var k := Where(lines, out[i]);
    }
    StrictDistinct(s);
    if Repeats(key, lines) { RepeatsClash(key, lines); }
  }

  lemma OneFile(text: Str, key: KeyFunction, unique: bool, lines: seq<Str>, passes: nat)
    requires PassesAt([text], key, unique, lines, passes)
    ensures Same(RowLines(text), DropTimes(lines, passes)) && (unique ==> UniqueLines(key, RowLines(text)))
    ensures passes == 0 || NoCR(lines) ==> SortedLines(key, RowLines(text))
  {
    RawOne(text);
    LastFile(text, key);
  }

  lemma RawOne(text: Str)
    ensures RawAll([text]) == RowLines(text)
  {
    RawSnoc([], text);
    assert [] + [text] == [text];
    assert RawAll([]) + RowLines(text) == RowLines(text);
  }

  lemma LastFile(text: Str, key: KeyFunction)
    ensures (RawSorted(key, [text]) ==> SortedLines(key, RowLines(text))) && (RawUnique(key, [text]) ==> UniqueLines(key, RowLines(text)))
  {
    assert [text][..0] == [];
  }

  /** For every memory and open-file setting: the output holds the lines of all inputs, less one CR per
      merge pass from those that end in one. So it is a permutation of them exactly when the sort is
      safe; then it is sorted, and a unique sort succeeds exactly when no key occurs twice. */
  method SortFiles(inputs: seq<Str>, key: KeyFunction, options: Options) returns (r: Option<Str>, ghost passes: nat)
    ensures r.Some? ==> inputs != [] && AllTerminated(inputs) && Keyed(key, ScanAll(inputs))
    ensures r.Some? ==> Same(RowLines(r.value), DropTimes(ScanAll(inputs), passes))
    ensures r.Some? ==> (passes == 0 <==> OneRun(key, ScanAll(inputs), Normalized(options)))
    ensures r.Some? ==> (Same(RowLines(r.value), ScanAll(inputs)) <==> Safe(key, ScanAll(inputs), options))
    ensures r.Some? && options.unique ==> UniqueLines(key, RowLines(r.value))
    ensures Safe(key, ScanAll(inputs), options) ==>
              (r.Some? <==> inputs != [] && AllTerminated(inputs) && Sortable(key, ScanAll(inputs), options.unique))
    ensures Safe(key, ScanAll(inputs), options) && r.Some? ==> SortedLines(key, RowLines(r.value))
    ensures r.None? && inputs != [] && AllTerminated(inputs) ==> SortFails(key, ScanAll(inputs), options.unique, passes)
  {
    passes := 0;
    if inputs == [] { return None, passes; }
    var lines := ReadInputs(inputs);
    if lines.None? { return None, passes; }
    ScanFree(inputs);
    r, passes := SortScanned(lines.value, key, options);
  }

  /** Why lines are not sorted: they cannot be, or the pass `passes` cannot merge what it reads. */
  ghost predicate SortFails(key: KeyFunction, lines: seq<Str>, unique: bool, passes: nat) {
    !Sortable(key, lines, unique) || (passes > 0 && Unmergeable(key, DropTimes(lines, passes), unique))
  }

  /** What the sorter makes of the scanned lines. */
  ghost predicate SortResult(r: Option<Str>, passes: nat, key: KeyFunction, lines: seq<Str>, options: Options) {
    && (r.Some? ==> Keyed(key, lines) && Same(RowLines(r.value), DropTimes(lines, passes)))
    && (r.Some? ==> (passes == 0 <==> OneRun(key, lines, Normalized(options))))
    && (r.Some? ==> (Same(RowLines(r.value), lines) <==> Safe(key, lines, options)))
    && (r.Some? && options.unique ==> UniqueLines(key, RowLines(r.value)))
    && (Safe(key, lines, options) ==> (r.Some? <==> Sortable(key, lines, options.unique)))
    && (Safe(key, lines, options) && r.Some? ==> SortedLines(key, RowLines(r.value)))
    && (r.None? ==> SortFails(key, lines, options.unique, passes))
  }

  method SortScanned(lines: seq<Str>, key: KeyFunction, options: Options) returns (r: Option<Str>, ghost passes: nat)
    requires Free(lines)
    ensures SortResult(r, passes, key, lines, options)
  {
    var o := Normalized(options);
    passes := 0;
    var runs := SpillRuns(lines, key, o);
    if runs.None? { return None, passes; }
    var texts := if runs.value == [] then [[]] else runs.value;
    FirstFiles(runs.value, key, o, lines);
    r, passes := MergeAll(texts, key, o, lines, 0);
    if r.Some? { SortDone(r.value, passes, key, lines, options); } else { SortFailed(passes, key, lines, options); }
  }

  lemma SortFailed(passes: nat, key: KeyFunction, lines: seq<Str>, options: Options)
    requires !OneRun(key, lines, Normalized(options)) && passes > 0 && Unmergeable(key, DropTimes(lines, passes), options.unique)
    ensures SortResult(None, passes, key, lines, options)
  {
    if NoCR(lines) { DropTimesSame(lines, passes); }
    ReadableAt(key, lines);
  }

  lemma FirstFiles(runs: seq<Str>, key: KeyFunction, o: Options, lines: seq<Str>)
    requires Written(runs, key, o.unique, lines)
    ensures PassesAt(if runs == [] then [[]] else runs, key, o.unique, lines, 0)
  {
    if runs == [] {
      var none: seq<Str>, empty: Str := [], [];
      RawSnoc(none, empty);
      FileMore(key, none, empty);
      assert none + [empty] == [empty];
    }
  }

  lemma SameTransitive(a: seq<Str>, b: seq<Str>, c: seq<Str>)
    requires Same(a, b)
    ensures Same(a, c) <==> Same(b, c)
  {}

  lemma SortDone(text: Str, passes: nat, key: KeyFunction, lines: seq<Str>, options: Options)
    requires PassesAt([text], key, options.unique, lines, passes) && Keyed(key, lines)
    requires passes == 0 <==> OneRun(key, lines, Normalized(options))
    ensures SortResult(Some(text), passes, key, lines, options)
  {
    OneFile(text, key, options.unique, lines, passes);
    SurvivesExactly(lines, passes);
    SameTransitive(RowLines(text), DropTimes(lines, passes), lines);
    if options.unique && Safe(key, lines, options) { UniqueIsDistinct(key, lines, RowLines(text)); }
  }

  // ---- clean files ----------------------------------------------------------------------------

  lemma ScanOne(text: Str)
    ensures ScanAll([text]) == Lines(text)
  {
    ScanSnoc([], text);
    assert [] + [text] == [text];
    assert ScanAll([]) + Lines(text) == Lines(text);
  }

  /** Sorts a derived file and reads the sorted file. Its lines hold neither LF nor CR, so any setting
      gives the sorted records. */
  method SortLines(lines: seq<Str>, key: KeyFunction, options: Options) returns (r: Option<seq<Rec>>)
    requires Clean(lines)
    ensures r.Some? <==> Sortable(key, lines, options.unique)
    ensures r.Some? ==> Sorted(r.value) && multiset(r.value) == multiset(RecordsOf(key, lines))
  {
    CleanFile(lines);
    var sorted;
    ghost var passes;
    sorted, passes := SortFiles([Text(lines)], key, options);
    if sorted.None? { return None; }
    SortedBack(sorted.value, key, lines);
    r := Some(RecordsOf(key, Lines(sorted.value)));
  }

  lemma CleanFile(lines: seq<Str>)
    requires Clean(lines)
    ensures Terminated(Text(lines)) && ScanAll([Text(lines)]) == lines && NoCR(lines)
  {
    PrintedLines(lines);
    RunRoundTrip(lines);
    ScanOne(Text(lines));
    NoCRAt(lines);
  }

  lemma SortedBack(text: Str, key: KeyFunction, lines: seq<Str>)
    requires Same(RowLines(text), lines) && Clean(lines)
    ensures Lines(text) == RowLines(text) && multiset(RecordsOf(key, Lines(text))) == multiset(RecordsOf(key, lines))
  {
    DroppedClean(lines);
    SameClean(RowLines(text), lines);
    LinesDropped(text);
    SameBag(RowLines(text), lines);
    RecordsPermute(key, RowLines(text), lines);
  }

  // ---- an input that the setting decides ------------------------------------------------------

  const A: Byte := 97
  const DOUBLE_CR: Str := [A, CR, CR, LF]
  const PLAIN: Str := [A, LF]

  function Identity(line: Str): Option<Str> {
    Some(line)
  }

  lemma ExampleLines()
    ensures ScanAll([DOUBLE_CR, PLAIN]) == [[A, CR], [A]]
  {
    LinesCons([A, CR, CR], []);
    LinesCons([A], []);
    assert [A, CR, CR] + [LF] + [] == DOUBLE_CR && [A] + [LF] + [] == PLAIN;
    assert Lines([]) == [];
    assert DropCR([A, CR, CR]) == [A, CR] && DropCR([A]) == [A];
    ScanSnoc([DOUBLE_CR], PLAIN);
    ScanOne(DOUBLE_CR);
    assert [DOUBLE_CR] + [PLAIN] == [DOUBLE_CR, PLAIN];
  }

  lemma ExampleCost()
    ensures TotalCost(Identity, [[A, CR], [A]]) == 134
  {
    CostSnoc(Identity, [[A, CR]], [A]);
    CostSnoc(Identity, [], [A, CR]);
    assert [[A, CR]] + [[A]] == [[A, CR], [A]];
    var none: seq<Str> := [];
    assert none + [[A, CR]] == [[A, CR]];
  }

  lemma ExampleSortable()
    ensures Sortable(Identity, [[A, CR], [A]], true)
  {
    var s := RecordsOf(Identity, [[A, CR], [A]]);
    assert s == [Rec([A, CR], [A, CR]), Rec([A], [A])];
    assert multiset(s) == multiset{s[0], s[1]};
    if Repeats(Identity, [[A, CR], [A]]) { RepeatsClash(Identity, [[A, CR], [A]]); }
  }

  lemma {:induction false} ExampleDropped(n: nat)
    requires n > 0
    ensures DropTimes([[A, CR], [A]], n) == [[A], [A]]
  {
    if n == 1 {
      DroppedAppend([[A, CR]], [[A]]);
      assert [[A, CR]] + [[A]] == [[A, CR], [A]];
      assert DropCR([A, CR]) == [A] && DropCR([A]) == [A];
      assert Dropped([[A, CR]]) == [[A]] && Dropped([[A]]) == [[A]];
    } else {
      ExampleDropped(n - 1);
      assert DropCR([A]) == [A];
      DroppedClean([[A], [A]]);
    }
  }

  lemma ExampleRepeats(out: seq<Str>)
    requires Same(out, [[A], [A]])
    ensures !UniqueLines(Identity, out)
  {
    SameBag(out, [[A], [A]]);
    assert |multiset(out)| == |out|;
    assert out[0] in multiset(out) && out[1] in multiset(out);
    assert out == [[A], [A]];
    var s := RecordsOf(Identity, out);
    assert s[0].key == s[1].key == [A];
  }

  /** The lines "a\r" and "a" have different keys. In one chunk a unique sort accepts them; in two the
      merge reads "a" twice and refuses, and without `unique` the CR is lost. */
  method SettingDecides() returns (large: Option<Str>, small: Option<Str>, lossy: Option<Str>)
    ensures large.Some? && small.None?
    ensures lossy.Some? && !Same(RowLines(lossy.value), ScanAll([DOUBLE_CR, PLAIN]))
  {
    ghost var passes;
    ExampleLines();
    ExampleCost();
    ExampleSortable();
    large, passes := SortFiles([DOUBLE_CR, PLAIN], Identity, Options(0, 0, true));
    lossy, passes := SortFiles([DOUBLE_CR, PLAIN], Identity, Options(1, 0, false));
    ReadableAt(Identity, DropTimes([[A, CR], [A]], passes));
    small, passes := SortFiles([DOUBLE_CR, PLAIN], Identity, Options(1, 0, true));
    if small.Some? {
      ExampleDropped(passes);
      ExampleRepeats(RowLines(small.value));
    }
  }
}
