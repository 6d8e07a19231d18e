/** The bounded-memory external sorter: chunks are sorted and spilled as runs, runs are merged in
    passes of limited width. */
module ExternalSort {
  import opened Bytes
  import opened Model

  const LF: Byte := 10
  const CR: Byte := 13

  // ---- run files ----------------------------------------------------------------------------

  function Text(lines: seq<Str>): Str {
    if lines == [] then [] else lines[0] + [LF] + Text(lines[1..])
  }

  function DropCR(line: Str): Str {
    if line != [] && line[|line| - 1] == CR then line[..|line| - 1] else line
  }

  /** The scanner's lines: split at LF, one trailing CR dropped. */
  function Lines(text: Str): seq<Str>
    decreases |text|
  {
    if text == [] then []
    else var n := Cut(text, LF);
         [DropCR(text[..n])] + (if n == |text| then [] else Lines(text[n + 1..]))
  }

  predicate Terminated(text: Str) {
    text == [] || text[|text| - 1] == LF
  }

  predicate Free(lines: seq<Str>) {
    forall i | 0 <= i < |lines| :: LF !in lines[i]
  }

  predicate Unbroken(line: Str) {
    LF !in line && CR !in line
  }

  /** Lines that read back as written. */
  predicate Clean(lines: seq<Str>) {
    forall i | 0 <= i < |lines| :: LF !in lines[i] && DropCR(lines[i]) == lines[i]
  }

  function Breaks(text: Str): nat {
    if text == [] then 0 else (if text[0] == LF then 1 else 0) + Breaks(text[1..])
  }

  lemma {:induction false} BreaksAppend(a: Str, b: Str)
    ensures Breaks(a + b) == Breaks(a) + Breaks(b)
    ensures LF in a <==> Breaks(a) > 0
  {
    if a == [] {
      assert a + b == b;
    } else {
      BreaksAppend(a[1..], b);
      assert (a + b)[1..] == a[1..] + b;
    }
  }

  lemma {:induction false} LinesCount(text: Str)
    requires Terminated(text)
    ensures |Lines(text)| == Breaks(text)
    decreases |text|
  {
    if text != [] {
      var n := Cut(text, LF);
      BreaksAppend(text[..n], [LF]);
      assert text == text[..n] + [LF] + text[n + 1..];
      BreaksAppend(text[..n] + [LF], text[n + 1..]);
      LinesCount(text[n + 1..]);
    }
  }

  lemma {:induction false} TextEnds(lines: seq<Str>)
    ensures lines != [] ==> Text(lines) != [] && Text(lines)[|Text(lines)| - 1] == LF
    ensures Breaks(Text(lines)) >= |lines|
    ensures Breaks(Text(lines)) == |lines| ==> forall i | 0 <= i < |lines| :: LF !in lines[i]
  {
    if lines != [] {
      TextEnds(lines[1..]);
      BreaksAppend(lines[0], [LF]);
      BreaksAppend(lines[0] + [LF], Text(lines[1..]));
      if Breaks(Text(lines)) == |lines| {
        forall i | 0 <= i < |lines| ensures LF !in lines[i] {
          if i > 0 { assert lines[i] == lines[1..][i - 1]; }
        }
      }
    }
  }

  function Dropped(lines: seq<Str>): (r: seq<Str>)
    ensures |r| == |lines|
  {
    if lines == [] then [] else [DropCR(lines[0])] + Dropped(lines[1..])
  }

  lemma {:induction false} DroppedClean(lines: seq<Str>)
    ensures Dropped(lines) == lines <==> forall i | 0 <= i < |lines| :: DropCR(lines[i]) == lines[i]
  {
    if lines != [] {
      DroppedClean(lines[1..]);
      assert lines == [lines[0]] + lines[1..];
      assert forall i | 1 <= i < |lines| :: lines[i] == lines[1..][i - 1];
      assert Dropped(lines)[0] == DropCR(lines[0]) && Dropped(lines)[1..] == Dropped(lines[1..]);
    }
  }

  lemma LinesCons(line: Str, rest: Str)
    requires LF !in line
    ensures Lines(line + [LF] + rest) == [DropCR(line)] + Lines(rest)
  {
    var text := line + [LF] + rest;
    CutUnique(line, LF, rest);
    assert text[..|line|] == line && text[|line| + 1..] == rest;
  }

  lemma {:induction false} LinesOfText(lines: seq<Str>)
    requires forall i | 0 <= i < |lines| :: LF !in lines[i]
    ensures Lines(Text(lines)) == Dropped(lines)
  {
    if lines != [] {
      LinesOfText(lines[1..]);
      LinesCons(lines[0], Text(lines[1..]));
    }
  }

  /** A run read back is the run written exactly when no record holds an LF or ends in a CR. */
  lemma RunRoundTrip(lines: seq<Str>)
    ensures Lines(Text(lines)) == lines <==> Clean(lines)
  {
    TextEnds(lines);
    LinesCount(Text(lines));
    if Lines(Text(lines)) == lines || Clean(lines) { LinesOfText(lines); }
    DroppedClean(lines);
  }

  /** The records of a text, as they were written; the last one may lack its LF. */
  function RowLines(text: Str): (lines: seq<Str>)
    decreases |text|
  {
    if text == [] then []
    else var n := Cut(text, LF);
         [text[..n]] + (if n == |text| then [] else RowLines(text[n + 1..]))
  }

  lemma {:induction false} LinesFree(text: Str)
    ensures Free(RowLines(text)) && Free(Lines(text))
    decreases |text|
  {
    var n := Cut(text, LF);
    if n < |text| { LinesFree(text[n + 1..]); }
  }

  lemma LinesCut(line: Str, rest: Str)
    requires LF !in line
    ensures RowLines(line + [LF] + rest) == [line] + RowLines(rest)
  {
    var text := line + [LF] + rest;
    CutUnique(line, LF, rest);
    assert text[..|line|] == line && text[|line| + 1..] == rest;
  }

  lemma {:induction false} PrintedLines(lines: seq<Str>)
    requires Free(lines)
    ensures RowLines(Text(lines)) == lines && Terminated(Text(lines))
  {
    if lines != [] {
      PrintedLines(lines[1..]);
      LinesCut(lines[0], Text(lines[1..]));
    }
  }

  /** The scanner gives the written records less one CR each. */
  lemma {:induction false} LinesDropped(text: Str)
    ensures Lines(text) == Dropped(RowLines(text))
    decreases |text|
  {
    if text != [] {
      var n := Cut(text, LF);
      if n < |text| {
        LinesDropped(text[n + 1..]);
        NextDropped(text[..n], text[n + 1..]);
        Around(text, n);
      } else {
        assert text[..n] == text;
        LastLine(text);
      }
    }
  }

  lemma LastLine(text: Str)
    requires text != [] && LF !in text
    ensures Lines(text) == [DropCR(text)] == Dropped(RowLines(text))
  {
    CutUnique(text, LF, []);
    assert text[..|text|] == text;
    DroppedCons(text, []);
  }

  lemma NextDropped(line: Str, rest: Str)
    requires LF !in line && Lines(rest) == Dropped(RowLines(rest))
    ensures Lines(line + [LF] + rest) == Dropped(RowLines(line + [LF] + rest))
  {
    LinesCons(line, rest);
    LinesCut(line, rest);
    DroppedCons(line, RowLines(rest));
  }

  lemma DroppedCons(x: Str, rest: seq<Str>)
    ensures Dropped([x] + rest) == [DropCR(x)] + Dropped(rest)
  {
    assert ([x] + rest)[1..] == rest;
  }

  // ---- records and their order --------------------------------------------------------------

  datatype Rec = Rec(key: Str, data: Str)

  predicate Le(a: Rec, b: Rec) {
    Less(a.key, b.key) || (a.key == b.key && AtMost(a.data, b.data))
  }

  lemma LeTotal(a: Rec, b: Rec)
    ensures Le(a, b) || Le(b, a)
    ensures Le(a, b) && Le(b, a) ==> a == b
  {
    LessTotal(a.key, b.key);
    LessTotal(a.data, b.data);
    if Less(a.key, b.key) { LessAsymmetric(a.key, b.key); }
    if Less(b.key, a.key) { LessAsymmetric(b.key, a.key); }
    if Less(a.data, b.data) { LessAsymmetric(a.data, b.data); }
  }

  lemma LeTransitive(a: Rec, b: Rec, c: Rec)
    requires Le(a, b) && Le(b, c)
    ensures Le(a, c)
  {
    if Less(a.key, b.key) && Less(b.key, c.key) { LessTransitive(a.key, b.key, c.key); }
    LessIrreflexive(a.key);
    if a.key == b.key == c.key { AtMostTransitive(a.data, b.data, c.data); }
  }

  predicate Sorted(s: seq<Rec>) {
    forall i, j | 0 <= i < j < |s| :: Le(s[i], s[j])
  }

  /** No two records of a sorted run share a key. */
  predicate KeyStrict(s: seq<Rec>) {
    forall i | 0 < i < |s| :: s[i - 1].key != s[i].key
  }

  /** What the merge checks: equal neighbouring keys are let through only where they are empty. */
  predicate NoRepeat(s: seq<Rec>) {
    forall i | 0 < i < |s| && s[i - 1].key == s[i].key :: s[i].key == []
  }

  ghost predicate DistinctKeys(m: multiset<Rec>) {
    forall a, b | a in m && b in m && a.key == b.key :: a == b && m[a] == 1
  }

  lemma SortedExtend(s: seq<Rec>, x: Rec)
    requires Sorted(s) && (s == [] || Le(s[|s| - 1], x))
    ensures Sorted(s + [x])
  {
    forall i | 0 <= i < |s| ensures Le(s[i], x) {
      if i < |s| - 1 { LeTransitive(s[i], s[|s| - 1], x); }
    }
  }

  /** Two neighbours with one key are a duplicate. */
  lemma NeighboursShareKey(s: seq<Rec>, i: nat)
    requires 0 < i < |s| && s[i - 1].key == s[i].key
    ensures !DistinctKeys(multiset(s))
  {
    assert s == s[..i - 1] + [s[i - 1], s[i]] + s[i + 1..];
    assert multiset(s) == multiset(s[..i - 1]) + multiset([s[i - 1], s[i]]) + multiset(s[i + 1..]);
    assert s[i - 1] in multiset(s) && s[i] in multiset(s);
  }

  lemma StrictKeys(s: seq<Rec>, i: nat, j: nat)
    requires Sorted(s) && KeyStrict(s) && i < j < |s|
    ensures Less(s[i].key, s[j].key)
  {
    assert Le(s[i], s[i + 1]);
    if i + 1 < j {
      assert Le(s[i + 1], s[j]);
      AtMostTransitive(s[i].key, s[i + 1].key, s[j].key);
    }
  }

  lemma {:induction false} StrictDistinct(s: seq<Rec>)
    requires Sorted(s) && KeyStrict(s)
    ensures DistinctKeys(multiset(s))
  {
    if s != [] {
      var n := |s| - 1;
      var p := s[..n];
      StrictDistinct(p);
      assert s == p + [s[n]];
      forall i | 0 <= i < n ensures s[i].key != s[n].key {
        StrictKeys(s, i, n);
        LessIrreflexive(s[n].key);
      }
      forall a: Rec | a in multiset(p) ensures a.key != s[n].key {
        var i :| 0 <= i < n && p[i] == a;
      }
    }
  }

  lemma DistinctSubset(m: multiset<Rec>, n: multiset<Rec>)
    requires DistinctKeys(n) && m <= n
    ensures DistinctKeys(m)
  {
    forall a, b | a in m && b in m && a.key == b.key ensures a == b && m[a] == 1 {
      assert a in n && b in n;
    }
  }

  function Insert(s: seq<Rec>, x: Rec): seq<Rec> {
    if s == [] || Le(s[|s| - 1], x) then s + [x] else Insert(s[..|s| - 1], x) + [s[|s| - 1]]
  }

  lemma {:induction false} InsertSorted(s: seq<Rec>, x: Rec)
    requires Sorted(s)
    ensures Sorted(Insert(s, x)) && multiset(Insert(s, x)) == multiset(s) + multiset{x}
  {
    if s == [] || Le(s[|s| - 1], x) {
      SortedExtend(s, x);
    } else {
      var n := |s| - 1;
      var p := Insert(s[..n], x);
      InsertSorted(s[..n], x);
      LeTotal(s[n], x);
      assert s == s[..n] + [s[n]];
      InsertedBelow(s[..n], x, p, s[n]);
      SortedExtend(p, s[n]);
    }
  }

  lemma InsertedBelow(s: seq<Rec>, x: Rec, p: seq<Rec>, top: Rec)
    requires multiset(p) == multiset(s) + multiset{x} && Le(x, top) && forall i | 0 <= i < |s| :: Le(s[i], top)
    ensures forall i | 0 <= i < |p| :: Le(p[i], top)
  {
    forall i | 0 <= i < |p| ensures Le(p[i], top) {
      assert p[i] in multiset(p);
      if p[i] != x { var k :| 0 <= k < |s| && s[k] == p[i]; }
    }
  }

  /** What the library sort of a chunk gives. */
  function SortChunk(s: seq<Rec>): seq<Rec> {
    if s == [] then [] else Insert(SortChunk(s[..|s| - 1]), s[|s| - 1])
  }

  lemma {:induction false} ChunkSorted(s: seq<Rec>)
    ensures Sorted(SortChunk(s)) && multiset(SortChunk(s)) == multiset(s)
  {
    if s != [] {
      var n := |s| - 1;
      ChunkSorted(s[..n]);
      InsertSorted(SortChunk(s[..n]), s[n]);
      assert s == s[..n] + [s[n]];
    }
  }

  // ---- records of a file ----------------------------------------------------------------------

  /** A function that extracts the sort key of a record, or fails. */
  type KeyFunction = Str -> Option<Str>

  function RecordOf(key: KeyFunction, line: Str): Rec {
    Rec(if key(line).Some? then key(line).value else [], line)
  }

  function RecordsOf(key: KeyFunction, lines: seq<Str>): (r: seq<Rec>)
    ensures |r| == |lines|
    ensures forall i | 0 <= i < |lines| :: r[i] == RecordOf(key, lines[i])
  {
    if lines == [] then [] else [RecordOf(key, lines[0])] + RecordsOf(key, lines[1..])
  }

  /** A usable sort key exists and is not empty. */
  predicate HasKey(key: KeyFunction, line: Str) {
    key(line).Some? && key(line).value != []
  }

  predicate Keyed(key: KeyFunction, lines: seq<Str>) {
    forall i | 0 <= i < |lines| :: HasKey(key, lines[i])
  }

  lemma {:induction false} RecordsAppend(key: KeyFunction, a: seq<Str>, b: seq<Str>)
    ensures RecordsOf(key, a + b) == RecordsOf(key, a) + RecordsOf(key, b)
  {
    if a == [] {
      assert a + b == b;
    } else {
      RecordsAppend(key, a[1..], b);
      TailOfSum(a, b);
    }
  }

  function Data(run: seq<Rec>): (lines: seq<Str>)
    ensures |lines| == |run|
  {
    if run == [] then [] else [run[0].data] + Data(run[1..])
  }

  lemma {:induction false} DataAt(run: seq<Rec>)
    ensures forall i | 0 <= i < |run| :: Data(run)[i] == run[i].data
  {
    if run != [] { DataAt(run[1..]); }
  }

  lemma {:induction false} DataAppend(a: seq<Rec>, b: seq<Rec>)
    ensures Data(a + b) == Data(a) + Data(b)
  {
    if a == [] {
      assert a + b == b;
    } else {
      DataAppend(a[1..], b);
      TailOfSum(a, b);
    }
  }

  lemma {:induction false} DataOfRecords(key: KeyFunction, lines: seq<Str>)
    ensures Data(RecordsOf(key, lines)) == lines
  {
    if lines != [] {
      DataOfRecords(key, lines[1..]);
      assert lines == [lines[0]] + lines[1..];
    }
  }

  /** The records are those of their data. */
  lemma {:induction false} RecordsOfData(key: KeyFunction, run: seq<Rec>)
    requires forall i | 0 <= i < |run| :: run[i] == RecordOf(key, run[i].data)
    ensures RecordsOf(key, Data(run)) == run
  {
    if run != [] {
      RecordsOfData(key, run[1..]);
      assert run == [run[0]] + run[1..];
    }
  }

  // ---- permutations ---------------------------------------------------------------------------

  lemma RemoveOne<T>(s: seq<T>, i: nat)
    requires i < |s|
    ensures multiset(s) == multiset(s[..i] + s[i + 1..]) + multiset{s[i]}
  {
    Around(s, i);
  }

  lemma SameRest<T>(a: seq<T>, b: seq<T>, i: nat)
    requires multiset(a) == multiset(b) && a != [] && i < |b| && b[i] == a[0]
    ensures multiset(a[1..]) == multiset(b[..i] + b[i + 1..])
  {
    RemoveOne(a, 0);
    RemoveOne(b, i);
    assert a[..0] + a[1..] == a[1..];
    var p, q := multiset(a[1..]), multiset(b[..i] + b[i + 1..]);
    forall x: T ensures p[x] == q[x] { assert (p + multiset{a[0]})[x] == (q + multiset{a[0]})[x]; }
  }

  lemma Where<T>(b: seq<T>, x: T) returns (i: nat)
    requires x in multiset(b)
    ensures i < |b| && b[i] == x
  {
    i :| 0 <= i < |b| && b[i] == x;
  }

  lemma NoElements<T>(b: seq<T>)
    requires multiset(b) == multiset{}
    ensures b == []
  {
    assert |multiset(b)| == |b|;
  }

  /** Where the first element of one permutation stands in another. */
  lemma Matched<T>(a: seq<T>, b: seq<T>) returns (p: seq<T>, q: seq<T>)
    requires multiset(a) == multiset(b) && a != []
    ensures b == p + [a[0]] + q && multiset(a[1..]) == multiset(p + q)
  {
    assert a[0] in multiset(a);
    var i := Where(b, a[0]);
    SameRest(a, b, i);
    Around(b, i);
    p, q := b[..i], b[i + 1..];
  }

  lemma DataMiddle(p: seq<Rec>, x: Rec, q: seq<Rec>)
    ensures multiset(Data(p + [x] + q)) == multiset(Data(p + q)) + multiset{x.data}
  {
    DataAppend(p + [x], q);
    DataAppend(p, [x]);
    DataAppend(p, q);
    assert Data([x]) == [x.data];
  }

  lemma DataStep(x: Rec, rest: seq<Rec>, p: seq<Rec>, q: seq<Rec>)
    requires multiset(Data(rest)) == multiset(Data(p + q))
    ensures multiset(Data([x] + rest)) == multiset(Data(p + [x] + q))
  {
    DataMiddle(p, x, q);
    DataAppend([x], rest);
    assert Data([x]) == [x.data];
  }

  lemma {:induction false} DataPermutes(a: seq<Rec>, b: seq<Rec>)
    requires multiset(a) == multiset(b)
    ensures multiset(Data(a)) == multiset(Data(b))
  {
    if a == [] {
      NoElements(b);
    } else {
      var p, q := Matched(a, b);
      DataPermutes(a[1..], p + q);
      DataStep(a[0], a[1..], p, q);
      assert a == [a[0]] + a[1..];
    }
  }

  lemma {:induction false} DroppedAppend(a: seq<Str>, b: seq<Str>)
    ensures Dropped(a + b) == Dropped(a) + Dropped(b)
  {
    if a == [] {
      assert a + b == b;
    } else {
      DroppedAppend(a[1..], b);
      TailOfSum(a, b);
    }
  }

  lemma DroppedMiddle(p: seq<Str>, x: Str, q: seq<Str>)
    ensures multiset(Dropped(p + [x] + q)) == multiset(Dropped(p + q)) + multiset{DropCR(x)}
  {
    DroppedAppend(p + [x], q);
    DroppedAppend(p, [x]);
    DroppedAppend(p, q);
    assert Dropped([x]) == [DropCR(x)];
  }

  lemma DroppedStep(x: Str, rest: seq<Str>, p: seq<Str>, q: seq<Str>)
    requires multiset(Dropped(rest)) == multiset(Dropped(p + q))
    ensures multiset(Dropped([x] + rest)) == multiset(Dropped(p + [x] + q))
  {
    DroppedMiddle(p, x, q);
    DroppedAppend([x], rest);
    assert Dropped([x]) == [DropCR(x)];
  }

  /** Reading back is the same function of every record, whatever their order. */
  lemma {:induction false} DroppedPermutes(a: seq<Str>, b: seq<Str>)
    requires multiset(a) == multiset(b)
    ensures multiset(Dropped(a)) == multiset(Dropped(b))
  {
    if a == [] {
      NoElements(b);
    } else {
      var p, q := Matched(a, b);
      DroppedPermutes(a[1..], p + q);
      DroppedStep(a[0], a[1..], p, q);
      assert a == [a[0]] + a[1..];
    }
  }

  // ---- merging ------------------------------------------------------------------------------

  function All(runs: seq<seq<Rec>>): multiset<Rec> {
    if runs == [] then multiset{} else multiset(runs[0]) + All(runs[1..])
  }

  lemma {:induction false} AllAppend(a: seq<seq<Rec>>, b: seq<seq<Rec>>)
    ensures All(a + b) == All(a) + All(b)
  {
    if a == [] {
      assert a + b == b;
    } else {
      AllAppend(a[1..], b);
      TailOfSum(a, b);
    }
  }

  predicate Cursors(runs: seq<seq<Rec>>, next: seq<nat>) {
    |next| == |runs| && forall i | 0 <= i < |runs| :: next[i] <= |runs[i]|
  }

  ghost function Taken(runs: seq<seq<Rec>>, next: seq<nat>): multiset<Rec>
    requires Cursors(runs, next)
  {
    if runs == [] then multiset{} else multiset(runs[0][..next[0]]) + Taken(runs[1..], next[1..])
  }

  ghost function Left(runs: seq<seq<Rec>>, next: seq<nat>): nat
    requires Cursors(runs, next)
  {
    if runs == [] then 0 else |runs[0]| - next[0] + Left(runs[1..], next[1..])
  }

  lemma {:induction false} Advance(runs: seq<seq<Rec>>, next: seq<nat>, j: nat)
    requires Cursors(runs, next) && j < |runs| && next[j] < |runs[j]|
    ensures Cursors(runs, next[j := next[j] + 1])
    ensures Taken(runs, next[j := next[j] + 1]) == Taken(runs, next) + multiset{runs[j][next[j]]}
    ensures Left(runs, next[j := next[j] + 1]) < Left(runs, next)
  {
    var moved := next[j := next[j] + 1];
    if j == 0 {
      Longer(runs[0], next[0]);
      assert moved[1..] == next[1..];
    } else {
      Advance(runs[1..], next[1..], j - 1);
      TailUpdated(next, j, next[j] + 1);
    }
  }

  lemma TailUpdated(next: seq<nat>, j: nat, x: nat)
    requires 0 < j < |next|
    ensures next[j := x][1..] == next[1..][j - 1 := x] && next[j := x][0] == next[0]
  {}

  lemma {:induction false} TakenAtMost(runs: seq<seq<Rec>>, next: seq<nat>)
    requires Cursors(runs, next)
    ensures Taken(runs, next) <= All(runs)
  {
    if runs != [] {
      TakenAtMost(runs[1..], next[1..]);
      Part(runs[0], next[0]);
    }
  }

  lemma Part(run: seq<Rec>, n: nat)
    requires n <= |run|
    ensures multiset(run[..n]) <= multiset(run)
  {
    assert run == run[..n] + run[n..];
  }

  lemma {:induction false} TakenAll(runs: seq<seq<Rec>>, next: seq<nat>)
    requires Cursors(runs, next) && forall i | 0 <= i < |runs| :: next[i] == |runs[i]|
    ensures Taken(runs, next) == All(runs)
  {
    if runs != [] {
      TakenAll(runs[1..], next[1..]);
      assert runs[0][..next[0]] == runs[0];
    }
  }

  lemma {:induction false} TakenNone(runs: seq<seq<Rec>>, next: seq<nat>)
    requires Cursors(runs, next) && forall i | 0 <= i < |runs| :: next[i] == 0
    ensures Taken(runs, next) == multiset{}
  {
    if runs != [] { TakenNone(runs[1..], next[1..]); }
  }

  predicate Minimal(runs: seq<seq<Rec>>, next: seq<nat>, b: nat, n: nat)
    requires Cursors(runs, next) && b < n <= |runs|
  {
    && next[b] < |runs[b]|
    && forall i | 0 <= i < n && next[i] < |runs[i]| :: Le(runs[b][next[b]], runs[i][next[i]])
  }

  /** The queue's minimum: the run whose next record is least. */
  method PopMinimum(runs: seq<seq<Rec>>, next: seq<nat>) returns (best: Option<nat>)
    requires Cursors(runs, next)
    ensures best.None? ==> forall i | 0 <= i < |runs| :: next[i] == |runs[i]|
    ensures best.Some? ==> best.value < |runs| && Minimal(runs, next, best.value, |runs|)
  {
    best := None;
    for i := 0 to |runs|
      invariant best.None? ==> forall k | 0 <= k < i :: next[k] == |runs[k]|
      invariant best.Some? ==> best.value < i && Minimal(runs, next, best.value, i)
    {
      if next[i] < |runs[i]| {
        if best.None? {
          best := Some(i);
        } else {
          ghost var b := runs[best.value][next[best.value]];
          LeTotal(b, runs[i][next[i]]);
          if !Le(runs[best.value][next[best.value]], runs[i][next[i]]) {
            forall k | 0 <= k < i && next[k] < |runs[k]| ensures Le(runs[i][next[i]], runs[k][next[k]]) {
              LeTransitive(runs[i][next[i]], b, runs[k][next[k]]);
            }
            best := Some(i);
          }
        }
      }
    }
  }

  predicate Merging(runs: seq<seq<Rec>>, next: seq<nat>, merged: seq<Rec>) {
    && Cursors(runs, next) && Sorted(merged)
    && (merged != [] ==> forall i | 0 <= i < |runs| && next[i] < |runs[i]| ::
          Le(merged[|merged| - 1], runs[i][next[i]]))
  }

  lemma MergeStep(runs: seq<seq<Rec>>, next: seq<nat>, merged: seq<Rec>, j: nat)
    requires forall i | 0 <= i < |runs| :: Sorted(runs[i])
    requires Merging(runs, next, merged) && j < |runs| && Minimal(runs, next, j, |runs|)
    ensures Merging(runs, next[j := next[j] + 1], merged + [runs[j][next[j]]])
  {
    SortedExtend(merged, runs[j][next[j]]);
  }

  lemma DuplicateFound(part: seq<Rec>, all: multiset<Rec>)
    requires multiset(part) <= all && |part| > 1 && part[|part| - 2].key == part[|part| - 1].key
    ensures !DistinctKeys(all)
  {
    NeighboursShareKey(part, |part| - 1);
    if DistinctKeys(all) { DistinctSubset(multiset(part), all); }
  }

  /** Merges runs as read back. */
  method MergeRecords(runs: seq<seq<Rec>>, unique: bool) returns (out: Option<seq<Rec>>)
    ensures out.Some? ==> multiset(out.value) == All(runs) && (AllSorted(runs) ==> Sorted(out.value))
    ensures out.Some? && unique ==> NoRepeat(out.value)
    ensures out.None? ==> unique && !DistinctKeys(All(runs))
  {
    var next: seq<nat> := seq(|runs|, i => 0);
    var merged: seq<Rec> := [];
    var previous: Option<Str> := None;
    TakenNone(runs, next);
    while true
      invariant MergeInv(runs, next, merged, unique) && Follows(merged, previous)
      decreases Left(runs, next)
    {
      var best := PopMinimum(runs, next);
      if best.None? {
        TakenAll(runs, next);
        return Some(merged);
      }
      var j := best.value;
      var x := runs[j][next[j]];
      Advance(runs, next, j);
      if unique && previous == Some(x.key) {
        MergeDuplicate(runs, next, merged, j);
        return None;
      }
      MergeKept(runs, next, merged, unique, j);
      previous := if previous.None? && x.key == [] then None else Some(x.key);
      next, merged := next[j := next[j] + 1], merged + [x];
    }
  }

  predicate AllSorted(runs: seq<seq<Rec>>) {
    runs == [] || (Sorted(runs[|runs| - 1]) && AllSorted(runs[..|runs| - 1]))
  }

  lemma {:induction false} SortedAt(runs: seq<seq<Rec>>)
    ensures AllSorted(runs) <==> forall i | 0 <= i < |runs| :: Sorted(runs[i])
  {
    if runs != [] {
      SortedAt(runs[..|runs| - 1]);
      assert forall i | 0 <= i < |runs| - 1 :: runs[..|runs| - 1][i] == runs[i];
    }
  }

  /** The key to compare with: that of the last record, which may go unnoticed only while it is empty. */
  predicate Follows(merged: seq<Rec>, previous: Option<Str>) {
    && (previous.Some? ==> merged != [] && previous.value == merged[|merged| - 1].key)
    && (previous.None? && merged != [] ==> merged[|merged| - 1].key == [])
  }

  ghost predicate MergeInv(runs: seq<seq<Rec>>, next: seq<nat>, merged: seq<Rec>, unique: bool) {
    && Cursors(runs, next) && multiset(merged) == Taken(runs, next) && (unique ==> NoRepeat(merged))
    && (AllSorted(runs) ==> Merging(runs, next, merged))
  }

  lemma MergeKept(runs: seq<seq<Rec>>, next: seq<nat>, merged: seq<Rec>, unique: bool, j: nat)
    requires MergeInv(runs, next, merged, unique) && j < |runs| && Minimal(runs, next, j, |runs|)
    requires unique && merged != [] && merged[|merged| - 1].key == runs[j][next[j]].key ==> runs[j][next[j]].key == []
    ensures MergeInv(runs, next[j := next[j] + 1], merged + [runs[j][next[j]]], unique)
  {
    Advance(runs, next, j);
    if AllSorted(runs) {
      SortedAt(runs);
      MergeStep(runs, next, merged, j);
    }
  }

  lemma MergeDuplicate(runs: seq<seq<Rec>>, next: seq<nat>, merged: seq<Rec>, j: nat)
    requires Cursors(runs, next) && multiset(merged) == Taken(runs, next) && merged != []
    requires j < |runs| && next[j] < |runs[j]| && merged[|merged| - 1].key == runs[j][next[j]].key
    ensures !DistinctKeys(All(runs))
  {
    Advance(runs, next, j);
    TakenAtMost(runs, next[j := next[j] + 1]);
    DuplicateFound(merged + [runs[j][next[j]]], All(runs));
  }

  lemma AllSnoc(s: seq<seq<Rec>>, x: seq<Rec>)
    ensures All(s + [x]) == All(s) + multiset(x)
  {
    AllAppend(s, [x]);
    assert All([x]) == multiset(x) + All([]);
  }

  /** The first record whose key is that of the record before it. */
  method SharedKey(s: seq<Rec>) returns (i: nat)
    ensures i < |s| ==> i > 0 && s[i - 1].key == s[i].key
    ensures i >= |s| ==> KeyStrict(s)
  {
    i := 1;
    while i < |s|
      invariant 0 < i
      invariant forall j | 0 < j < i && j < |s| :: s[j - 1].key != s[j].key
    {
      if s[i - 1].key == s[i].key { return; }
      i := i + 1;
    }
  }
}
