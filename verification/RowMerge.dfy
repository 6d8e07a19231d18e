/** Two-cursor merges of catalogs sorted by key: what one step keeps and what it discovers. */
module RowMerge {
  import opened Bytes

  /** Objects are keyed by hash (second part 0), pack rows by hash and part number. */
  type RowKey = (Str, nat)

  predicate KeyLess(a: RowKey, b: RowKey) {
    Less(a.0, b.0) || (a.0 == b.0 && a.1 < b.1)
  }

  lemma KeyTransitive(a: RowKey, b: RowKey, c: RowKey)
    requires KeyLess(a, b) && KeyLess(b, c)
    ensures KeyLess(a, c)
  {
    if Less(a.0, b.0) && Less(b.0, c.0) { LessTransitive(a.0, b.0, c.0); }
  }

  lemma KeyTotal(a: RowKey, b: RowKey)
    ensures KeyLess(a, b) || a == b || KeyLess(b, a)
    ensures !KeyLess(a, a)
  {
    LessTotal(a.0, b.0);
    LessIrreflexive(a.0);
    assert a == (a.0, a.1) && b == (b.0, b.1);
  }

  lemma KeyAsymmetric(a: RowKey, b: RowKey)
    requires KeyLess(a, b)
    ensures !KeyLess(b, a) && a != b
  {
    KeyTotal(a, b);
    if KeyLess(b, a) { KeyTransitive(a, b, a); }
  }

  ghost predicate Rising<T>(rows: seq<T>, key: T -> RowKey) {
    forall i, j | 0 <= i < j < |rows| :: KeyLess(key(rows[i]), key(rows[j]))
  }

  /** The rows of `after` that `before` lacks, in order. */
  function Added<T(==)>(before: seq<T>, after: seq<T>): seq<T> {
    if after == [] then []
    else Added(before, after[..|after| - 1]) + (if after[|after| - 1] in before then [] else [after[|after| - 1]])
  }

  lemma AddedStep<T>(before: seq<T>, after: seq<T>, j: nat)
    requires j < |after|
    ensures Added(before, after[..j + 1]) == Added(before, after[..j]) + (if after[j] in before then [] else [after[j]])
  {
    assert after[..j + 1][..j] == after[..j];
  }

  lemma {:induction false} AddedHas<T>(before: seq<T>, after: seq<T>, x: T)
    ensures x in Added(before, after) <==> x in after && x !in before
  {
    if after != [] {
      AddedHas(before, after[..|after| - 1], x);
      assert after == after[..|after| - 1] + [after[|after| - 1]];
    }
  }

  /** Cursors at `i` and `j`: everything passed is smaller than everything ahead. */
  ghost predicate Between<T>(before: seq<T>, after: seq<T>, key: T -> RowKey, i: nat, j: nat) {
    && i <= |before| && j <= |after| && Rising(before, key) && Rising(after, key)
    && (i < |before| ==> forall k | 0 <= k < j :: KeyLess(key(after[k]), key(before[i])))
    && (j < |after| ==> forall k | 0 <= k < i :: KeyLess(key(before[k]), key(after[j])))
  }

  /** Both rows carry the same key: both cursors move. */
  lemma PassBoth<T>(before: seq<T>, after: seq<T>, key: T -> RowKey, i: nat, j: nat)
    requires Between(before, after, key, i, j) && i < |before| && j < |after| && key(before[i]) == key(after[j])
    ensures Between(before, after, key, i + 1, j + 1)
    ensures before[i] in after <==> before[i] == after[j]
    ensures after[j] in before <==> before[i] == after[j]
  {
    OnlyAt(after, key, j, before[i]);
    OnlyAt(before, key, i, after[j]);
    if i + 1 < |before| {
      forall k | 0 <= k < j + 1 ensures KeyLess(key(after[k]), key(before[i + 1])) {
        if k < j { KeyTransitive(key(after[k]), key(before[i]), key(before[i + 1])); }
      }
    }
    if j + 1 < |after| {
      forall k | 0 <= k < i + 1 ensures KeyLess(key(before[k]), key(after[j + 1])) {
        if k < i { KeyTransitive(key(before[k]), key(after[j]), key(after[j + 1])); }
      }
    }
  }

  /** A key stands in one place. */
  lemma OnlyAt<T>(rows: seq<T>, key: T -> RowKey, j: nat, x: T)
    requires Rising(rows, key) && j < |rows| && key(rows[j]) == key(x)
    ensures x in rows <==> x == rows[j]
  {
    if x in rows {
      var k :| 0 <= k < |rows| && rows[k] == x;
      KeyTotal(key(x), key(x));
    }
  }

  /** The new row comes first: the old catalog lacks its key. */
  lemma PassNew<T>(before: seq<T>, after: seq<T>, key: T -> RowKey, i: nat, j: nat)
    requires Between(before, after, key, i, j) && j < |after|
    requires i < |before| ==> KeyLess(key(after[j]), key(before[i]))
    ensures Between(before, after, key, i, j + 1)
    ensures forall k | 0 <= k < |before| :: key(before[k]) != key(after[j])
    ensures after[j] !in before
  {
    forall k | 0 <= k < |before| ensures key(before[k]) != key(after[j]) {
      if k < i {
        KeyAsymmetric(key(before[k]), key(after[j]));
      } else {
        if k > i { KeyTransitive(key(after[j]), key(before[i]), key(before[k])); }
        KeyAsymmetric(key(after[j]), key(before[k]));
      }
    }
    if j + 1 < |after| {
      forall k | 0 <= k < i ensures KeyLess(key(before[k]), key(after[j + 1])) {
        KeyTransitive(key(before[k]), key(after[j]), key(after[j + 1]));
      }
    }
  }

  /** The old row comes first, or alone: the new catalog lacks its key. */
  lemma OldLost<T>(before: seq<T>, after: seq<T>, key: T -> RowKey, i: nat, j: nat)
    requires Between(before, after, key, i, j) && i < |before|
    requires j < |after| ==> KeyLess(key(before[i]), key(after[j]))
    ensures forall k | 0 <= k < |after| :: key(after[k]) != key(before[i])
    ensures before[i] !in after
  {
    forall k | 0 <= k < |after| ensures key(after[k]) != key(before[i]) {
      if k < j {
        KeyAsymmetric(key(after[k]), key(before[i]));
      } else {
        if k > j { KeyTransitive(key(before[i]), key(after[j]), key(after[k])); }
        KeyAsymmetric(key(before[i]), key(after[k]));
      }
    }
  }

  /** Merging succeeds exactly when no old row was lost or altered, and finds exactly the added rows. */
  method MergeExtension<T(==)>(before: seq<T>, after: seq<T>, key: T -> RowKey) returns (ok: bool, added: seq<T>)
    requires Rising(before, key) && Rising(after, key)
    ensures ok <==> forall x | x in before :: x in after
    ensures ok ==> added == Added(before, after)
  {
    added := [];
    var i, j := 0, 0;
    while i < |before| || j < |after|
      invariant Between(before, after, key, i, j)
      invariant forall k | 0 <= k < i :: before[k] in after
      invariant added == Added(before, after[..j])
      decreases |before| - i + |after| - j
    {
      if j == |after| {
        OldLost(before, after, key, i, j);
        return false, added;
      }
      AddedStep(before, after, j);
      if i < |before| {
        KeyTotal(key(before[i]), key(after[j]));
        if key(before[i]) == key(after[j]) {
          PassBoth(before, after, key, i, j);
          if before[i] != after[j] { return false, added; }
          i, j := i + 1, j + 1;
          continue;
        }
        if KeyLess(key(before[i]), key(after[j])) {
          OldLost(before, after, key, i, j);
          return false, added;
        }
      }
      PassNew(before, after, key, i, j);
      added := added + [after[j]];
      j := j + 1;
    }
    assert after[..|after|] == after;
    ok := true;
  }
}
