/** Canonical decimal numbers: bounds are checked on the text, before any conversion. */
module Numbers {
  import opened Bytes
  import opened Model

  const UINT64 := 0x1_0000_0000_0000_0000
  const UINT32 := 0x1_0000_0000
  const INT64 := 0x8000_0000_0000_0000
  const MINUS: Byte := 45
  const MAX_UINT64_TEXT: Str := Digits(UINT64 - 1)
  const MAX_INT64_TEXT: Str := Digits(INT64 - 1)
  const MIN_INT64_TEXT: Str := [MINUS] + Digits(INT64)

  predicate AllDigits(s: Str) {
    forall i | 0 <= i < |s| :: 48 <= s[i] <= 57
  }

  function Digits(n: nat): (s: Str)
    ensures s != [] && AllDigits(s)
  {
    if n < 10 then [48 + n] else Digits(n / 10) + [48 + n % 10]
  }

  function Value(s: Str): nat
    requires AllDigits(s)
  {
    if s == [] then 0 else Value(s[..|s| - 1]) * 10 + (s[|s| - 1] - 48)
  }

  function Pow10(n: nat): (p: nat)
    ensures p >= 1
  {
    if n == 0 then 1 else 10 * Pow10(n - 1)
  }

  lemma {:induction false} ValueDigits(n: nat)
    ensures Value(Digits(n)) == n && (Digits(n)[0] == 48 <==> n == 0) && (n < 10 <==> |Digits(n)| == 1)
  {
    if n < 10 {
      assert Digits(n)[..0] == [];
    } else {
      ValueDigits(n / 10);
      assert Digits(n)[..|Digits(n)| - 1] == Digits(n / 10);
    }
  }

  lemma {:induction false} DigitsValue(s: Str)
    requires AllDigits(s) && s != [] && (|s| == 1 || s[0] != 48)
    ensures Digits(Value(s)) == s && (s[0] != 48 ==> Value(s) > 0)
  {
    var p := s[..|s| - 1];
    if |s| == 1 {
      assert p == [] && s == [s[0]];
    } else {
      DigitsValue(p);
      assert s == p + [s[|s| - 1]];
    }
  }

  lemma Tenfold(a: nat, q: nat)
    ensures a * (10 * q) == 10 * (a * q)
  {}

  lemma {:induction false} ValueFront(s: Str)
    requires AllDigits(s) && s != []
    ensures Value(s) == (s[0] - 48) * Pow10(|s| - 1) + Value(s[1..])
  {
    var p := s[..|s| - 1];
    if |s| == 1 {
      assert p == [] && s[1..] == [];
    } else {
      ValueFront(p);
      var a: nat, b: nat, d: nat, q := s[0] - 48, Value(p[1..]), s[|s| - 1] - 48, Pow10(|s| - 2);
      assert s[1..][..|s| - 2] == p[1..];
      Tenfold(a, q);
      var t := a * q;
      assert Value(p) == t + b && Value(s[1..]) == b * 10 + d && Value(s) == (t + b) * 10 + d;
    }
  }

  lemma {:induction false} ValueBound(s: Str)
    requires AllDigits(s)
    ensures Value(s) < Pow10(|s|)
  {
    if s != [] { ValueBound(s[..|s| - 1]); }
  }

  /** For digit strings of one length the byte order is the numeric order. */
  lemma {:induction false} ValueOrder(a: Str, b: Str)
    requires AllDigits(a) && AllDigits(b) && |a| == |b|
    ensures Less(a, b) <==> Value(a) < Value(b)
  {
    if a != [] {
      ValueOrder(a[1..], b[1..]);
      ValueFront(a);
      ValueFront(b);
      ValueBound(a[1..]);
      ValueBound(b[1..]);
      FrontOrder(a[0] - 48, b[0] - 48, Pow10(|a| - 1), Value(a[1..]), Value(b[1..]));
    }
  }

  lemma AtLeastOnce(k: nat, p: nat)
    requires k >= 1
    ensures k * p >= p
  {
    assert k * p == (k - 1) * p + p;
  }

  lemma FrontOrder(x: nat, y: nat, p: nat, u: nat, v: nat)
    requires u < p && v < p
    ensures x * p + u < y * p + v <==> x < y || (x == y && u < v)
  {
    if x < y {
      AtLeastOnce(y - x, p);
      assert y * p == x * p + (y - x) * p;
    } else if x > y {
      AtLeastOnce(x - y, p);
      assert x * p == y * p + (x - y) * p;
    }
  }

  lemma {:induction false} PowMonotone(m: nat, n: nat)
    requires m <= n
    ensures Pow10(m) <= Pow10(n)
  {
    if m < n { PowMonotone(m, n - 1); }
  }

  /** A longer number without a leading zero is larger. */
  lemma LongerIsLarger(a: Str, b: Str)
    requires AllDigits(a) && AllDigits(b) && |a| < |b| && b[0] != 48
    ensures Value(a) < Value(b)
  {
    ValueBound(a);
    PowMonotone(|a|, |b| - 1);
    ValueFront(b);
    AtLeastOnce(b[0] - 48, Pow10(|b| - 1));
  }

  predicate TextAtMost(s: Str, max: Str) {
    |s| < |max| || (|s| == |max| && AtMost(s, max))
  }

  /** The length-then-bytes comparison with a bound is the numeric one. */
  lemma TextBound(s: Str, max: Str)
    requires AllDigits(s) && AllDigits(max) && s != [] && max != [] && max[0] != 48 && (|s| == 1 || s[0] != 48)
    ensures TextAtMost(s, max) <==> Value(s) <= Value(max)
  {
    if |s| < |max| {
      LongerIsLarger(s, max);
    } else if |s| > |max| {
      LongerIsLarger(max, s);
    } else {
      ValueOrder(s, max);
      ValueOrder(max, s);
      LessTotal(s, max);
    }
  }

  predicate CanonicalUnsigned(s: Str) {
    || s == [48]
    || (s != [] && s[0] != 48 && AllDigits(s) && TextAtMost(s, MAX_UINT64_TEXT))
  }

  predicate CanonicalSigned(s: Str) {
    if CanonicalUnsigned(s) then TextAtMost(s, MAX_INT64_TEXT)
    else |s| >= 2 && s[0] == MINUS && s[1] != 48 && AllDigits(s[1..]) && TextAtMost(s, MIN_INT64_TEXT)
  }

  function ParseUint(s: Str, limit: nat): Option<nat> {
    if CanonicalUnsigned(s) && Value(s) < limit then Some(Value(s)) else None
  }

  function IntText(v: int): Str {
    if v < 0 then [MINUS] + Digits(-v) else Digits(v)
  }

  function ParseInt64(s: Str): Option<int> {
    if !CanonicalSigned(s) then None
    else if s[0] == MINUS then (var v: int := Value(s[1..]); if v <= INT64 then Some(-v) else None)
    else if Value(s) < INT64 then Some(Value(s))
    else None
  }

  lemma {:induction false} UnsignedMeans(s: Str)
    ensures CanonicalUnsigned(s) <==> AllDigits(s) && s != [] && (|s| == 1 || s[0] != 48) && Value(s) < UINT64
  {
    ValueDigits(UINT64 - 1);
    if AllDigits(s) && s != [] && (|s| == 1 || s[0] != 48) {
      TextBound(s, MAX_UINT64_TEXT);
      assert |s| == 1 && s[0] == 48 ==> s == [48];
    }
  }

  /** A number is read from exactly one text, the one it is printed as, and only within its width. */
  lemma ParseUintExact(s: Str, limit: nat, n: nat)
    requires limit <= UINT64
    ensures ParseUint(s, limit) == Some(n) <==> n < limit && s == Digits(n)
  {
    UnsignedMeans(s);
    ValueDigits(n);
    if CanonicalUnsigned(s) { DigitsValue(s); }
  }

  lemma NegativeBound(d: Str)
    requires AllDigits(d) && d != [] && d[0] != 48
    ensures TextAtMost([MINUS] + d, MIN_INT64_TEXT) <==> Value(d) <= INT64
  {
    ValueDigits(INT64);
    assert MIN_INT64_TEXT[1..] == Digits(INT64);
    TextBound(d, MIN_INT64_TEXT[1..]);
    LessPrefix([MINUS], d, MIN_INT64_TEXT[1..]);
    assert [MINUS] + MIN_INT64_TEXT[1..] == MIN_INT64_TEXT;
    assert ([MINUS] + d)[1..] == d;
  }

  lemma ParseInt64Exact(s: Str, v: int)
    ensures ParseInt64(s) == Some(v) <==> -INT64 <= v < INT64 && s == IntText(v)
  {
    if |s| > 0 && s[0] == MINUS { NegativeExact(s, v); } else { PositiveExact(s, v); }
  }

  lemma PositiveExact(s: Str, v: int)
    requires s == [] || s[0] != MINUS
    ensures ParseInt64(s) == Some(v) <==> -INT64 <= v < INT64 && s == IntText(v)
  {
    UnsignedMeans(s);
    if v >= 0 { ValueDigits(v); }
    if CanonicalUnsigned(s) {
      DigitsValue(s);
      ValueDigits(INT64 - 1);
      TextBound(s, MAX_INT64_TEXT);
    }
  }

  lemma NegativeMeans(s: Str)
    requires s != [] && s[0] == MINUS
    ensures CanonicalSigned(s) <==> |s| >= 2 && s[1] != 48 && AllDigits(s[1..]) && Value(s[1..]) <= INT64
  {
    UnsignedMeans(s);
    assert s == [MINUS] + s[1..];
    if |s| >= 2 && s[1] != 48 && AllDigits(s[1..]) { NegativeBound(s[1..]); }
  }

  lemma NegativeValue(s: Str)
    requires s != [] && s[0] == MINUS
    ensures ParseInt64(s).Some? <==> CanonicalSigned(s)
    ensures CanonicalSigned(s) ==> AllDigits(s[1..]) && ParseInt64(s) == Some(0 - Value(s[1..]))
  {
    NegativeMeans(s);
  }

  lemma NegativeExact(s: Str, v: int)
    requires s != [] && s[0] == MINUS
    ensures ParseInt64(s) == Some(v) <==> -INT64 <= v < INT64 && s == IntText(v)
  {
    NegativeMeans(s);
    NegativeValue(s);
    if CanonicalSigned(s) { PrintedNegative(s[1..]); }
    if v < 0 { NegativeText(s[1..], -v); }
    assert s == [MINUS] + s[1..];
  }

  lemma PrintedNegative(d: Str)
    requires AllDigits(d) && d != [] && d[0] != 48
    ensures Value(d) > 0 && Digits(Value(d)) == d && IntText(0 - Value(d)) == [MINUS] + d
  {
    DigitsValue(d);
  }

  lemma NegativeText(d: Str, n: int)
    requires n > 0
    ensures [MINUS] + d == IntText(-n) <==> d == Digits(n)
    ensures Digits(n)[0] != 48 && Value(Digits(n)) == n
  {
    ValueDigits(n);
    assert ([MINUS] + d)[1..] == d && ([MINUS] + Digits(n))[1..] == Digits(n);
  }
}
