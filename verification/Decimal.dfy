/** Decimal text, as strconv.Itoa and the store's own itoa (hub/store/store.go) write it. */
module Decimal {

  const MIN_INT64 := -0x8000_0000_0000_0000
  const MAX_INT64 := 0x7fff_ffff_ffff_ffff

  predicate IsDigit(c: char) {
    '0' <= c <= '9'
  }

  function Digit(d: int): char
    requires 0 <= d < 10
  {
    '0' + d as char
  }

  /** The digits of n without leading zeros; nothing for 0. */
  function Digits(n: nat): string {
    if n == 0 then "" else Digits(n / 10) + [Digit(n % 10)]
  }

  /** strconv.Itoa on lengths. */
  function Natural(n: nat): string {
    if n == 0 then "0" else Digits(n)
  }

  predicate AllDigits(s: string) {
    forall i :: 0 <= i < |s| ==> IsDigit(s[i])
  }

  function Value(s: string): nat
    requires AllDigits(s)
  {
    if s == "" then 0 else 10 * Value(s[..|s| - 1]) + (s[|s| - 1] - '0') as int
  }

  lemma {:induction false} DigitsRoundTrip(n: nat)
    ensures AllDigits(Digits(n)) && Value(Digits(n)) == n
  {
    if n > 0 {
      DigitsRoundTrip(n / 10);
      assert Digits(n)[..|Digits(n)| - 1] == Digits(n / 10);
    }
  }

  lemma NaturalRoundTrip(n: nat)
    ensures Natural(n) != "" && AllDigits(Natural(n)) && Value(Natural(n)) == n
  {
    DigitsRoundTrip(n);
    assert "0"[..0] == "";
  }

  function Pow10(k: nat): nat {
    if k == 0 then 1 else 10 * Pow10(k - 1)
  }

  lemma {:induction false} DigitsLength(n: nat, k: nat)
    requires n < Pow10(k)
    ensures |Digits(n)| <= k
  {
    if n > 0 {
      DigitsLength(n / 10, k - 1);
    }
  }

  lemma Int64FitsIn19Digits(n: nat)
    requires n <= MAX_INT64
    ensures |Digits(n)| <= 19
  {
    assert Pow10(4) == 10_000;
    assert Pow10(8) == 10_000 * Pow10(4);
    assert Pow10(12) == 10_000 * Pow10(8);
    assert Pow10(16) == 10_000 * Pow10(12);
    assert Pow10(19) == 1000 * Pow10(16);
    DigitsLength(n, 19);
  }

  /** Two's-complement negation: the least value is its own negative. */
  function Negate64(n: int): int {
    if n == MIN_INT64 then n else -n
  }

  predicate IsInt64(n: int) {
    MIN_INT64 <= n <= MAX_INT64
  }

  /** The text itoa produces; for the least int64 only the sign remains. */
  function Text(n: int): string {
    if n == 0 then "0"
    else if n == MIN_INT64 then "-"
    else if n < 0 then "-" + Digits(-n)
    else Digits(n)
  }

  method Itoa(n: int) returns (s: string)
    requires IsInt64(n)
    ensures s == Text(n)
  {
    if n == 0 {
      return "0";
    }
    var m := n;
    var neg := m < 0;
    if neg {
      m := Negate64(m);
    }
    var buf := new char[20];
    var i := 20;
    ghost var whole := Positive(m);
    Int64FitsIn19Digits(whole);
    while m > 0
      invariant m > 0 ==> m <= MAX_INT64
      invariant 1 <= i <= 20
      invariant Digits(Positive(m)) + buf[i..] == Digits(whole)
      decreases m
    {
      ghost var done := buf[i..];
      i := i - 1;
      buf[i] := Digit(m % 10);
      assert buf[i..] == [Digit(m % 10)] + done;
      m := m / 10;
    }
    assert buf[i..] == Digits(whole);
    if neg {
      i := i - 1;
      buf[i] := '-';
      assert buf[i..] == "-" + Digits(whole);
    }
    return buf[i..];
  }

  function Positive(m: int): nat {
    if m > 0 then m else 0
  }

  function Parse(s: string): int {
    if s != "" && s[0] == '-' then
      var v: int := if AllDigits(s[1..]) then Value(s[1..]) else 0;
      -v
    else if AllDigits(s) then Value(s) else 0
  }

  /** An int64 reads back exactly when it is not the least. */
  lemma TextRoundTrip(n: int)
    requires IsInt64(n)
    ensures Parse(Text(n)) == n <==> n != MIN_INT64
  {
    if n == MIN_INT64 {
      assert "-"[1..] == "";
    } else if n == 0 {
      assert "0"[..0] == "";
    } else if n < 0 {
      DigitsRoundTrip(-n);
      assert Text(n)[1..] == Digits(-n);
    } else {
      DigitsRoundTrip(n);
      assert IsDigit(Digits(n)[0]);
    }
  }

  lemma TextShape(n: int)
    requires IsInt64(n)
    ensures '|' !in Text(n)
    ensures Text(n) == "-" <==> n == MIN_INT64
  {
    if n > 0 {
      DigitsRoundTrip(n);
    } else if n != 0 && n != MIN_INT64 {
      DigitsRoundTrip(-n);
      assert Digits(-n) != "";
    }
  }

  /** No two int64 values share a text, the least included. */
  lemma TextInjective(a: int, b: int)
    requires IsInt64(a) && IsInt64(b) && Text(a) == Text(b)
    ensures a == b
  {
    TextShape(a);
    TextShape(b);
    if a != MIN_INT64 {
      TextRoundTrip(a);
      TextRoundTrip(b);
    }
  }
}
