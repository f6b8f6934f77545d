/** Shared vocabulary: 64-bit unsigned identifiers, optional values,
    "missing key reads as zero / empty" lookups and the decimal parsing
    that `ulong.Parse` performs on identifiers. */
module Primitives {

  /** One more than the largest `ulong`. */
  const ULongLimit: int := 0x1_0000_0000_0000_0000

  /** A local object identifier ("anchor"): a C# `ulong`. */
  type Anchor = x: int | 0 <= x < ULongLimit

  datatype Option<+T> = None | Some(value: T)

  /** A count lookup in which an absent key reads as 0. */
  function Count<K>(m: map<K, int>, k: K): int {
    if k in m then m[k] else 0
  }

  /** A list lookup in which an absent key reads as the empty list. */
  function ListOf<K, V>(m: map<K, seq<V>>, k: K): seq<V> {
    if k in m then m[k] else []
  }

  predicate IsDigit(c: char) {
    '0' <= c <= '9'
  }

  predicate AllDigits(s: string) {
    forall k :: 0 <= k < |s| ==> IsDigit(s[k])
  }

  function DigitValue(c: char): nat
    requires IsDigit(c)
  {
    (c as int) - ('0' as int)
  }

  function DigitChar(d: nat): (c: char)
    requires d < 10
    ensures IsDigit(c) && DigitValue(c) == d
  {
    (('0' as int) + d) as char
  }

  /** The number written in decimal by the digit string `s` (most significant digit first). */
  function DecimalValue(s: string): nat
    requires AllDigits(s)
  {
    if s == [] then 0 else DecimalValue(s[..|s| - 1]) * 10 + DigitValue(s[|s| - 1])
  }

  /** `ulong.Parse` on invariant-culture decimal input: one or more ASCII digits
      whose value fits in 64 bits; anything else is a failure (`None`). */
  function ParseULong(s: string): (r: Option<Anchor>)
    ensures r.Some? <==> |s| > 0 && AllDigits(s) && DecimalValue(s) < ULongLimit
    ensures r.Some? ==> r.value == DecimalValue(s)
  {
    if |s| > 0 && AllDigits(s) && DecimalValue(s) < ULongLimit then Some(DecimalValue(s)) else None
  }

  /** The shortest decimal spelling of `n`, the inverse partner of `ParseULong`. */
  function FormatDecimal(n: nat): (s: string)
    ensures |s| > 0 && AllDigits(s)
  {
    if n < 10 then [DigitChar(n)] else FormatDecimal(n / 10) + [DigitChar(n % 10)]
  }

  lemma {:induction false} DecimalValueOfFormat(n: nat)
    ensures DecimalValue(FormatDecimal(n)) == n
  {
    if n >= 10 {
      var s := FormatDecimal(n);
      assert s[..|s| - 1] == FormatDecimal(n / 10);
      DecimalValueOfFormat(n / 10);
    }
  }

  /** Every anchor survives a round trip through its decimal spelling. */
  lemma ParseFormatRoundTrip(a: Anchor)
    ensures ParseULong(FormatDecimal(a)) == Some(a)
  {
    DecimalValueOfFormat(a);
  }
}
