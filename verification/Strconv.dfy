/** Go strings and byte slices, and the decimal form strconv gives to integers. */
module Strconv {
  import opened Wrappers

  newtype Byte = b: int | 0 <= b < 256

  const COLON: Byte := 58
  const NEWLINE: Byte := 10
  const MINUS: Byte := 45
  const ZERO: Byte := 48

  /** A Go string or []byte: any bytes at all, ':' and newline included. */
  type Bytes = seq<Byte>

  /** The bytes of an ASCII literal. */
  function Ascii(s: string): Bytes
    requires forall i | 0 <= i < |s| :: s[i] < '\U{80}'
  {
    seq(|s|, i requires 0 <= i < |s| => s[i] as int as Byte)
  }

  function Digit(d: nat): Byte
    requires d < 10
  {
    ZERO + d as Byte
  }

  predicate IsDigit(c: Byte) {
    ZERO <= c <= ZERO + 9
  }

  predicate AllDigits(s: Bytes) {
    forall i | 0 <= i < |s| :: IsDigit(s[i])
  }

  function Decimal(n: nat): Bytes {
    if n < 10 then [Digit(n)] else Decimal(n / 10) + [Digit(n % 10)]
  }

  /** strconv.FormatInt(v, 10) */
  function FormatInt(v: int): Bytes {
    if v < 0 then [MINUS] + Decimal(-v) else Decimal(v)
  }

  /** The value of a digit string read from the left. */
  function DecimalValue(s: Bytes): nat
    requires AllDigits(s)
  {
    if s == [] then 0
    else 10 * DecimalValue(s[..|s| - 1]) + (s[|s| - 1] - ZERO) as int
  }

  lemma {:induction false} DecimalRoundTrip(n: nat)
    ensures Decimal(n) != [] && AllDigits(Decimal(n))
    ensures DecimalValue(Decimal(n)) == n
  {
    if n < 10 {
      assert Decimal(n)[..0] == [];
    } else {
      DecimalRoundTrip(n / 10);
      assert Decimal(n)[..|Decimal(n)| - 1] == Decimal(n / 10);
    }
  }

  /** Reads an integer printed by FormatInt, and rejects every other spelling
      (a leading zero, a sign on zero, an empty string). */
  function ParseInt(s: Bytes): Option<int> {
    var negative := s != [] && s[0] == MINUS;
    var digits := if negative then s[1..] else s;
    if !AllDigits(digits) then None
    else
      var magnitude: int := DecimalValue(digits);
      var v := if negative then -magnitude else magnitude;
      if FormatInt(v) == s then Some(v) else None
  }

  /** ParseInt is the exact inverse of FormatInt, so FormatInt is injective. */
  lemma ParseIntExact(s: Bytes, v: int)
    ensures ParseInt(s) == Some(v) <==> s == FormatInt(v)
  {
    if s == FormatInt(v) {
      if v < 0 {
        DecimalRoundTrip(-v);
        assert s[1..] == Decimal(-v);
      } else {
        DecimalRoundTrip(v);
        assert IsDigit(s[0]);
      }
    }
  }
}
