/**
 * Bytes and the decimal renderings the server writes with printf-style
 * conversions (`%hhu`, `%ld`).
 */
module Bytes {

  newtype uint8 = x: int | 0 <= x < 0x100
  newtype uint32 = x: int | 0 <= x < 0x1_0000_0000

  /** The bytes of an ASCII/Latin-1 literal, one byte per character. */
  function Ascii(s: string): (r: seq<uint8>)
    requires forall i | 0 <= i < |s| :: s[i] as int < 0x100
    ensures |r| == |s|
    ensures forall i | 0 <= i < |s| :: r[i] as int == s[i] as int
  {
    seq(|s|, i requires 0 <= i < |s| => s[i] as int as uint8)
  }

  /**
   * The C string stored in `s` (what `strlen`, `strlcpy`, `strcmp` and `%s`
   * read): the bytes before the first NUL, or all of `s` when it has none.
   */
  function CString(s: seq<uint8>): (c: seq<uint8>)
    ensures |c| <= |s| && c == s[..|c|]
    ensures forall i | 0 <= i < |c| :: c[i] != 0
    ensures |c| < |s| ==> s[|c|] == 0
  {
    if s == [] || s[0] == 0 then []
    else
      var rest := CString(s[1..]);
      assert [s[0]] + rest == s[..1 + |rest|];
      [s[0]] + rest
  }

  const ZERO: uint8 := 0x30
  const MINUS: uint8 := 0x2D

  predicate IsDigit(c: uint8) {
    ZERO <= c <= 0x39
  }

  predicate AllDigits(s: seq<uint8>) {
    forall i | 0 <= i < |s| :: IsDigit(s[i])
  }

  /** The numeric value of a string of decimal digits, most significant first. */
  function DecimalValue(s: seq<uint8>): nat
    requires AllDigits(s)
  {
    if s == [] then 0 else DecimalValue(s[..|s| - 1]) * 10 + (s[|s| - 1] - ZERO) as int
  }

  /**
   * The unsigned decimal rendering of `n` (`%u`, `%hhu`): at least one digit,
   * no leading zero, and reading it back gives `n`.
   */
  function Decimal(n: nat): (r: seq<uint8>)
    ensures 1 <= |r| && AllDigits(r)
    ensures r[0] == ZERO ==> n == 0
    ensures DecimalValue(r) == n
  {
    var last := (n % 10) as uint8 + ZERO;
    if n < 10 then [last]
    else
      var r := Decimal(n / 10) + [last];
      assert r[..|r| - 1] == Decimal(n / 10);
      r
  }

  /** The signed decimal rendering of `x` (`%ld`). */
  function SignedDecimal(x: int): (r: seq<uint8>)
    ensures 1 <= |r|
    ensures r[0] == MINUS <==> x < 0
    ensures x >= 0 ==> AllDigits(r) && DecimalValue(r) == x
    ensures x < 0 ==> AllDigits(r[1..]) && DecimalValue(r[1..]) == -x
  {
    if x < 0 then [MINUS] + Decimal(-x) else Decimal(x)
  }

  /** Rendering a byte value takes one to three digits. */
  lemma {:induction false} DecimalOfByteLength(n: nat)
    requires n < 0x100
    ensures 1 <= |Decimal(n)| <= 3
  {
    if n >= 10 {
      if n / 10 >= 10 {
        assert |Decimal(n / 10 / 10)| == 1;
        assert |Decimal(n / 10)| == 2;
      }
    }
  }

  /** Decimal rendering is injective: different numbers never print alike. */
  lemma DecimalInjective(m: nat, n: nat)
    requires Decimal(m) == Decimal(n)
    ensures m == n
  {
  }
}
