// Byte strings, big-endian integers and decimal numerals.
//
// Everything that crosses a wire or is stored in a Redis hash is a sequence of
// bytes.  The lemmas here are the codecs' round trips, used by every other module.

module ByteStrings {

  newtype byte = x: int | 0 <= x < 256

  type Bytes = seq<byte>

  datatype Option<+T> = None | Some(value: T)

  /** The bytes of an ASCII text, so that protocol words can be written as words. */
  function Ascii(s: string): (b: Bytes)
    requires forall i :: 0 <= i < |s| ==> s[i] as int < 128
    ensures |b| == |s| && forall i :: 0 <= i < |s| ==> b[i] as int == s[i] as int
  {
    seq(|s|, i requires 0 <= i < |s| => s[i] as int as byte)
  }

  lemma AsciiInjective(s: string, t: string)
    requires forall i :: 0 <= i < |s| ==> s[i] as int < 128
    requires forall i :: 0 <= i < |t| ==> t[i] as int < 128
    requires Ascii(s) == Ascii(t)
    ensures s == t
  {
  }

  // ---------------------------------------------------------------- big endian

  function Pow256(width: nat): (p: nat)
    ensures p >= 1
  {
    if width == 0 then 1 else 256 * Pow256(width - 1)
  }

  /** The low `width` bytes of n, most significant first (n is truncated, as `as u16`/`as u8` do). */
  function BigEndian(n: nat, width: nat): (b: Bytes)
    ensures |b| == width
  {
    if width == 0 then [] else BigEndian(n / 256, width - 1) + [(n % 256) as byte]
  }

  function FromBigEndian(b: Bytes): nat {
    if b == [] then 0 else FromBigEndian(b[..|b| - 1]) * 256 + b[|b| - 1] as nat
  }

  lemma {:induction false} BigEndianRoundTrip(n: nat, width: nat)
    requires n < Pow256(width)
    ensures FromBigEndian(BigEndian(n, width)) == n
  {
    if width > 0 {
      BigEndianRoundTrip(n / 256, width - 1);
      assert BigEndian(n, width)[..width - 1] == BigEndian(n / 256, width - 1);
    }
  }

  lemma {:induction false} FromBigEndianRoundTrip(b: Bytes)
    ensures FromBigEndian(b) < Pow256(|b|)
    ensures BigEndian(FromBigEndian(b), |b|) == b
  {
    if b != [] {
      FromBigEndianRoundTrip(b[..|b| - 1]);
    }
  }

  // ------------------------------------------------------------------- decimal

  const ZERO: byte := 48
  const PLUS: byte := 43
  const SPACE: byte := 32
  const CR: byte := 13
  const LF: byte := 10

  const U32_MAX: nat := 0xFFFF_FFFF
  const U64_MAX: nat := 0xFFFF_FFFF_FFFF_FFFF

  predicate IsDigit(b: byte) { 48 <= b <= 57 }

  predicate AllDigits(b: Bytes) { forall i :: 0 <= i < |b| ==> IsDigit(b[i]) }

  /** Decimal numeral without leading zeros (`to_string`). */
  function Dec(n: nat): (b: Bytes)
    ensures b != [] && AllDigits(b)
  {
    if n < 10 then [ZERO + n as byte] else Dec(n / 10) + [ZERO + (n % 10) as byte]
  }

  function DigitsValue(b: Bytes): nat
    requires AllDigits(b)
  {
    if b == [] then 0
    else DigitsValue(b[..|b| - 1]) * 10 + (b[|b| - 1] - ZERO) as nat
  }

  /** `str::parse` at an unsigned type with maximum `limit`: one optional `+`, then digits. */
  function ParseUint(b: Bytes, limit: nat): Option<nat> {
    var d := if b != [] && b[0] == PLUS then b[1..] else b;
    if d == [] || !AllDigits(d) || DigitsValue(d) > limit then None
    else Some(DigitsValue(d))
  }

  lemma {:induction false} DecValue(n: nat)
    ensures DigitsValue(Dec(n)) == n
  {
    if n >= 10 {
      DecValue(n / 10);
      assert Dec(n)[..|Dec(n)| - 1] == Dec(n / 10);
    }
  }

  lemma ParseDec(n: nat, limit: nat)
    ensures ParseUint(Dec(n), limit) == if n <= limit then Some(n) else None
  {
    DecValue(n);
    assert IsDigit(Dec(n)[0]);
  }

  lemma DecInjective(a: nat, b: nat)
    requires Dec(a) == Dec(b)
    ensures a == b
  {
    DecValue(a);
    DecValue(b);
  }

  lemma DecZero(n: nat)
    ensures Dec(n) == Ascii("0") <==> n == 0
  {
    assert Dec(0) == Ascii("0");
    if Dec(n) == Ascii("0") { DecInjective(n, 0); }
  }
}
