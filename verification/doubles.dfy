// Lua 5.1 numbers, as far as the scripts use them: non-negative integers held in
// IEEE 754 doubles, their rounding (IEEE 754-2008 section 4.3.1, ties to even)
// and their text (`tostring`, i.e. `%.14g`).

module Doubles {
  import opened ByteStrings

  const TWO52: nat := 0x10_0000_0000_0000
  const TWO53: nat := 0x20_0000_0000_0000

  function Pow2(e: nat): (p: nat)
    ensures p >= 1
  {
    if e == 0 then 1 else 2 * Pow2(e - 1)
  }

  /** A double: a significand of at most 53 bits, scaled by a power of two. */
  function Scaled(m: nat, e: nat): nat { m * Pow2(e) }

  ghost predicate IsDouble(n: nat) {
    exists m: nat, e: nat :: m <= TWO53 && n == Scaled(m, e)
  }

  /** Exponent of the unit in the last place of n. */
  function UlpExp(n: nat): nat {
    if n < TWO53 then 0 else 1 + UlpExp(n / 2)
  }

  function Ulp(n: nat): nat { Pow2(UlpExp(n)) }

  /** n / u rounded to the nearest integer, to the even one on a tie. */
  function RoundedQuotient(n: nat, u: nat): nat
    requires u > 0
  {
    var q, r := n / u, n % u;
    if 2 * r < u || (2 * r == u && q % 2 == 0) then q else q + 1
  }

  /** The multiple of u nearest to n. */
  function RoundTo(n: nat, u: nat): nat
    requires u > 0
  {
    RoundedQuotient(n, u) * u
  }

  /** Conversion of an integer to the nearest double. */
  function ToDouble(n: nat): nat { RoundTo(n, Ulp(n)) }

  function Distance(a: nat, b: nat): nat { if a < b then b - a else a - b }

  // ------------------------------------------------------------------ binades

  lemma {:induction false} Pow2Mono(a: nat, b: nat)
    requires a <= b
    ensures Pow2(a) <= Pow2(b)
    ensures a < b ==> 2 * Pow2(a) <= Pow2(b)
  {
    if a < b { Pow2Mono(a, b - 1); }
  }

  lemma {:induction false} Pow2Divides(a: nat, b: nat)
    requires a <= b
    ensures exists k: nat :: Pow2(b) == k * Pow2(a)
  {
    if a == b {
      assert Pow2(b) == 1 * Pow2(a);
    } else {
      Pow2Divides(a, b - 1);
      var k: nat :| Pow2(b - 1) == k * Pow2(a);
      assert Pow2(b) == (2 * k) * Pow2(a);
    }
  }

  lemma {:induction false} UlpBinade(n: nat)
    requires n >= TWO52
    ensures TWO52 * Ulp(n) <= n < TWO53 * Ulp(n)
  {
    if n >= TWO53 {
      UlpBinade(n / 2);
      assert Ulp(n) == 2 * Ulp(n / 2);
    }
  }

  lemma {:induction false} UlpExpMono(a: nat, b: nat)
    requires a <= b
    ensures UlpExp(a) <= UlpExp(b)
  {
    if a >= TWO53 { UlpExpMono(a / 2, b / 2); }
  }

  // ----------------------------------------------------------------- rounding

  lemma Quotient(n: nat, u: nat)
    requires u > 0
    ensures n == (n / u) * u + n % u && 0 <= n % u < u
  {
  }

  lemma MulMono(a: nat, b: nat, u: nat)
    requires a <= b
    ensures a * u <= b * u
  {
  }

  /** No multiple of u is nearer to n than RoundTo(n, u), which is at most u/2 away. */
  lemma RoundToNearest(n: nat, u: nat, k: nat)
    requires u > 0
    ensures Distance(RoundTo(n, u), n) <= Distance(k * u, n)
    ensures 2 * Distance(RoundTo(n, u), n) <= u
  {
    var q := n / u;
    Quotient(n, u);
    assert (q + 1) * u == q * u + u;
    if k <= q {
      MulMono(k, q, u);
    } else {
      MulMono(q + 1, k, u);
    }
  }

  lemma RoundToMono(a: nat, b: nat, u: nat)
    requires u > 0 && a <= b
    ensures RoundTo(a, u) <= RoundTo(b, u)
  {
    var qa, qb := a / u, b / u;
    Quotient(a, u);
    Quotient(b, u);
    assert (qa + 1) * u == qa * u + u;
    assert (qb + 1) * u == qb * u + u;
    if qa < qb {
      MulMono(qa + 1, qb, u);
    } else if qa > qb {
      MulMono(qb + 1, qa, u);
    }
  }

  /** Rounding stays inside the closed binade. */
  lemma RoundToBinade(n: nat)
    requires n >= TWO53
    ensures TWO52 * Ulp(n) <= ToDouble(n) <= TWO53 * Ulp(n)
    ensures exists m: nat :: m <= TWO53 && ToDouble(n) == m * Ulp(n)
  {
    UlpBinade(n);
    var u := Ulp(n);
    var q := n / u;
    Quotient(n, u);
    assert (q + 1) * u == q * u + u;
    if q < TWO52 { MulMono(q + 1, TWO52, u); }
    if q >= TWO53 { MulMono(TWO53, q, u); }
    assert TWO52 <= q < TWO53;
    MulMono(TWO52, q, u);
    MulMono(q + 1, TWO53, u);
    MulMono(q, q + 1, u);
    assert ToDouble(n) == q * u || ToDouble(n) == (q + 1) * u;
  }

  lemma SmallExact(n: nat)
    requires n < TWO53
    ensures ToDouble(n) == n && Ulp(n) == 1
  {
  }

  lemma ToDoubleIsDouble(n: nat)
    ensures IsDouble(ToDouble(n))
  {
    if n < TWO53 {
      assert ToDouble(n) == Scaled(n, 0);
    } else {
      RoundToBinade(n);
      var m: nat :| m <= TWO53 && ToDouble(n) == m * Ulp(n);
      assert ToDouble(n) == Scaled(m, UlpExp(n));
    }
  }

  /** ToDouble(n) is a double, and no double is nearer to n. */
  lemma NearestDouble(n: nat, d: nat)
    requires IsDouble(d)
    ensures IsDouble(ToDouble(n))
    ensures Distance(ToDouble(n), n) <= Distance(d, n)
  {
    ToDoubleIsDouble(n);
    if n >= TWO53 {
      var m: nat, e: nat :| m <= TWO53 && d == Scaled(m, e);
      var u := Ulp(n);
      UlpBinade(n);
      if e >= UlpExp(n) {
        Pow2Divides(UlpExp(n), e);
        var k: nat :| Pow2(e) == k * u;
        assert d == (m * k) * u by { MulAssoc(m, k, u); }
        RoundToNearest(n, u, m * k);
      } else {
        Pow2Mono(e, UlpExp(n));
        BelowBinade(m, Pow2(e), u);
        RoundToNearest(n, u, TWO52);
      }
    }
  }

  lemma MulAssoc(a: nat, b: nat, c: nat)
    ensures a * (b * c) == (a * b) * c
  {
  }

  lemma BelowBinade(m: nat, p: nat, u: nat)
    requires m <= TWO53 && 2 * p <= u
    ensures m * p <= TWO52 * u
  {
  }

  /** A tie goes to the even significand. */
  lemma TiesToEven(n: nat)
    requires 2 * (n % Ulp(n)) == Ulp(n)
    ensures Distance(ToDouble(n), n) == Ulp(n) - n % Ulp(n)
    ensures (ToDouble(n) / Ulp(n)) % 2 == 0
  {
    var u := Ulp(n);
    var q := n / u;
    Quotient(n, u);
    assert (q + 1) * u == q * u + u;
    if q % 2 == 0 {
      MultipleQuotient(q, u);
    } else {
      MultipleQuotient(q + 1, u);
    }
  }

  lemma MultipleQuotient(q: nat, u: nat)
    requires u > 0
    ensures (q * u) / u == q
  {
    var k := (q * u) / u;
    Quotient(q * u, u);
    assert (k + 1) * u == k * u + u;
    assert (q + 1) * u == q * u + u;
    if k < q { MulMono(k + 1, q, u); }
    if k > q { MulMono(q + 1, k, u); }
  }

  lemma DoubleExact(d: nat)
    requires IsDouble(d)
    ensures ToDouble(d) == d
  {
    NearestDouble(d, d);
  }

  lemma ToDoubleMono(a: nat, b: nat)
    requires a <= b
    ensures ToDouble(a) <= ToDouble(b)
  {
    UlpExpMono(a, b);
    if UlpExp(a) == UlpExp(b) {
      RoundToMono(a, b, Ulp(a));
    } else {
      Pow2Mono(UlpExp(a), UlpExp(b));
      assert b >= TWO53;
      RoundToBinade(b);
      if a >= TWO53 {
        RoundToBinade(a);
      } else {
        SmallExact(a);
      }
      assert ToDouble(a) <= TWO53 * Ulp(a) <= TWO52 * Ulp(b) <= ToDouble(b);
    }
  }

  /** The bits of n beyond 53 are lost downwards: under half a unit, or a tie at an even quotient. */
  predicate RoundsDown(n: nat) {
    var u := Ulp(n);
    n % u != 0 && (2 * (n % u) < u || (2 * (n % u) == u && (n / u) % 2 == 0))
  }

  lemma RoundsDownExactly(n: nat)
    ensures ToDouble(n) < n <==> RoundsDown(n)
  {
    var u, q := Ulp(n), n / Ulp(n);
    Quotient(n, u);
    assert (q + 1) * u == q * u + u;
  }

  /** Rounding error of one conversion: half a unit in the last place. */
  lemma HalfUlp(n: nat)
    ensures 2 * Distance(ToDouble(n), n) <= Ulp(n)
  {
  }

  lemma ExactUpTo2To53(n: nat)
    requires n <= TWO53
    ensures ToDouble(n) == n
  {
  }

  // ------------------------------------------------------- tostring (`%.14g`)

  /** Integers below this print as plain decimals; from here on 14 digits are kept. */
  const LUA_EXACT: nat := 100_000_000_000_000

  function Digits(n: nat): (d: nat)
    ensures d >= 1
  {
    if n < 10 then 1 else 1 + Digits(n / 10)
  }

  function Pow10(e: nat): (p: nat)
    ensures p >= 1
  {
    if e == 0 then 1 else 10 * Pow10(e - 1)
  }

  function StripZeros(b: Bytes): (r: Bytes)
    ensures |r| <= |b|
  {
    if b != [] && b[|b| - 1] == ZERO then StripZeros(b[..|b| - 1]) else b
  }

  function Leading14(n: nat): nat
    requires Digits(n) >= 15
  {
    RoundedQuotient(n, Pow10(Digits(n) - 14))
  }

  function Mantissa(q: nat): Bytes {
    var m := Dec(q);
    var frac := StripZeros(m[1..]);
    m[..1] + (if frac == [] then [] else Ascii(".") + frac)
  }

  function Exponent(e: nat): Bytes { Ascii("e+") + Dec(e) }

  /** `%.14g` of an integer-valued double of at least 15 digits: d.ddde+XX, zeros stripped. */
  function Scientific(n: nat): Bytes
    requires Digits(n) >= 15
  {
    var q := Leading14(n);
    Mantissa(q) + Exponent(Digits(n) - 14 + Digits(q) - 1)
  }

  lemma {:induction false} DigitsMono(a: nat, b: nat)
    requires a <= b
    ensures Digits(a) <= Digits(b)
  {
    if a >= 10 { DigitsMono(a / 10, b / 10); }
  }

  /** `tostring(n)` for the integer reply n of INCR. */
  function LuaText(n: nat): Bytes {
    var d := ToDouble(n);
    if d < LUA_EXACT then Dec(d)
    else
      DigitsMono(LUA_EXACT, d);
      Scientific(d)
  }

  lemma LuaTextExact(n: nat)
    requires n < LUA_EXACT
    ensures LuaText(n) == Dec(n)
  {
  }

  lemma ScientificIsNotDecimal(n: nat)
    requires Digits(n) >= 15
    ensures !AllDigits(Scientific(n))
  {
    hide Digits, Leading14, Mantissa;
    var q := Leading14(n);
    HasExponent(Mantissa(q), Digits(n) - 14 + Digits(q) - 1);
  }

  lemma HasExponent(head: Bytes, e: nat)
    ensures !AllDigits(head + Exponent(e))
  {
    assert Ascii("e+")[0] == 101;
    assert Exponent(e)[0] == 101;
    assert (head + Exponent(e))[|head|] == 101;
  }

  /** The first collision: the counter values 10^14 and 10^14 + 1 have the same text. */
  lemma {:induction false} DecPower(e: nat)
    ensures |Dec(Pow10(e))| == e + 1 && Dec(Pow10(e))[0] == 49
    ensures forall i :: 0 < i <= e ==> Dec(Pow10(e))[i] == ZERO
  {
    if e > 0 {
      DecPower(e - 1);
      assert Dec(Pow10(e)) == Dec(Pow10(e - 1)) + [ZERO];
    }
  }

  lemma {:induction false} OnlyZeros(b: Bytes)
    requires forall i :: 0 <= i < |b| ==> b[i] == ZERO
    ensures StripZeros(b) == []
  {
    if b != [] { OnlyZeros(b[..|b| - 1]); }
  }

  /** The first token in scientific notation. */
  lemma ScientificExample()
    ensures LuaText(LUA_EXACT) == Ascii("1e+14")
  {
    SmallExact(LUA_EXACT);
    assert Digits(100_000_000_000_000) == 15;
    assert Pow10(1) == 10;
    assert Leading14(LUA_EXACT) == 10_000_000_000_000;
    assert Digits(10_000_000_000_000) == 14;
    assert Pow10(13) == 10_000_000_000_000 by { assert Pow10(6) == 1_000_000; }
    DecPower(13);
    OnlyZeros(Dec(10_000_000_000_000)[1..]);
    assert Mantissa(10_000_000_000_000) == [49];
    assert Dec(14) == [49, 52];
    assert Exponent(14) == Ascii("e+14");
  }

  lemma FirstCollision()
    ensures LuaText(LUA_EXACT) == LuaText(LUA_EXACT + 1)
  {
    var n := LUA_EXACT;
    SmallExact(n);
    SmallExact(n + 1);
    assert Digits(100_000_000_000_000) == 15;
    assert Digits(100_000_000_000_001) == 15;
    assert Pow10(1) == 10;
    assert RoundedQuotient(n, 10) == RoundedQuotient(n + 1, 10);
  }

  /**
   * Counter values 1..limit have pairwise different texts exactly when limit is
   * at most 10^14: the range in which CAS tokens identify a version.
   */
  lemma TokensDistinctExactly(limit: nat)
    ensures (forall a, b: nat :: 1 <= a < b <= limit ==> LuaText(a) != LuaText(b))
            <==> limit <= LUA_EXACT
  {
    if limit > LUA_EXACT {
      FirstCollision();
    } else {
      forall a, b: nat | 1 <= a < b <= limit ensures LuaText(a) != LuaText(b) {
        LuaTextExact(a);
        if b < LUA_EXACT {
          LuaTextExact(b);
          if Dec(a) == Dec(b) { DecInjective(a, b); }
        } else {
          SmallExact(b);
          DigitsMono(LUA_EXACT, b);
          ScientificIsNotDecimal(b);
        }
      }
    }
  }
}
