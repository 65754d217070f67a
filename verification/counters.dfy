// Counters: what one arithmetic step writes, and what a whole run of them adds up to.

module Counters {
  import opened ByteStrings
  import opened Doubles
  import opened StoreSpec
  import opened Runs

  /** The value LUA_COUNTER reads from a digit string. */
  lemma ReadsDecimal(n: nat)
    ensures ToNumber(Dec(n)) == Some(ToDouble(n))
  {
    DecValue(n);
  }

  // -------------------------------------------------------------- one increment

  /**
   * INCR writes the double nearest to round(old) + round(delta): within half a unit in the
   * last place of the sum, never below round(old), and itself a double.
   */
  lemma IncrementRounds(old_: nat, delta: nat)
    ensures var sum := ToDouble(old_) + ToDouble(delta);
      var w := Arithmetic(ToDouble(old_), delta, false);
      && IsDouble(w)
      && 2 * Distance(w, sum) <= Ulp(sum)
      && (forall d: nat :: IsDouble(d) ==> Distance(w, sum) <= Distance(d, sum))
      && w >= ToDouble(old_)
  {
    var sum := ToDouble(old_) + ToDouble(delta);
    ToDoubleIsDouble(sum);
    HalfUlp(sum);
    forall d: nat | IsDouble(d) ensures Distance(ToDouble(sum), sum) <= Distance(d, sum) {
      NearestDouble(sum, d);
    }
    ToDoubleIsDouble(old_);
    DoubleExact(ToDouble(old_));
    ToDoubleMono(ToDouble(old_), sum);
  }

  /**
   * DECR writes zero when the delta is larger, else the double nearest to the difference; the
   * result is never above round(old).
   */
  lemma DecrementRounds(old_: nat, delta: nat)
    ensures var x, d := ToDouble(old_), ToDouble(delta);
      var w := Arithmetic(x, delta, true);
      && IsDouble(w) && w <= x
      && (x < d ==> w == 0)
      && (x >= d ==> 2 * Distance(w, x - d) <= Ulp(x - d)
                     && forall e: nat :: IsDouble(e) ==> Distance(w, x - d) <= Distance(e, x - d))
  {
    var x, d := ToDouble(old_), ToDouble(delta);
    ToDoubleIsDouble(old_);
    if x < d {
      assert 0 == Scaled(0, 0);
    } else {
      var diff := x - d;
      ToDoubleIsDouble(diff);
      HalfUlp(diff);
      forall e: nat | IsDouble(e) ensures Distance(ToDouble(diff), diff) <= Distance(e, diff) {
        NearestDouble(diff, e);
      }
      DoubleExact(x);
      ToDoubleMono(diff, x);
    }
  }

  /**
   * No increment lowers a stored number exactly when its bits beyond the 53 that a double
   * keeps are not rounded down: they are zero, more than half a unit, or a tie at an odd
   * quotient.
   */
  lemma NeverDecreasesExactly(old_: nat)
    ensures (forall delta: nat :: Arithmetic(ToDouble(old_), delta, false) >= old_) <==> !RoundsDown(old_)
  {
    hide RoundsDown;
    RoundsDownExactly(old_);
    ToDoubleIsDouble(old_);
    DoubleExact(ToDouble(old_));
    assert ToDouble(0) == 0;
    assert Arithmetic(ToDouble(old_), 0, false) == ToDouble(old_);
    forall delta: nat ensures Arithmetic(ToDouble(old_), delta, false) >= ToDouble(old_) {
      IncrementRounds(old_, delta);
    }
  }

  /** A value stored by a client can shrink: 2^53 + 1 incremented by 0 becomes 2^53. */
  lemma ShrinkingExample()
    ensures Arithmetic(ToDouble(TWO53 + 1), 0, false) == TWO53 < TWO53 + 1
  {
    assert UlpExp(TWO53 + 1) == 1;
    assert Ulp(TWO53 + 1) == 2;
    assert RoundedQuotient(TWO53 + 1, 2) == TWO52;
    ExactUpTo2To53(TWO53);
    assert ToDouble(0) == 0;
  }

  /** Up to 2^53 an increment is exact; a decrement is exact and clamps at zero. */
  lemma SmallArithmetic(x: nat, delta: nat, decr: bool)
    requires x <= TWO53 && (decr || x + delta <= TWO53)
    ensures Arithmetic(ToDouble(x), delta, decr) == Plain(x, delta, decr)
  {
    ExactUpTo2To53(x);
    if delta <= TWO53 {
      ExactUpTo2To53(delta);
      ExactUpTo2To53(Plain(x, delta, decr));
    } else {
      ExactUpTo2To53(TWO53);
      ToDoubleMono(TWO53, delta);
      ExactUpTo2To53(0);
    }
  }

  /** Integer arithmetic with the clamp of DECR. */
  function Plain(x: nat, delta: nat, decr: bool): nat {
    if !decr then x + delta else if x < delta then 0 else x - delta
  }

  // ----------------------------------------------------------------- whole runs

  predicate CountsOn(e: Event, k: Bytes) { e.ECounter? && e.k == k }

  /** The plain value after the first i events, starting from x. */
  function Tally(es: seq<Event>, i: nat, k: Bytes, x: nat): nat
    requires i <= |es|
  {
    if i == 0 then x
    else
      var before := Tally(es, i - 1, k, x);
      if CountsOn(es[i - 1], k) then Plain(before, es[i - 1].delta, es[i - 1].decr) else before
  }

  /** Every step on the way is arithmetic on k or does not change k. */
  predicate OnlyCounting(s: State, es: seq<Event>, k: Bytes) {
    forall m :: 0 <= m < |es| ==> CountsOn(es[m], k) || !Changes(At(s, es, m), es[m], k)
  }

  /** All values on the way stay within the exact range. */
  predicate WithinExact(es: seq<Event>, k: Bytes, x: nat) {
    forall m :: 0 <= m <= |es| ==> Tally(es, m, k, x) <= TWO53
  }

  lemma CountStep(s: State, e: Event, k: Bytes, x: nat)
    requires k in s.items && s.items[k].v == Some(Dec(x)) && CountsOn(e, k)
    requires x <= TWO53 && Plain(x, e.delta, e.decr) <= TWO53
    ensures var y := Plain(x, e.delta, e.decr);
      && k in Step(s, e).s.items && Step(s, e).s.items[k].v == Some(Dec(y))
      && Step(s, e).s.items[k].deadline == s.items[k].deadline
      && Step(s, e).r == Number(Dec(y), Fresh(s))
  {
    hide ToDouble, ToNumber;
    ReadsDecimal(x);
    SmallArithmetic(x, e.delta, e.decr);
  }

  /**
   * No lost updates: whatever the interleaving, the counter holds the plain result of all the
   * arithmetic steps so far, and each reply is the result up to and including its own step.
   */
  lemma {:induction false} NoLostIncrements(s: State, es: seq<Event>, i: nat, k: Bytes, x: nat)
    requires TokenInv(s) && i <= |es|
    requires k in s.items && s.items[k].v == Some(Dec(x))
    requires OnlyCounting(s, es, k) && WithinExact(es, k, x)
    ensures k in At(s, es, i).items && At(s, es, i).items[k].v == Some(Dec(Tally(es, i, k, x)))
    ensures i < |es| && CountsOn(es[i], k) ==>
      ReplyAt(s, es, i) == Number(Dec(Tally(es, i + 1, k, x)), Fresh(At(s, es, i)))
  {
    hide Step, Changes, Plain;
    if i > 0 {
      NoLostIncrements(s, es, i - 1, k, x);
      var t, e := At(s, es, i - 1), es[i - 1];
      assert Tally(es, i, k, x) <= TWO53 && Tally(es, i - 1, k, x) <= TWO53;
      if CountsOn(e, k) {
        CountStep(t, e, k, Tally(es, i - 1, k, x));
      } else {
        RunTokens(s, es, i - 1, i - 1);
        ChangesExactly(t, e, k);
      }
    } else {
      assert Tally(es, 0, k, x) <= TWO53;
    }
    if i < |es| && CountsOn(es[i], k) {
      assert Tally(es, i, k, x) <= TWO53 && Tally(es, i + 1, k, x) <= TWO53;
      CountStep(At(s, es, i), es[i], k, Tally(es, i, k, x));
    }
  }

  function Deltas(es: seq<Event>, i: nat, k: Bytes): nat
    requires i <= |es|
  {
    if i == 0 then 0
    else Deltas(es, i - 1, k) + if CountsOn(es[i - 1], k) then es[i - 1].delta else 0
  }

  /** Without decrements, the result is the initial value plus the sum of the deltas. */
  lemma {:induction false} TallyIsSum(es: seq<Event>, i: nat, k: Bytes, x: nat)
    requires i <= |es|
    requires forall m :: 0 <= m < i && CountsOn(es[m], k) ==> !es[m].decr
    ensures Tally(es, i, k, x) == x + Deltas(es, i, k)
  {
    if i > 0 { TallyIsSum(es, i - 1, k, x); }
  }

  /** The value stored under k, when it is a counter. */
  ghost predicate Holds(s: State, k: Bytes, x: nat) {
    k in s.items && s.items[k].v == Some(Dec(x))
  }

  lemma IncrementStep(s: State, e: Event, k: Bytes, x: nat)
    requires Holds(s, k, x) && CountsOn(e, k) && !e.decr
    ensures exists y: nat :: IsDouble(y) && y >= ToDouble(x) && Holds(Step(s, e).s, k, y)
  {
    hide ToDouble, ToNumber, Arithmetic, IsDouble;
    ReadsDecimal(x);
    IncrementRounds(x, e.delta);
    assert Holds(Step(s, e).s, k, Arithmetic(ToDouble(x), e.delta, false));
  }

  /**
   * Beyond 2^53 increments round, but once a value has been written by counter arithmetic
   * (it is a double) it never decreases along any run of increments.
   */
  lemma {:induction false} NeverDecreasesAlongRuns(s: State, es: seq<Event>, i: nat, k: Bytes, x: nat)
    returns (y: nat)
    requires TokenInv(s) && i <= |es| && Holds(s, k, x) && IsDouble(x)
    requires OnlyCounting(s, es, k)
    requires forall m :: 0 <= m < |es| && CountsOn(es[m], k) ==> !es[m].decr
    ensures IsDouble(y) && y >= x && Holds(At(s, es, i), k, y)
  {
    hide Step, Changes, IsDouble, ToDouble;
    y := x;
    if i > 0 {
      var z := NeverDecreasesAlongRuns(s, es, i - 1, k, x);
      var t, e := At(s, es, i - 1), es[i - 1];
      if CountsOn(e, k) {
        DoubleExact(z);
        IncrementStep(t, e, k, z);
        y :| IsDouble(y) && y >= ToDouble(z) && Holds(Step(t, e).s, k, y);
      } else {
        RunTokens(s, es, i - 1, i - 1);
        ChangesExactly(t, e, k);
        y := z;
      }
    }
  }

  /** The eight-byte body of a binary counter reply. */
  function ReplyBody(text: Bytes): Bytes {
    var n := ParseUint(text, U64_MAX);
    BigEndian(if n.Some? then n.value else 0, 8)
  }

  /** Printing, parsing and encoding lose nothing up to 2^64 - 1; beyond that the reply is 0. */
  lemma ReplyBodyExactly(n: nat)
    ensures FromBigEndian(ReplyBody(Dec(n))) == if n <= U64_MAX then n else 0
  {
    ParseDec(n, U64_MAX);
    assert Pow256(8) == U64_MAX + 1;
    BigEndianRoundTrip(if n <= U64_MAX then n else 0, 8);
  }

  /** The largest 64-bit counter incremented by one: 2^64 is stored, and the reply says 0. */
  lemma OverflowingReply(s: State, k: Bytes)
    requires k in s.items && s.items[k].v == Some(Dec(U64_MAX))
    ensures var o := Counter(s, k, 1, false, NO_CAS, NO_CREATE);
      && o.s.items[k].v == Some(Dec(U64_MAX + 1)) && o.r == Number(Dec(U64_MAX + 1), Fresh(s))
      && FromBigEndian(ReplyBody(o.r.text)) == 0
  {
    hide ToDouble, ToNumber, Dec;
    ReadsDecimal(U64_MAX);
    RoundedAt64();
    ReplyBodyExactly(U64_MAX + 1);
  }

  /** Both 2^64 - 1 and 2^64 + 1 are nearest to 2^64. */
  lemma RoundedAt64()
    ensures ToDouble(1) == 1 && ToDouble(U64_MAX) == U64_MAX + 1 && ToDouble(U64_MAX + 2) == U64_MAX + 1
  {
    Halve(U64_MAX, 11);
    Halve(U64_MAX + 2, 12);
    assert Pow2(11) == 2048 && Pow2(12) == 4096;
  }

  lemma {:induction false} Halve(n: nat, e: nat)
    requires TWO52 * Pow2(e) <= n < TWO53 * Pow2(e)
    ensures UlpExp(n) == e
  {
    if e > 0 { Halve(n / 2, e - 1); }
  }

  /**
   * A missing counter is created from the initial text, unless the expiry is 2^32 - 1, which
   * asks for no creation.
   */
  lemma CreationExactly(s: State, k: Bytes, delta: nat, decr: bool, init: Bytes, exp: nat)
    requires k !in s.items && (exp == 4_294_967_295 || !Stale(exp, s.now))
    ensures Counter(s, k, delta, decr, init, exp)
      == if exp == 4_294_967_295 then Outcome(s, Miss)
         else
           var i := Item(Some(init), Some(Ascii("0")), s.counter + 1, Deadline(exp, s.now));
           Outcome(s.(items := s.items[k := i], counter := s.counter + 1), Number(init, s.counter + 1))
  {
  }
}
