// Binary-safe values: what GET returns after a SET and any appends and prepends.

module Values {
  import opened ByteStrings
  import opened StoreSpec
  import opened Runs
  import opened RedisScripts
  import opened Hex

  predicate ExtendsKey(e: Event, k: Bytes) { e.EExtend? && e.k == k }

  /** A step that succeeded in appending or prepending to k. */
  predicate Extended(s: State, es: seq<Event>, m: nat, k: Bytes)
    requires m < |es|
  {
    ExtendsKey(es[m], k) && ReplyAt(s, es, m).Done?
  }

  /** The prepended pieces, the latest first. */
  function Prefixes(s: State, es: seq<Event>, i: nat, k: Bytes): Bytes
    requires i <= |es|
  {
    if i == 0 then []
    else
      var before := Prefixes(s, es, i - 1, k);
      if Extended(s, es, i - 1, k) && es[i - 1].prepend then es[i - 1].data + before else before
  }

  /** The appended pieces, in order. */
  function Suffixes(s: State, es: seq<Event>, i: nat, k: Bytes): Bytes
    requires i <= |es|
  {
    if i == 0 then []
    else
      var before := Suffixes(s, es, i - 1, k);
      if Extended(s, es, i - 1, k) && !es[i - 1].prepend then before + es[i - 1].data else before
  }

  /** Every step is an append or prepend on k (which may be refused), or does not change k. */
  predicate OnlyExtending(s: State, es: seq<Event>, k: Bytes) {
    forall m :: 0 <= m < |es| ==> ExtendsKey(es[m], k) || !Changes(At(s, es, m), es[m], k)
  }

  lemma ExtendStep(s: State, e: Event, k: Bytes, v: Bytes, f: Bytes)
    requires ExtendsKey(e, k) && k in s.items && s.items[k].v == Some(v) && s.items[k].f == Some(f)
    ensures var s' := Step(s, e).s;
      k in s'.items && s'.items[k].f == Some(f)
      && s'.items[k].v == Some(if !Step(s, e).r.Done? then v
                               else if e.prepend then e.data + v else v + e.data)
  {
  }

  /** The stored value is prefixes + v + suffixes, byte for byte, in every interleaving. */
  lemma {:induction false} ValueOverRun(s: State, es: seq<Event>, i: nat, k: Bytes, v: Bytes, f: Bytes)
    requires TokenInv(s) && i <= |es|
    requires k in s.items && s.items[k].v == Some(v) && s.items[k].f == Some(f)
    requires OnlyExtending(s, es, k)
    ensures k in At(s, es, i).items && At(s, es, i).items[k].f == Some(f)
    ensures At(s, es, i).items[k].v == Some(Prefixes(s, es, i, k) + v + Suffixes(s, es, i, k))
  {
    hide Step, Changes;
    if i == 0 {
      assert [] + v + [] == v;
    } else {
      ValueOverRun(s, es, i - 1, k, v, f);
      var t, e := At(s, es, i - 1), es[i - 1];
      var p, q := Prefixes(s, es, i - 1, k), Suffixes(s, es, i - 1, k);
      if ExtendsKey(e, k) {
        ExtendStep(t, e, k, p + v + q, f);
        assert e.data + (p + v + q) == (e.data + p) + v + q;
        assert (p + v + q) + e.data == p + v + (q + e.data);
      } else {
        RunTokens(s, es, i - 1, i - 1);
        ChangesExactly(t, e, k);
      }
    }
  }

  /** SET followed by appends and prepends, then GET: the reply is the concatenation. */
  lemma SetThenExtend(s: State, es: seq<Event>, k: Bytes, v: Bytes, f: Bytes, exp: nat)
    requires TokenInv(s) && !Stale(exp, s.now)
    requires OnlyExtending(Store(s, StoreOp.Set, k, v, f, NO_CAS, exp).s, es, k)
    ensures var t := Store(s, StoreOp.Set, k, v, f, NO_CAS, exp).s;
      var r := Get(At(t, es, |es|), k).r;
      r.Hit? && r.f == f && r.v == Prefixes(t, es, |es|, k) + v + Suffixes(t, es, |es|, k)
  {
    var t := Store(s, StoreOp.Set, k, v, f, NO_CAS, exp).s;
    StepTokens(s, EStore(StoreOp.Set, k, v, f, NO_CAS, exp));
    ValueOverRun(t, es, |es|, k, v, f);
  }

  /** What the front ends do with LUA_GET's reply: decode the hex text. */
  method FetchValue(redis: Redis, k: Bytes) returns (found: bool, v: Bytes, f: Bytes)
    requires redis.Valid() && IsItemKey(k)
    ensures match Get(redis.Abs, k).r
            case Hit(v', f', _) => found && v == v' && f == f'
            case _ => !found
  {
    var hex, c;
    found, hex, f, c := redis.LuaGet(k);
    v := HexDecode(hex);
    if found { HexRoundTrip(Get(redis.Abs, k).r.v); }
  }
}
