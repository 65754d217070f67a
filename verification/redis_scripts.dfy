// The Lua scripts, statement by statement, over the Redis commands they call.
//
// `Redis` is the keyspace the scripts mutate: hashes and integers in one map, a
// separate table of expiry times, and the clock.  Keys whose time has come stay in the
// map until something touches them, as in Redis.  Every script is proved to be the
// step `StoreSpec` gives for it and to leave every key outside the module alone.

module RedisScripts {
  import opened ByteStrings
  import opened Doubles
  import opened StoreSpec
  import opened Hex

  const KEY_PREFIX: Bytes := Ascii("rc:")
  const COUNTER_KEY: Bytes := Ascii("redcouch:sys:cas_counter")

  /** The namespaced Redis key of a client key. */
  function MakeRedisKey(client: Bytes): Bytes { KEY_PREFIX + client }

  predicate IsItemKey(k: Bytes) { KEY_PREFIX <= k }

  /** Client keys map injectively into the item namespace, which excludes the counter. */
  lemma NamespaceIsolated(a: Bytes, b: Bytes)
    ensures IsItemKey(MakeRedisKey(a))
    ensures MakeRedisKey(a) == MakeRedisKey(b) ==> a == b
    ensures !IsItemKey(COUNTER_KEY) && MakeRedisKey(a) != COUNTER_KEY
  {
    assert MakeRedisKey(a)[3..] == a && MakeRedisKey(b)[3..] == b;
    assert COUNTER_KEY[1] as int == 'e' as int && KEY_PREFIX[1] as int == 'c' as int;
  }

  lemma CounterKeyOutside()
    ensures !IsItemKey(COUNTER_KEY)
  {
    NamespaceIsolated([], []);
  }

  datatype Obj =
    | Hash(v: Option<Bytes>, f: Option<Bytes>, c: nat)
    | Integer(n: nat)
    | Other(id: int)

  // Two writes to one key, and a write after a removal, leave the last write.
  lemma Overwrite<K, V>(m: map<K, V>, k: K, a: V, b: V)
    ensures m[k := a][k := b] == m[k := b]
    ensures (m - {k})[k := b] == m[k := b]
    ensures m[k := a] - {k} == m - {k}
    ensures m[k := a][k] == a
  {
  }

  type Keyspace = map<Bytes, Obj>

  predicate Typed(data: Keyspace) {
    && (forall k :: k in data && IsItemKey(k) ==> data[k].Hash?)
    && (COUNTER_KEY in data ==> data[COUNTER_KEY].Integer?)
  }

  predicate Live(data: Keyspace, expires: map<Bytes, nat>, now: nat, k: Bytes) {
    k in data && (k in expires ==> now < expires[k])
  }

  function ItemAt(data: Keyspace, expires: map<Bytes, nat>, k: Bytes): Item
    requires k in data && data[k].Hash?
  {
    Item(data[k].v, data[k].f, data[k].c, if k in expires then Some(expires[k]) else None)
  }

  function Items(data: Keyspace, expires: map<Bytes, nat>, now: nat): map<Bytes, Item>
    requires Typed(data)
  {
    map k | k in data && IsItemKey(k) && Live(data, expires, now, k) :: ItemAt(data, expires, k)
  }

  function Abstraction(data: Keyspace, expires: map<Bytes, nat>, now: nat): State
    requires Typed(data)
  {
    State(Items(data, expires, now), if COUNTER_KEY in data then data[COUNTER_KEY].n else 0, now)
  }

  function ForeignKeys(data: Keyspace, expires: map<Bytes, nat>): map<Bytes, (Obj, Option<nat>)> {
    map k | k in data && !IsItemKey(k) && k != COUNTER_KEY ::
      (data[k], if k in expires then Some(expires[k]) else None)
  }

  /** Two maps agree on every key but k. */
  ghost predicate SameElsewhere<V>(m: map<Bytes, V>, m': map<Bytes, V>, k: Bytes) {
    forall x :: x != k ==> (x in m' <==> x in m) && (x in m && x in m' ==> m'[x] == m[x])
  }

  lemma Elsewhere<V>(m: map<Bytes, V>, m': map<Bytes, V>, k: Bytes)
    requires m' - {k} == m - {k}
    ensures SameElsewhere(m, m', k)
  {
    forall x | x != k ensures (x in m' <==> x in m) && (x in m && x in m' ==> m'[x] == m[x]) {
      assert x in m' - {k} <==> x in m';
      assert x in m - {k} <==> x in m;
    }
  }

  // Changing the hash or the expiry of one item changes that item only.
  lemma OneItem(data: Keyspace, expires: map<Bytes, nat>, now: nat,
                data': Keyspace, expires': map<Bytes, nat>, k: Bytes)
    requires Typed(data) && IsItemKey(k)
    requires k in data' && data'[k].Hash? && Live(data', expires', now, k)
    requires data' - {k} == data - {k} && expires' - {k} == expires - {k}
    ensures Typed(data') && ForeignKeys(data', expires') == ForeignKeys(data, expires)
    ensures Items(data', expires', now) == Items(data, expires, now)[k := ItemAt(data', expires', k)]
    ensures Abstraction(data', expires', now).counter == Abstraction(data, expires, now).counter
  {
    hide ForeignKeys, Items, SameElsewhere;
    Elsewhere(data, data', k);
    Elsewhere(expires, expires', k);
    KeysElsewhere(data, expires, data', expires', k);
    ItemsElsewhere(data, expires, now, data', expires', k);
  }

  lemma KeysElsewhere(data: Keyspace, expires: map<Bytes, nat>,
                      data': Keyspace, expires': map<Bytes, nat>, k: Bytes)
    requires Typed(data) && IsItemKey(k) && (k in data' ==> data'[k].Hash?)
    requires SameElsewhere(data, data', k) && SameElsewhere(expires, expires', k)
    ensures Typed(data') && ForeignKeys(data', expires') == ForeignKeys(data, expires)
    ensures COUNTER_KEY in data' <==> COUNTER_KEY in data
    ensures COUNTER_KEY in data ==> data'[COUNTER_KEY] == data[COUNTER_KEY]
  {
    CounterKeyOutside();
    hide IsItemKey;
  }

  lemma ItemsElsewhere(data: Keyspace, expires: map<Bytes, nat>, now: nat,
                       data': Keyspace, expires': map<Bytes, nat>, k: Bytes)
    requires Typed(data) && Typed(data') && IsItemKey(k)
    requires k in data' && Live(data', expires', now, k)
    requires SameElsewhere(data, data', k) && SameElsewhere(expires, expires', k)
    ensures Items(data', expires', now) == Items(data, expires, now)[k := ItemAt(data', expires', k)]
  {
    hide IsItemKey;
  }

  lemma ItemsWithout(data: Keyspace, expires: map<Bytes, nat>, now: nat, k: Bytes)
    requires Typed(data) && IsItemKey(k)
    ensures Typed(data - {k}) && Items(data - {k}, expires - {k}, now) == Items(data, expires, now) - {k}
    ensures ForeignKeys(data - {k}, expires - {k}) == ForeignKeys(data, expires)
    ensures Abstraction(data - {k}, expires - {k}, now).counter == Abstraction(data, expires, now).counter
  {
    hide IsItemKey;
  }

  function Flat(batches: seq<seq<Bytes>>): seq<Bytes> {
    if batches == [] then [] else Flat(batches[..|batches| - 1]) + batches[|batches| - 1]
  }

  predicate AllItemKeys(keys: seq<Bytes>) { forall i :: 0 <= i < |keys| ==> IsItemKey(keys[i]) }

  function KeySet(keys: seq<Bytes>): set<Bytes> { set i | 0 <= i < |keys| :: keys[i] }

  class Redis {
    var data: map<Bytes, Obj>
    var expires: map<Bytes, nat>
    var now: nat

    /** The abstract store, and the keys that are neither items nor the counter. */
    ghost var Abs: State
    ghost var Foreign: map<Bytes, (Obj, Option<nat>)>

    ghost predicate Valid()
      reads this
    {
      Typed(data) && Abs == Abstraction(data, expires, now) && Foreign == ForeignKeys(data, expires)
    }

    predicate Alive(k: Bytes)
      reads this
    {
      Live(data, expires, now, k)
    }

    constructor (time: nat)
      ensures Valid() && Abs == State(map[], 0, time)
    {
      data, expires, now := map[], map[], time;
      Abs, Foreign := State(map[], 0, time), map[];
    }

    // ------------------------------------------------------- Redis commands

    method Exists(k: Bytes) returns (b: bool)
      requires Valid() && IsItemKey(k)
      ensures b <==> k in Abs.items
    {
      b := Alive(k);
    }

    method Incr() returns (n: nat)
      requires Valid()
      modifies this
      ensures Valid() && Foreign == old(Foreign)
      ensures n == old(Abs).counter + 1
      ensures Abs == old(Abs).(counter := n)
    {
      CounterKeyOutside();
      n := (if COUNTER_KEY in data then data[COUNTER_KEY].n else 0) + 1;
      data := data[COUNTER_KEY := Integer(n)];
      Abs := Abs.(counter := n);
      assert Items(data, expires, now) == old(Items(data, expires, now));
    }

    /** Replaces the hash at k; an expired key starts afresh, without its old deadline. */
    method Put(k: Bytes, h: Obj)
      requires Valid() && IsItemKey(k) && h.Hash?
      modifies this
      ensures Valid() && Foreign == old(Foreign)
      ensures
        var was := old(Abs);
        var d := if k in was.items then was.items[k].deadline else None;
        Abs == was.(items := was.items[k := Item(h.v, h.f, h.c, d)])
    {
      hide Items, ForeignKeys;
      ghost var d := if Alive(k) && k in expires then Some(expires[k]) else None;
      ItemShape(k);
      ghost var was := Abs;
      if !Alive(k) {
        expires := expires - {k};
      }
      data := data[k := h];
      OneItem(old(data), old(expires), now, data, expires, k);
      Abs := was.(items := was.items[k := Item(h.v, h.f, h.c, d)]);
    }

    lemma ItemShape(k: Bytes)
      requires Valid() && IsItemKey(k)
      ensures k in Abs.items <==> Alive(k)
      ensures Alive(k) ==> data[k].Hash? && Abs.items[k] == ItemAt(data, expires, k)
    {
    }

    /** HSET with fields c and, when given, v and f. */
    method HSet(k: Bytes, v: Option<Bytes>, f: Option<Bytes>, c: nat)
      requires Valid() && IsItemKey(k)
      modifies this
      ensures Valid() && Foreign == old(Foreign)
      ensures
        var was := old(Abs);
        var i := if k in was.items
                 then was.items[k].(v := if v.Some? then v else was.items[k].v,
                                    f := if f.Some? then f else was.items[k].f, cas := c)
                 else Item(v, f, c, None);
        Abs == was.(items := was.items[k := i])
    {
      var h := Hash(v, f, c);
      if Alive(k) {
        h := Hash(if v.Some? then v else data[k].v, if f.Some? then f else data[k].f, c);
      }
      Put(k, h);
    }

    method HGetV(k: Bytes) returns (v: Option<Bytes>)
      requires Valid() && IsItemKey(k) && k in Abs.items
      ensures v == Abs.items[k].v
    {
      v := data[k].v;
    }

    method HGetF(k: Bytes) returns (f: Option<Bytes>)
      requires Valid() && IsItemKey(k) && k in Abs.items
      ensures f == Abs.items[k].f
    {
      f := data[k].f;
    }

    method HGetC(k: Bytes) returns (c: Bytes)
      requires Valid() && IsItemKey(k) && k in Abs.items
      ensures c == LuaText(Abs.items[k].cas)
    {
      c := LuaText(data[k].c);
    }

    method Expire(k: Bytes, seconds: nat)
      requires Valid() && IsItemKey(k) && k in Abs.items && seconds > 0
      modifies this
      ensures Valid() && Foreign == old(Foreign)
      ensures var was := old(Abs);
        Abs == was.(items := was.items[k := was.items[k].(deadline := Some(was.now + seconds))])
    {
      CounterKeyOutside();
      ghost var was := Abs;
      expires := expires[k := now + seconds];
      OneItem(data, old(expires), now, data, expires, k);
      Abs := was.(items := was.items[k := ItemAt(data, expires, k)]);
    }

    method ExpireAt(k: Bytes, time: nat)
      requires Valid() && IsItemKey(k) && k in Abs.items
      modifies this
      ensures Valid() && Foreign == old(Foreign)
      ensures var was := old(Abs);
        Abs == if time <= was.now then was.(items := was.items - {k})
                 else was.(items := was.items[k := was.items[k].(deadline := Some(time))])
    {
      CounterKeyOutside();
      ghost var was := Abs;
      if time <= now {
        var n := Del(k);
      } else {
        expires := expires[k := time];
        OneItem(data, old(expires), now, data, expires, k);
        Abs := was.(items := was.items[k := ItemAt(data, expires, k)]);
      }
    }

    method Persist(k: Bytes)
      requires Valid() && IsItemKey(k) && k in Abs.items
      modifies this
      ensures Valid() && Foreign == old(Foreign)
      ensures var was := old(Abs);
        Abs == was.(items := was.items[k := was.items[k].(deadline := None)])
    {
      CounterKeyOutside();
      ghost var was := Abs;
      expires := expires - {k};
      OneItem(data, old(expires), now, data, expires, k);
      Abs := was.(items := was.items[k := ItemAt(data, expires, k)]);
    }

    method Del(k: Bytes) returns (n: nat)
      requires Valid() && IsItemKey(k)
      modifies this
      ensures Valid() && Foreign == old(Foreign)
      ensures n == if k in old(Abs).items then 1 else 0
      ensures Abs == Without(old(Abs), k)
    {
      hide Items, ForeignKeys;
      ItemShape(k);
      ItemsWithout(data, expires, now, k);
      n := if Alive(k) then 1 else 0;
      data := data - {k};
      expires := expires - {k};
      Abs := Without(Abs, k);
    }

    method Advance(dt: nat)
      requires Valid()
      modifies this
      ensures Valid() && Foreign == old(Foreign)
      ensures Abs == Tick(old(Abs), dt).s
    {
      ghost var was := Abs;
      now := now + dt;
      Abs := Tick(was, dt).s;
      assert Items(data, expires, now) == Abs.items;
    }

    // --------------------------------------------------------------- scripts

    /** The branch every script with an expiry has: EXPIRE up to 30 days, EXPIREAT above. */
    method Limit(k: Bytes, exp: nat)
      requires Valid() && IsItemKey(k) && k in Abs.items && exp > 0
      modifies this
      ensures Valid() && Foreign == old(Foreign)
      ensures var was := old(Abs);
        Abs == if Stale(exp, was.now) then Without(was, k)
               else was.(items := was.items[k := was.items[k].(deadline := Deadline(exp, was.now))])
    {
      hide Redis.Valid;
      if exp <= MAX_RELATIVE { Expire(k, exp); } else { ExpireAt(k, exp); }
    }

    method LuaStore(op: StoreOp, k: Bytes, v: Bytes, f: Bytes, req: Bytes, exp: nat)
      returns (r: Reply)
      requires Valid() && IsItemKey(k)
      modifies this
      ensures Valid() && Foreign == old(Foreign)
      ensures Outcome(Abs, r) == Store(old(Abs), op, k, v, f, req, exp)
    {
      hide Redis.Valid;
      var present := Exists(k);
      if op.Add? && present { return Reply.Exists; }
      if op.Replace? && !present { return Miss; }
      if req != NO_CAS {
        if !present { return Miss; }
        var stored := HGetC(k);
        if stored != req { return Reply.Exists; }
      }
      ghost var was := Abs;
      var newCas := Incr();
      HSet(k, Some(v), Some(f), newCas);
      ghost var mid := Abs.items[k];
      if exp > 0 { Limit(k, exp); } else if present { Persist(k); }
      ghost var i := Item(Some(v), Some(f), newCas, Deadline(exp, was.now));
      Overwrite(was.items, k, mid, i);
      Overwrite(was.items, k, i, i);
      return Done(newCas);
    }

    /** LUA_GET; the value travels as hex text. */
    method LuaGet(k: Bytes) returns (found: bool, hex: Bytes, f: Bytes, c: Bytes)
      requires Valid() && IsItemKey(k)
      ensures match Get(Abs, k).r
              case Hit(v, fl, cas) => found && hex == HexText(v) && f == fl && c == LuaText(cas)
              case _ => !found
    {
      found := Exists(k);
      hex, f, c := [], [], [];
      if found {
        var v := HGetV(k);
        var fl := HGetF(k);
        c := HGetC(k);
        f := if fl.None? then NO_CAS else fl.value;
        hex := HexEncode(if v.None? then [] else v.value);
      }
    }

    /** LUA_META_GET: also the remaining time (None for TTL's -1) and the value's size. */
    method LuaMetaGet(k: Bytes)
      returns (found: bool, hex: Bytes, f: Bytes, c: Bytes, ttl: Option<nat>, size: nat)
      requires Valid() && IsItemKey(k)
      ensures match MetaGet(Abs, k).r
              case MetaHit(v, fl, cas, t) =>
                found && hex == HexText(v) && f == fl && c == LuaText(cas) && ttl == t && size == |v|
              case _ => !found
    {
      ttl, size := None, 0;
      found, hex, f, c := LuaGet(k);
      if found {
        var v := HGetV(k);
        ttl := if k in expires && now < expires[k] then Some(expires[k] - now) else None;
        size := if v.None? then 0 else |v.value|;
      }
    }

    method LuaDelete(k: Bytes, req: Bytes) returns (r: Reply)
      requires Valid() && IsItemKey(k)
      modifies this
      ensures Valid() && Foreign == old(Foreign)
      ensures Outcome(Abs, r) == Delete(old(Abs), k, req)
    {
      hide Redis.Valid;
      var present := Exists(k);
      if !present { return Miss; }
      if req != NO_CAS {
        var stored := HGetC(k);
        if stored != req { return Reply.Exists; }
      }
      var n := Del(k);
      return Deleted;
    }

    /** The fast path of a delete without CAS: DEL instead of the script. */
    method DirectDelete(k: Bytes) returns (r: Reply)
      requires Valid() && IsItemKey(k)
      modifies this
      ensures Valid() && Foreign == old(Foreign)
      ensures Outcome(Abs, r) == Delete(old(Abs), k, NO_CAS)
    {
      ghost var was := Abs;
      var n := Del(k);
      r := if n > 0 then Deleted else Miss;
      assert k !in was.items ==> Without(was, k) == was;
    }

    method LuaCounter(k: Bytes, delta: nat, decr: bool, init: Bytes, exp: nat) returns (r: Reply)
      requires Valid() && IsItemKey(k)
      modifies this
      ensures Valid() && Foreign == old(Foreign)
      ensures Outcome(Abs, r) == Counter(old(Abs), k, delta, decr, init, exp)
    {
      hide Redis.Valid;
      var present := Exists(k);
      if !present {
        if exp == NO_CREATE { return Miss; }
        ghost var was := Abs;
        var cas := Incr();
        HSet(k, Some(init), Some(NO_CAS), cas);
        ghost var mid := Abs.items[k];
        if exp > 0 { Limit(k, exp); }
        ghost var i := Item(Some(init), Some(NO_CAS), cas, Deadline(exp, was.now));
        Overwrite(was.items, k, mid, i);
        Overwrite(was.items, k, i, i);
        return Number(init, cas);
      }
      var val := HGetV(k);
      var parsed := if val.None? then None else ToNumber(val.value);
      if parsed.None? { return NonNumeric; }
      var num, d := parsed.value, ToDouble(delta);
      if decr {
        if num < d { num := 0; } else { num := ToDouble(num - d); }
      } else {
        num := ToDouble(num + d);
      }
      var newCas := Incr();
      HSet(k, Some(Dec(num)), None, newCas);
      return Number(Dec(num), newCas);
    }

    /** The expiry update shared by TOUCH and GAT, up to and including `HSET c`. */
    method Retime(k: Bytes, exp: nat) returns (newCas: nat)
      requires Valid() && IsItemKey(k) && k in Abs.items
      modifies this
      ensures Valid() && Foreign == old(Foreign)
      ensures var was := old(Abs);
        newCas == Fresh(was) && Abs == With(was, k, Touched(was.items[k], exp, was.now, newCas))
    {
      hide Redis.Valid;
      ghost var was := Abs;
      if exp > 0 { Limit(k, exp); } else { Persist(k); }
      newCas := Incr();
      HSet(k, None, None, newCas);
      ghost var i := Touched(was.items[k], exp, was.now, newCas);
      Overwrite(was.items, k, was.items[k].(deadline := Deadline(exp, was.now)), i);
    }

    method LuaTouch(k: Bytes, exp: nat) returns (r: Reply)
      requires Valid() && IsItemKey(k)
      modifies this
      ensures Valid() && Foreign == old(Foreign)
      ensures Outcome(Abs, r) == Touch(old(Abs), k, exp)
    {
      hide Redis.Valid;
      var present := Exists(k);
      if !present { return Miss; }
      var newCas := Retime(k, exp);
      return Done(newCas);
    }

    method LuaGat(k: Bytes, exp: nat) returns (found: bool, hex: Bytes, f: Bytes, c: Bytes)
      requires Valid() && IsItemKey(k)
      modifies this
      ensures Valid() && Foreign == old(Foreign)
      ensures Abs == Gat(old(Abs), k, exp).s
      ensures match Gat(old(Abs), k, exp).r
              case Hit(v, fl, cas) => found && hex == HexText(v) && f == fl && c == LuaText(cas)
              case _ => !found
    {
      hide Redis.Valid;
      found := Exists(k);
      hex, f, c := [], [], [];
      if found {
        var newCas := Retime(k, exp);
        var v := HGetV(k);
        var fl := HGetF(k);
        c := LuaText(newCas);
        f := if fl.None? then NO_CAS else fl.value;
        hex := HexEncode(if v.None? then [] else v.value);
      }
    }

    /** LUA_APPEND and LUA_PREPEND, which differ in the order of one concatenation. */
    method LuaExtend(k: Bytes, data': Bytes, req: Bytes, prepend: bool) returns (r: Reply)
      requires Valid() && IsItemKey(k)
      modifies this
      ensures Valid() && Foreign == old(Foreign)
      ensures Outcome(Abs, r) == Extend(old(Abs), k, data', req, prepend)
    {
      hide Redis.Valid;
      var present := Exists(k);
      if !present { return NotStored; }
      if req != NO_CAS {
        var stored := HGetC(k);
        if stored != req { return Reply.Exists; }
      }
      var oldV := HGetV(k);
      var base := if oldV.None? then [] else oldV.value;
      var newV := if prepend then data' + base else base + data';
      var newCas := Incr();
      HSet(k, Some(newV), None, newCas);
      return Done(newCas);
    }

    /**
     * LUA_FLUSH.  `batches` are the key lists the SCAN calls return: with MATCH they hold
     * item keys only, and every item present throughout is in at least one of them.  SCAN
     * also reports present keys only; that is needed for nothing but the last clause, by
     * which the count is then the number of deleted items unless a key was reported twice.
     */
    method LuaFlush(batches: seq<seq<Bytes>>) returns (count: nat)
      requires Valid()
      requires AllItemKeys(Flat(batches))
      requires Abs.items.Keys <= KeySet(Flat(batches))
      modifies this
      ensures Valid() && Foreign == old(Foreign)
      ensures Abs == StoreSpec.Flush(old(Abs)).s
      ensures count == |Flat(batches)| >= |old(Abs).items|
      ensures count == |old(Abs).items|
        <==> Distinct(Flat(batches)) && KeySet(Flat(batches)) == old(Abs).items.Keys
      ensures KeySet(Flat(batches)) == old(Abs).items.Keys ==>
        (count == |old(Abs).items| <==> Distinct(Flat(batches)))
    {
      hide Redis.Valid, KeySet, Distinct, AllItemKeys, Flat;
      ghost var was := Abs.items;
      count := DeleteBatches(batches);
      NothingLeft(was, KeySet(Flat(batches)));
      FlushCountExactly(was, Flat(batches));
    }

    /** The SCAN loop. */
    method DeleteBatches(batches: seq<seq<Bytes>>) returns (count: nat)
      requires Valid() && AllItemKeys(Flat(batches))
      modifies this
      ensures Valid() && Foreign == old(Foreign)
      ensures Abs == old(Abs).(items := old(Abs).items - KeySet(Flat(batches)))
      ensures count == |Flat(batches)|
    {
      hide Redis.Valid, KeySet, AllItemKeys, Flat;
      ghost var was := Abs;
      count := 0;
      var i := 0;
      NoKeys();
      while i < |batches|
        invariant 0 <= i <= |batches|
        invariant Valid() && Foreign == old(Foreign)
        invariant Abs == was.(items := was.items - KeySet(Flat(batches[..i])))
        invariant count == |Flat(batches[..i])|
      {
        FlatPrefix(batches, i);
        KeySetAppend(Flat(batches[..i]), batches[i]);
        count := DeleteBatch(batches[i], count);
        i := i + 1;
      }
      assert batches[..|batches|] == batches;
    }

    /** One SCAN reply: DEL of each key, present or not. */
    method DeleteBatch(keys: seq<Bytes>, count0: nat) returns (count: nat)
      requires Valid() && AllItemKeys(keys)
      modifies this
      ensures Valid() && Foreign == old(Foreign)
      ensures Abs == old(Abs).(items := old(Abs).items - KeySet(keys))
      ensures count == count0 + |keys|
    {
      hide Redis.Valid, KeySet;
      NoKeys();
      count := count0;
      ghost var was := Abs;
      for j := 0 to |keys|
        invariant Valid() && Foreign == old(Foreign)
        invariant Abs == was.(items := was.items - KeySet(keys[..j]))
        invariant count == count0 + j
      {
        assert keys[..j + 1] == keys[..j] + [keys[j]];
        KeySetSnoc(keys[..j], keys[j]);
        var n := Del(keys[j]);
        count := count + 1;
        assert Abs.items == was.items - KeySet(keys[..j + 1]);
      }
      assert keys[..|keys|] == keys;
    }
  }

  lemma NoKeys()
    ensures KeySet([]) == {} && Flat([]) == []
  {
  }

  lemma NothingLeft(items: map<Bytes, Item>, keys: set<Bytes>)
    requires items.Keys <= keys
    ensures items - keys == map[]
  {
  }

  lemma {:induction false} KeySetAppend(a: seq<Bytes>, b: seq<Bytes>)
    ensures KeySet(a + b) == KeySet(a) + KeySet(b)
  {
    if b == [] {
      assert a + b == a;
    } else {
      var n := |b| - 1;
      KeySetAppend(a, b[..n]);
      KeySetSnoc(a + b[..n], b[n]);
      KeySetSnoc(b[..n], b[n]);
      assert a + b == (a + b[..n]) + [b[n]] && b == b[..n] + [b[n]];
    }
  }

  lemma {:induction false} FlatPrefix(batches: seq<seq<Bytes>>, i: nat)
    requires i < |batches|
    requires AllItemKeys(Flat(batches))
    ensures Flat(batches[..i + 1]) == Flat(batches[..i]) + batches[i]
    ensures AllItemKeys(batches[i])
    decreases |batches|
  {
    assert batches[..i + 1][..i] == batches[..i];
    if i + 1 == |batches| {
      assert batches[..i + 1] == batches;
      var front := Flat(batches[..i]);
      assert forall m :: 0 <= m < |batches[i]| ==> batches[i][m] == Flat(batches)[|front| + m];
    } else {
      var rest := batches[..|batches| - 1];
      assert Flat(batches)[..|Flat(rest)|] == Flat(rest);
      forall m | 0 <= m < |Flat(rest)| ensures IsItemKey(Flat(rest)[m]) {
        assert Flat(rest)[m] == Flat(batches)[m];
      }
      FlatPrefix(rest, i);
      assert rest[..i + 1] == batches[..i + 1] && rest[..i] == batches[..i];
    }
  }

  lemma KeySetSnoc(keys: seq<Bytes>, k: Bytes)
    ensures KeySet(keys + [k]) == KeySet(keys) + {k}
  {
    forall x | x in KeySet(keys) + {k} ensures x in KeySet(keys + [k]) {
      if x == k {
        assert (keys + [k])[|keys|] == k;
      } else {
        var i :| 0 <= i < |keys| && keys[i] == x;
        assert (keys + [k])[i] == x;
      }
    }
  }

  /** No key occurs twice. */
  predicate Distinct(keys: seq<Bytes>) { forall i, j :: 0 <= i < j < |keys| ==> keys[i] != keys[j] }

  lemma {:induction false} DistinctExactly(keys: seq<Bytes>)
    ensures |KeySet(keys)| <= |keys|
    ensures |KeySet(keys)| == |keys| <==> Distinct(keys)
  {
    if keys != [] {
      var n := |keys| - 1;
      var init, k := keys[..n], keys[n];
      assert keys == init + [k];
      DistinctExactly(init);
      KeySetSnoc(init, k);
      if k in KeySet(init) {
        assert KeySet(keys) == KeySet(init);
        var i :| 0 <= i < |init| && init[i] == k;
        assert keys[i] == keys[n];
      } else {
        assert |KeySet(keys)| == |KeySet(init)| + 1;
        assert forall i :: 0 <= i < n ==> keys[i] == init[i] && init[i] in KeySet(init);
      }
    }
  }

  /**
   * LUA_FLUSH counts the keys SCAN reports, and what it deletes are the items.  The two
   * numbers agree exactly when SCAN reported each item once and nothing else.
   */
  lemma FlushCountExactly(items: map<Bytes, Item>, keys: seq<Bytes>)
    requires items.Keys <= KeySet(keys)
    ensures |items| <= |keys|
    ensures |keys| == |items| <==> Distinct(keys) && KeySet(keys) == items.Keys
  {
    DistinctExactly(keys);
    var extra := KeySet(keys) - items.Keys;
    assert KeySet(keys) == items.Keys + extra;
    assert |KeySet(keys)| == |items.Keys| + |extra|;
    assert |items| == |items.Keys|;
  }

  /** A key reported twice in one batch is counted twice: one deletion, a count of two. */
  method FlushDuplicateExample(redis: Redis, client: Bytes) returns (count: nat)
    requires redis.Valid() && redis.Abs.items == map[]
    modifies redis
    ensures redis.Valid() && redis.Abs.items == map[]
    ensures count == 2
  {
    hide Redis.Valid;
    NamespaceIsolated(client, []);
    var k := MakeRedisKey(client);
    var r := redis.LuaStore(StoreOp.Set, k, [], NO_CAS, NO_CAS, 0);
    assert redis.Abs.items.Keys == {k};
    var keys := [k, k];
    assert Flat([keys][..0]) == [] && [] + keys == keys;
    assert keys[0] == k;
    count := redis.LuaFlush([keys]);
  }
}
