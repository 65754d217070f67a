// What each Lua script does to the item store, as a function of the state.
//
// A script runs under the Redis lock, so it is one atomic step.  `redis_scripts.dfy`
// proves the script bodies, statement by statement, against these functions; the
// whole-run theorems are proved about `Step`, which chooses among them.

module StoreSpec {
  import opened ByteStrings
  import opened Doubles

  /**
   * A Redis hash.  TOUCH and GAT can leave one that holds only `c`, so v and f may be
   * missing.  The field `c` holds LuaText(cas).
   */
  datatype Item = Item(v: Option<Bytes>, f: Option<Bytes>, cas: nat, deadline: Option<nat>)

  /** The live items (by Redis key), the CAS counter and the clock. */
  datatype State = State(items: map<Bytes, Item>, counter: nat, now: nat)

  datatype Reply =
    | Miss                                                // -1
    | Exists                                              // -2
    | NonNumeric                                          // -3
    | NotStored                                           // -5
    | Done(cas: nat)                                      // {0, cas}
    | Hit(v: Bytes, f: Bytes, cas: nat)                   // {0, hex v, f, cas}
    | MetaHit(v: Bytes, f: Bytes, cas: nat, ttl: Option<nat>)
    | Number(text: Bytes, cas: nat)                       // {0, text, cas}
    | Deleted
    | Flushed
    | Elapsed

  datatype Outcome = Outcome(s: State, r: Reply)

  datatype StoreOp = Set | Add | Replace

  const NO_CAS: Bytes := Ascii("0")

  const MAX_RELATIVE: nat := 2_592_000
  const NO_CREATE: nat := 4_294_967_295

  // ----------------------------------------------------------------- deadlines

  /** 0 = never, up to 30 days = relative to now, larger = absolute. */
  function Deadline(exp: nat, now: nat): Option<nat> {
    if exp == 0 then None else if exp <= MAX_RELATIVE then Some(now + exp) else Some(exp)
  }

  /** An absolute time that is not in the future: EXPIREAT deletes the key at once. */
  predicate Stale(exp: nat, now: nat) { exp > MAX_RELATIVE && exp <= now }

  predicate Before(now: nat, deadline: Option<nat>) { deadline.None? || now < deadline.value }

  // ------------------------------------------------------------------- helpers

  function Or(o: Option<Bytes>, default: Bytes): Bytes { if o.Some? then o.value else default }

  /** The script's check `req_cas ~= '0'` followed by the comparison with field c. */
  predicate CasRejected(i: Item, req: Bytes) { req != NO_CAS && LuaText(i.cas) != req }

  function Without(s: State, k: Bytes): State { s.(items := s.items - {k}) }

  /** The next counter value. */
  function Fresh(s: State): nat { s.counter + 1 }

  function With(s: State, k: Bytes, i: Item): State {
    s.(items := s.items[k := i], counter := Fresh(s))
  }

  /** `tonumber` on the decimal strings the model covers. */
  function ToNumber(text: Bytes): Option<nat> {
    if text != [] && AllDigits(text) then Some(ToDouble(DigitsValue(text))) else None
  }

  // ------------------------------------------------------------------- scripts

  function Store(s: State, op: StoreOp, k: Bytes, v: Bytes, f: Bytes, req: Bytes, exp: nat): Outcome {
    if op.Add? && k in s.items then Outcome(s, Exists)
    else if op.Replace? && k !in s.items then Outcome(s, Miss)
    else if req != NO_CAS && k !in s.items then Outcome(s, Miss)
    else if k in s.items && CasRejected(s.items[k], req) then Outcome(s, Exists)
    else
      var stored := With(s, k, Item(Some(v), Some(f), Fresh(s), Deadline(exp, s.now)));
      Outcome(if Stale(exp, s.now) then Without(stored, k) else stored, Done(Fresh(s)))
  }

  function Get(s: State, k: Bytes): Outcome {
    if k !in s.items then Outcome(s, Miss)
    else
      var i := s.items[k];
      Outcome(s, Hit(Or(i.v, []), Or(i.f, NO_CAS), i.cas))
  }

  function MetaGet(s: State, k: Bytes): Outcome {
    if k !in s.items then Outcome(s, Miss)
    else
      var i := s.items[k];
      var ttl := if i.deadline.Some? && s.now < i.deadline.value
                 then Some(i.deadline.value - s.now) else None;
      Outcome(s, MetaHit(Or(i.v, []), Or(i.f, NO_CAS), i.cas, ttl))
  }

  /** LUA_DELETE; with req = "0" it is also the direct DEL of the fast path. */
  function Delete(s: State, k: Bytes, req: Bytes): Outcome {
    if k !in s.items then Outcome(s, Miss)
    else if CasRejected(s.items[k], req) then Outcome(s, Exists)
    else Outcome(Without(s, k), Deleted)
  }

  /** The arithmetic of LUA_COUNTER on doubles. */
  function Arithmetic(num: nat, delta: nat, decr: bool): nat {
    var d := ToDouble(delta);
    if !decr then ToDouble(num + d) else if num < d then 0 else ToDouble(num - d)
  }

  function Counter(s: State, k: Bytes, delta: nat, decr: bool, init: Bytes, exp: nat): Outcome {
    if k !in s.items then
      if exp == NO_CREATE then Outcome(s, Miss)
      else
        var stored := With(s, k, Item(Some(init), Some(NO_CAS), Fresh(s), Deadline(exp, s.now)));
        Outcome(if Stale(exp, s.now) then Without(stored, k) else stored, Number(init, Fresh(s)))
    else
      var i := s.items[k];
      var num := if i.v.Some? then ToNumber(i.v.value) else None;
      if num.None? then Outcome(s, NonNumeric)
      else
        var text := Dec(Arithmetic(num.value, delta, decr));
        Outcome(With(s, k, i.(v := Some(text), cas := Fresh(s))), Number(text, Fresh(s)))
  }

  /**
   * The hash after the expiry update and `HSET c` of TOUCH and GAT.  A stale absolute
   * time deletes the key, and HSET then creates a hash that holds only c.
   */
  function Touched(i: Item, exp: nat, now: nat, cas: nat): Item {
    if Stale(exp, now) then Item(None, None, cas, None)
    else i.(cas := cas, deadline := Deadline(exp, now))
  }

  function Touch(s: State, k: Bytes, exp: nat): Outcome {
    if k !in s.items then Outcome(s, Miss)
    else Outcome(With(s, k, Touched(s.items[k], exp, s.now, Fresh(s))), Done(Fresh(s)))
  }

  function Gat(s: State, k: Bytes, exp: nat): Outcome {
    if k !in s.items then Outcome(s, Miss)
    else
      var i := Touched(s.items[k], exp, s.now, Fresh(s));
      Outcome(With(s, k, i), Hit(Or(i.v, []), Or(i.f, NO_CAS), Fresh(s)))
  }

  function Extended(i: Item, data: Bytes, prepend: bool): Bytes {
    if prepend then data + Or(i.v, []) else Or(i.v, []) + data
  }

  function Extend(s: State, k: Bytes, data: Bytes, req: Bytes, prepend: bool): Outcome {
    if k !in s.items then Outcome(s, NotStored)
    else if CasRejected(s.items[k], req) then Outcome(s, Exists)
    else
      var i := s.items[k];
      Outcome(With(s, k, i.(v := Some(Extended(i, data, prepend)), cas := Fresh(s))), Done(Fresh(s)))
  }

  function Flush(s: State): Outcome { Outcome(s.(items := map[]), Flushed) }

  /** `get_next_cas`: the counter step of a successful binary DELETE. */
  function NextCas(s: State): Outcome { Outcome(s.(counter := Fresh(s)), Done(Fresh(s))) }

  /** Time passes: items whose deadline is reached are gone. */
  function Tick(s: State, dt: nat): Outcome {
    var now := s.now + dt;
    Outcome(State(map k | k in s.items && Before(now, s.items[k].deadline) :: s.items[k],
                  s.counter, now), Elapsed)
  }

  // -------------------------------------------------------------------- events

  /** One atomic step of any connection, or of the clock. */
  datatype Event =
    | EStore(op: StoreOp, k: Bytes, v: Bytes, f: Bytes, req: Bytes, exp: nat)
    | EGet(k: Bytes)
    | EMetaGet(k: Bytes)
    | EDelete(k: Bytes, req: Bytes)
    | ECounter(k: Bytes, delta: nat, decr: bool, init: Bytes, exp: nat)
    | ETouch(k: Bytes, exp: nat)
    | EGat(k: Bytes, exp: nat)
    | EExtend(k: Bytes, data: Bytes, req: Bytes, prepend: bool)
    | EFlush
    | ENextCas
    | ETick(dt: nat)

  function Step(s: State, e: Event): Outcome {
    match e
    case EStore(op, k, v, f, req, exp) => Store(s, op, k, v, f, req, exp)
    case EGet(k) => Get(s, k)
    case EMetaGet(k) => MetaGet(s, k)
    case EDelete(k, req) => Delete(s, k, req)
    case ECounter(k, delta, decr, init, exp) => Counter(s, k, delta, decr, init, exp)
    case ETouch(k, exp) => Touch(s, k, exp)
    case EGat(k, exp) => Gat(s, k, exp)
    case EExtend(k, data, req, prepend) => Extend(s, k, data, req, prepend)
    case EFlush => Flush(s)
    case ENextCas => NextCas(s)
    case ETick(dt) => Tick(s, dt)
  }

  /** The key an event addresses. */
  predicate On(e: Event, k: Bytes) {
    !e.EFlush? && !e.ENextCas? && !e.ETick? && e.k == k
  }

  /** State after the first i events of a run: any interleaving of any connections. */
  function At(s: State, es: seq<Event>, i: nat): State
    requires i <= |es|
  {
    if i == 0 then s else Step(At(s, es, i - 1), es[i - 1]).s
  }

  function ReplyAt(s: State, es: seq<Event>, i: nat): Reply
    requires i < |es|
  {
    Step(At(s, es, i), es[i]).r
  }
}
