// The binary command handlers, over the Redis keyspace they call: each is the step and the
// responses that `dispatch.dfy` gives for its request.

module BinaryHandlers {
  import opened ByteStrings
  import opened Doubles
  import opened Frames
  import opened StoreSpec
  import opened RedisScripts
  import opened Hex
  import opened BinaryDispatch

  type Stats = seq<(Bytes, Bytes)>

  /** What a request with a known opcode answers in state s. */
  function Result(s: State, op: Opcode, req: Request, stats: Stats): seq<Response> {
    Answer(op, req, Execute(s, op, req).r, Execute(s, op, req).s.counter, stats)
  }

  lemma OneResponse(r: Response)
    ensures EncodeAll([r]) == Encode(r)
  {
  }

  method Send(out: Bytes, r: Response) returns (out': Bytes)
    ensures out' == out + EncodeAll([r])
  {
    OneResponse(r);
    out' := WriteRawResponse(out, r);
  }

  /** `write_simple_response`. */
  method SendSimple(out: Bytes, op: Opcode, req: Request, status: nat, cas: nat, body: Bytes)
    returns (out': Bytes)
    ensures out' == out + EncodeAll([Simple(op, req, status, cas, body)])
  {
    out' := Send(out, Simple(op, req, status, cas, body));
  }

  /** The response to a hit: value out of its hex text, flags and token out of their numerals. */
  method SendHit(out: Bytes, op: Opcode, req: Request, hex: Bytes, f: Bytes, c: Bytes,
                 ghost v: Bytes, ghost cas: nat) returns (out': Bytes)
    requires hex == HexText(v) && c == LuaText(cas)
    ensures out' == out + EncodeAll([HitResponse(op, req, v, f, cas)])
  {
    hide ParseUint, LuaText;
    var value := HexDecode(hex);
    HexRoundTrip(v);
    var flags := ParseUint(f, U32_MAX);
    var token := ParseUint(c, U64_MAX);
    out' := Send(out, Response(Code(op), ST_OK, req.hdr.opaqueId, if token.Some? then token.value else 0,
                               BigEndian(if flags.Some? then flags.value else 0, 4),
                               if IncludesKey(op) then req.key else [], value));
  }

  /** A request with bad arguments changes nothing. */
  lemma BadArguments(s: State, op: Opcode, req: Request, stats: Stats)
    requires !GoodArgs(Base(op), req)
    ensures Execute(s, op, req).s == s && Result(s, op, req, stats) == [Simple(op, req, ST_ARGS, 0, [])]
  {
  }

  lemma RetrievalResult(s: State, op: Opcode, req: Request, e: Event, stats: Stats)
    requires ScriptOf(op, req) == Some(e) && Base(op) in {Opcode.OpGet, OpGetK, Opcode.OpGat}
    ensures Execute(s, op, req) == Step(s, e)
    ensures Result(s, op, req, stats) == Retrieved(op, req, Step(s, e).r)
  {
    hide Step, Retrieved, IsQuiet;
  }

  lemma MutationResult(s: State, op: Opcode, req: Request, e: Event, stats: Stats)
    requires ScriptOf(op, req) == Some(e)
    requires Base(op) in {OpSet, OpAdd, OpReplace, OpIncrement, OpDecrement, Opcode.OpTouch, OpAppend, OpPrepend}
    ensures Execute(s, op, req) == Step(s, e)
    ensures Result(s, op, req, stats) == Mutated(op, req, Step(s, e).r)
  {
    hide Step, Mutated, IsQuiet;
  }

  /** What a handler has to do for a mutation: arguments first, then the script. */
  predicate Follows(s: State, op: Opcode, req: Request, stats: Stats, good: bool, e: Event) {
    if !good then Execute(s, op, req).s == s && Result(s, op, req, stats) == [Simple(op, req, ST_ARGS, 0, [])]
    else Execute(s, op, req) == Step(s, e) && Result(s, op, req, stats) == Mutated(op, req, Step(s, e).r)
  }

  lemma StoreFollows(s: State, op: Opcode, req: Request, stats: Stats)
    requires Base(op) in {OpSet, OpAdd, OpReplace}
    ensures var good := |req.extras| == 8;
      Follows(s, op, req, stats, good,
              if good then StoreEvent(Base(op), MakeRedisKey(req.key), req, Dec(req.hdr.cas)) else EFlush)
  {
    hide Step, Mutated, Execute, Result, IsQuiet;
    if |req.extras| == 8 {
      MutationResult(s, op, req, StoreEvent(Base(op), MakeRedisKey(req.key), req, Dec(req.hdr.cas)), stats);
    } else {
      BadArguments(s, op, req, stats);
    }
  }

  lemma CounterFollows(s: State, op: Opcode, req: Request, stats: Stats)
    requires Base(op) in {OpIncrement, OpDecrement}
    ensures var good := |req.extras| == 20;
      Follows(s, op, req, stats, good,
              if good then CounterEvent(MakeRedisKey(req.key), req, Base(op) == OpDecrement) else EFlush)
  {
    hide Step, Mutated, Execute, Result, IsQuiet;
    if |req.extras| == 20 {
      MutationResult(s, op, req, CounterEvent(MakeRedisKey(req.key), req, Base(op) == OpDecrement), stats);
    } else {
      BadArguments(s, op, req, stats);
    }
  }

  lemma TouchFollows(s: State, op: Opcode, req: Request, stats: Stats)
    requires Base(op) == Opcode.OpTouch
    ensures Follows(s, op, req, stats, |req.extras| == 4, ETouch(MakeRedisKey(req.key), FromBigEndian(req.extras)))
  {
    hide Step, Mutated, Execute, Result, IsQuiet;
    if |req.extras| == 4 {
      MutationResult(s, op, req, ETouch(MakeRedisKey(req.key), FromBigEndian(req.extras)), stats);
    } else {
      BadArguments(s, op, req, stats);
    }
  }

  lemma ExtendFollows(s: State, op: Opcode, req: Request, stats: Stats)
    requires Base(op) in {OpAppend, OpPrepend}
    ensures Follows(s, op, req, stats, req.extras == [],
                    EExtend(MakeRedisKey(req.key), req.value, Dec(req.hdr.cas), Base(op) == OpPrepend))
  {
    hide Step, Mutated, Execute, Result, IsQuiet;
    if req.extras == [] {
      var e := EExtend(MakeRedisKey(req.key), req.value, Dec(req.hdr.cas), Base(op) == OpPrepend);
      MutationResult(s, op, req, e, stats);
    } else {
      BadArguments(s, op, req, stats);
    }
  }

  lemma FlushFollows(s: State, op: Opcode, req: Request, stats: Stats)
    requires Base(op) == Opcode.OpFlush
    ensures Execute(s, op, req).s == StoreSpec.Flush(s).s
    ensures Result(s, op, req, stats) == Loud(op, Simple(op, req, ST_OK, 0, []))
  {
    hide IsQuiet;
  }

  lemma GatFollows(s: State, op: Opcode, req: Request, stats: Stats)
    requires Base(op) == Opcode.OpGat
    ensures |req.extras| != 4 ==>
      Execute(s, op, req).s == s && Result(s, op, req, stats) == [Simple(op, req, ST_ARGS, 0, [])]
    ensures |req.extras| == 4 ==>
      var o := Step(s, EGat(MakeRedisKey(req.key), FromBigEndian(req.extras)));
      Execute(s, op, req) == o && Result(s, op, req, stats) == Retrieved(op, req, o.r)
  {
  }

  // Every handler has the same contract: the store takes the request's step, and the
  // responses are appended to `out`.

  method OpGet(redis: Redis, op: Opcode, req: Request, out: Bytes, ghost stats: Stats)
    returns (out': Bytes)
    requires redis.Valid() && Base(op) in {Opcode.OpGet, OpGetK}
    ensures redis.Abs == Execute(redis.Abs, op, req).s
    ensures out' == out + EncodeAll(Result(redis.Abs, op, req, stats))
  {
    NamespaceIsolated(req.key, []);
    var rk := MakeRedisKey(req.key);
    RetrievalResult(redis.Abs, op, req, EGet(rk), stats);
    hide Redis.Valid, Encode, HitResponse, LuaText, HexText, Execute, Result, ScriptOf, IsQuiet;
    var found, hex, f, c := redis.LuaGet(rk);
    if !found {
      if IsQuiet(op) { return out; }
      out' := SendSimple(out, op, req, ST_NF, 0, []);
      return;
    }
    ghost var hit := Get(redis.Abs, rk).r;
    out' := SendHit(out, op, req, hex, f, c, hit.v, hit.cas);
  }

  method OpGat(redis: Redis, op: Opcode, req: Request, out: Bytes, ghost stats: Stats)
    returns (out': Bytes)
    requires redis.Valid() && Base(op) == Opcode.OpGat
    modifies redis
    ensures redis.Valid() && redis.Foreign == old(redis.Foreign)
    ensures redis.Abs == Execute(old(redis.Abs), op, req).s
    ensures out' == out + EncodeAll(Result(old(redis.Abs), op, req, stats))
  {
    hide Redis.Valid, Encode, HitResponse, LuaText, HexText, Gat, FromBigEndian, Execute, Result, IsQuiet, Base;
    ghost var was := redis.Abs;
    GatFollows(was, op, req, stats);
    if |req.extras| != 4 {
      out' := SendSimple(out, op, req, ST_ARGS, 0, []);
      return;
    }
    NamespaceIsolated(req.key, []);
    var rk := MakeRedisKey(req.key);
    var found, hex, f, c := redis.LuaGat(rk, FromBigEndian(req.extras[0..4]));
    assert req.extras[0..4] == req.extras;
    StepReply(was, EGat(rk, FromBigEndian(req.extras)));
    if !found {
      if IsQuiet(op) { return out; }
      out' := SendSimple(out, op, req, ST_NF, 0, []);
      return;
    }
    ghost var hit := Gat(was, rk, FromBigEndian(req.extras)).r;
    out' := SendHit(out, op, req, hex, f, c, hit.v, hit.cas);
  }

  /** SET, ADD and REPLACE. */
  method OpStore(redis: Redis, op: Opcode, req: Request, out: Bytes, ghost stats: Stats)
    returns (out': Bytes)
    requires redis.Valid() && Base(op) in {OpSet, OpAdd, OpReplace}
    modifies redis
    ensures redis.Valid() && redis.Foreign == old(redis.Foreign)
    ensures redis.Abs == Execute(old(redis.Abs), op, req).s
    ensures out' == out + EncodeAll(Result(old(redis.Abs), op, req, stats))
  {
    hide Redis.Valid, Encode, TokenNumber, Execute, Result, IsQuiet, Base, FromBigEndian, Dec, Store, StoreOpOf;
    ghost var was := redis.Abs;
    StoreFollows(was, op, req, stats);
    if |req.extras| != 8 {
      out' := SendSimple(out, op, req, ST_ARGS, 0, []);
      return;
    }
    NamespaceIsolated(req.key, []);
    var rk := MakeRedisKey(req.key);
    var flags := FromBigEndian(req.extras[0..4]);
    var expiry := FromBigEndian(req.extras[4..8]);
    assert req.extras[0..4] == req.extras[..4] && req.extras[4..8] == req.extras[4..];
    var name := StoreOpOf(Base(op));
    StepReply(was, EStore(name, rk, req.value, Dec(flags), Dec(req.hdr.cas), expiry));
    var r := redis.LuaStore(name, rk, req.value, Dec(flags), Dec(req.hdr.cas), expiry);
    match r {
      case Done(cas) =>
        out' := out;
        if !IsQuiet(op) { out' := SendSimple(out, op, req, ST_OK, TokenNumber(cas), []); }
      case Miss => out' := SendSimple(out, op, req, ST_NF, 0, []);
      case Exists => out' := SendSimple(out, op, req, ST_IX, 0, []);
    }
  }

  /** A delete without CAS is a direct DEL; a loud success fetches a fresh token. */
  method OpDelete(redis: Redis, op: Opcode, req: Request, out: Bytes, ghost stats: Stats)
    returns (out': Bytes)
    requires redis.Valid() && Base(op) == Opcode.OpDelete
    modifies redis
    ensures redis.Valid() && redis.Foreign == old(redis.Foreign)
    ensures redis.Abs == Execute(old(redis.Abs), op, req).s
    ensures out' == out + EncodeAll(Result(old(redis.Abs), op, req, stats))
  {
    hide Redis.Valid, Encode, Delete, Dec;
    NamespaceIsolated(req.key, []);
    var rk := MakeRedisKey(req.key);
    ghost var was := redis.Abs;
    DecZero(req.hdr.cas);
    StepReply(was, EDelete(rk, Dec(req.hdr.cas)));
    var r;
    if req.hdr.cas == 0 {
      r := redis.DirectDelete(rk);
    } else {
      r := redis.LuaDelete(rk, Dec(req.hdr.cas));
    }
    match r {
      case Deleted =>
        if IsQuiet(op) { return out; }
        var newCas := redis.Incr();
        out' := SendSimple(out, op, req, ST_OK, newCas, []);
      case Miss => out' := SendSimple(out, op, req, ST_NF, 0, []);
      case Exists => out' := SendSimple(out, op, req, ST_IX, 0, []);
    }
  }

  /** INCREMENT and DECREMENT. */
  method OpCounter(redis: Redis, op: Opcode, req: Request, out: Bytes, ghost stats: Stats)
    returns (out': Bytes)
    requires redis.Valid() && Base(op) in {OpIncrement, OpDecrement}
    modifies redis
    ensures redis.Valid() && redis.Foreign == old(redis.Foreign)
    ensures redis.Abs == Execute(old(redis.Abs), op, req).s
    ensures out' == out + EncodeAll(Result(old(redis.Abs), op, req, stats))
  {
    hide Redis.Valid, Encode, TokenNumber, Execute, Result, IsQuiet, Base, FromBigEndian, Dec, Counter;
    hide ParseUint, BigEndian;
    ghost var was := redis.Abs;
    CounterFollows(was, op, req, stats);
    if |req.extras| != 20 {
      out' := SendSimple(out, op, req, ST_ARGS, 0, []);
      return;
    }
    NamespaceIsolated(req.key, []);
    var rk := MakeRedisKey(req.key);
    var delta := FromBigEndian(req.extras[0..8]);
    var initial := FromBigEndian(req.extras[8..16]);
    var expiry := FromBigEndian(req.extras[16..20]);
    assert req.extras[0..8] == req.extras[..8] && req.extras[16..20] == req.extras[16..];
    var decr := Base(op) == OpDecrement;
    StepReply(was, ECounter(rk, delta, decr, Dec(initial), expiry));
    var r := redis.LuaCounter(rk, delta, decr, Dec(initial), expiry);
    match r {
      case Number(text, cas) =>
        var value := ParseUint(text, U64_MAX);
        var body := BigEndian(if value.Some? then value.value else 0, 8);
        out' := out;
        if !IsQuiet(op) { out' := SendSimple(out, op, req, ST_OK, TokenNumber(cas), body); }
      case Miss => out' := SendSimple(out, op, req, ST_NF, 0, []);
      case NonNumeric => out' := SendSimple(out, op, req, ST_ARGS, 0, NON_NUMERIC);
    }
  }

  method OpTouch(redis: Redis, op: Opcode, req: Request, out: Bytes, ghost stats: Stats)
    returns (out': Bytes)
    requires redis.Valid() && Base(op) == Opcode.OpTouch
    modifies redis
    ensures redis.Valid() && redis.Foreign == old(redis.Foreign)
    ensures redis.Abs == Execute(old(redis.Abs), op, req).s
    ensures out' == out + EncodeAll(Result(old(redis.Abs), op, req, stats))
  {
    hide Redis.Valid, Encode, TokenNumber, Execute, Result, IsQuiet, Base, FromBigEndian, Dec, Touch;
    ghost var was := redis.Abs;
    TouchFollows(was, op, req, stats);
    if |req.extras| != 4 {
      out' := SendSimple(out, op, req, ST_ARGS, 0, []);
      return;
    }
    NamespaceIsolated(req.key, []);
    var rk := MakeRedisKey(req.key);
    StepReply(was, ETouch(rk, FromBigEndian(req.extras)));
    assert req.extras[0..4] == req.extras;
    var r := redis.LuaTouch(rk, FromBigEndian(req.extras[0..4]));
    match r {
      case Done(cas) =>
        out' := out;
        if !IsQuiet(op) { out' := SendSimple(out, op, req, ST_OK, TokenNumber(cas), []); }
      case Miss => out' := SendSimple(out, op, req, ST_NF, 0, []);
    }
  }

  method OpAppendPrepend(redis: Redis, op: Opcode, req: Request, out: Bytes, ghost stats: Stats)
    returns (out': Bytes)
    requires redis.Valid() && Base(op) in {OpAppend, OpPrepend}
    modifies redis
    ensures redis.Valid() && redis.Foreign == old(redis.Foreign)
    ensures redis.Abs == Execute(old(redis.Abs), op, req).s
    ensures out' == out + EncodeAll(Result(old(redis.Abs), op, req, stats))
  {
    hide Redis.Valid, Encode, TokenNumber, Execute, Result, IsQuiet, Base, FromBigEndian, Dec, Extend;
    ghost var was := redis.Abs;
    ExtendFollows(was, op, req, stats);
    if req.extras != [] {
      out' := SendSimple(out, op, req, ST_ARGS, 0, []);
      return;
    }
    NamespaceIsolated(req.key, []);
    var rk := MakeRedisKey(req.key);
    StepReply(was, EExtend(rk, req.value, Dec(req.hdr.cas), Base(op) == OpPrepend));
    var r := redis.LuaExtend(rk, req.value, Dec(req.hdr.cas), Base(op) == OpPrepend);
    match r {
      case Done(cas) =>
        out' := out;
        if !IsQuiet(op) { out' := SendSimple(out, op, req, ST_OK, TokenNumber(cas), []); }
      case NotStored => out' := SendSimple(out, op, req, ST_NOT_STORED, 0, []);
      case Exists => out' := SendSimple(out, op, req, ST_IX, 0, []);
    }
  }

  /** SCAN's promise: item keys only, and every item present is among them. */
  ghost predicate ScanCovers(s: State, batches: seq<seq<Bytes>>) {
    AllItemKeys(Flat(batches)) && s.items.Keys <= KeySet(Flat(batches))
  }

  method OpFlush(redis: Redis, op: Opcode, req: Request, out: Bytes, batches: seq<seq<Bytes>>, ghost stats: Stats)
    returns (out': Bytes)
    requires redis.Valid() && Base(op) == Opcode.OpFlush && ScanCovers(redis.Abs, batches)
    modifies redis
    ensures redis.Valid() && redis.Foreign == old(redis.Foreign)
    ensures redis.Abs == Execute(old(redis.Abs), op, req).s
    ensures out' == out + EncodeAll(Result(old(redis.Abs), op, req, stats))
  {
    hide Redis.Valid, Encode, Execute, Result, IsQuiet, StoreSpec.Flush, Distinct, KeySet;
    FlushFollows(redis.Abs, op, req, stats);
    var count := redis.LuaFlush(batches);
    out' := out;
    if !IsQuiet(op) { out' := SendSimple(out, op, req, ST_OK, 0, []); }
  }

  method OpStat(op: Opcode, req: Request, out: Bytes, stats: Stats) returns (out': Bytes)
    requires Base(op) == Opcode.OpStat
    ensures out' == out + EncodeAll(Statistics(op, req, if GeneralStats(req) then stats else []))
  {
    hide Encode;
    out' := out;
    ghost var shown := if GeneralStats(req) then stats else [];
    ghost var rs := Statistics(op, req, shown);
    assert rs[..0] == [] && out + [] == out;
    if GeneralStats(req) {
      for i := 0 to |stats|
        invariant out' == out + EncodeAll(rs[..i])
      {
        var r := Response(Code(op), ST_OK, req.hdr.opaqueId, 0, [], stats[i].0, stats[i].1);
        out' := Send(out', r);
        EncodeAllAppend(rs[..i], [r]);
        assert rs[..i + 1] == rs[..i] + [r];
      }
    }
    var last := Simple(op, req, ST_OK, 0, []);
    out' := Send(out', last);
    EncodeAllAppend(rs[..|shown|], [last]);
    assert rs == rs[..|shown|] + [last];
  }

  /** `handle`: the state, the output and the verdict are those of `BinaryDispatch.Handle`. */
  method HandleRequest(redis: Redis, req: Request, out: Bytes, batches: seq<seq<Bytes>>, stats: Stats)
    returns (out': Bytes, ok: bool)
    requires redis.Valid() && ScanCovers(redis.Abs, batches)
    modifies redis
    ensures redis.Valid() && redis.Foreign == old(redis.Foreign)
    ensures var a := Handle(old(redis.Abs), req, stats);
      redis.Abs == a.st && out' == out + a.out && ok == a.ok
  {
    hide Redis.Valid, Encode, Execute, Answer, ScanCovers;
    ok := true;
    var o := ParseOpcode(req.hdr.opcode);
    if o.None? {
      out' := Send(out, Response(req.hdr.opcode, ST_UNK, req.hdr.opaqueId, 0, [], [], UNKNOWN_COMMAND));
      return;
    }
    var op := o.value;
    var base := Base(op);
    if base == Opcode.OpGet || base == OpGetK {
      out' := OpGet(redis, op, req, out, stats);
    } else if base == OpSet || base == OpAdd || base == OpReplace {
      out' := OpStore(redis, op, req, out, stats);
    } else if base == Opcode.OpDelete {
      out' := OpDelete(redis, op, req, out, stats);
    } else if base == OpIncrement || base == OpDecrement {
      out' := OpCounter(redis, op, req, out, stats);
    } else if base == Opcode.OpTouch {
      out' := OpTouch(redis, op, req, out, stats);
    } else if base == Opcode.OpGat {
      out' := OpGat(redis, op, req, out, stats);
    } else if base == OpAppend || base == OpPrepend {
      out' := OpAppendPrepend(redis, op, req, out, stats);
    } else if base == Opcode.OpFlush {
      out' := OpFlush(redis, op, req, out, batches, stats);
    } else {
      ok := base != OpQuit;
      out' := HandleOther(op, req, out, stats, redis.Abs);
    }
  }

  /** The commands that do not touch the store. */
  method HandleOther(op: Opcode, req: Request, out: Bytes, stats: Stats, ghost s: State) returns (out': Bytes)
    requires Base(op) !in {Opcode.OpGet, OpGetK, OpSet, OpAdd, OpReplace, Opcode.OpDelete, OpIncrement, OpDecrement,
                           Opcode.OpTouch, Opcode.OpGat, OpAppend, OpPrepend, Opcode.OpFlush}
    ensures Execute(s, op, req).s == s
    ensures out' == out + EncodeAll(Result(s, op, req, stats))
  {
    hide Encode, Statistics;
    var base := Base(op);
    if base == Opcode.OpStat {
      out' := OpStat(op, req, out, stats);
    } else if base == OpVersion {
      out' := SendSimple(out, op, req, ST_OK, 0, VERSION_TEXT);
    } else if base == OpSaslListMechs {
      out' := SendSimple(out, op, req, ST_OK, 0, PLAIN);
    } else if base == OpSaslAuth && req.key != PLAIN {
      out' := SendSimple(out, op, req, ST_AUTH_ERROR, 0, UNSUPPORTED);
    } else if base == OpSaslAuth {
      out' := SendSimple(out, op, req, ST_OK, 0, AUTHENTICATED);
    } else if base == OpSaslStep {
      out' := SendSimple(out, op, req, ST_AUTH_ERROR, 0, NO_STEP);
    } else if base == OpQuit && IsQuiet(op) {
      out' := out;
    } else {
      out' := SendSimple(out, op, req, ST_OK, 0, []);
    }
  }
}
