// Binary commands, said without the tables and helpers that implement them: opcode bytes,
// status numbers, Redis keys and response fields as literals.

module BinaryLaws {
  import opened ByteStrings
  import opened Doubles
  import opened Frames
  import opened StoreSpec
  import opened BinaryDispatch
  import BinaryConn
  import RedisScripts
  import Counters

  type Stats = seq<(Bytes, Bytes)>

  /** The Redis key of a client key. */
  function ItemKey(client: Bytes): Bytes { Ascii("rc:") + client }

  // ------------------------------------------------------------------- the table

  // The command bytes of the memcached binary protocol.

  lemma OpcodeTableLoud()
    ensures Code(OpGet) == 0x00 && Code(OpSet) == 0x01 && Code(OpAdd) == 0x02 && Code(OpReplace) == 0x03
    ensures Code(OpDelete) == 0x04 && Code(OpIncrement) == 0x05 && Code(OpDecrement) == 0x06
    ensures Code(OpQuit) == 0x07 && Code(OpFlush) == 0x08 && Code(OpNoop) == 0x0a
  {
  }

  lemma OpcodeTableMore()
    ensures Code(OpVersion) == 0x0b && Code(OpGetK) == 0x0c && Code(OpAppend) == 0x0e && Code(OpPrepend) == 0x0f
    ensures Code(OpStat) == 0x10 && Code(OpVerbosity) == 0x1b && Code(OpTouch) == 0x1c && Code(OpGat) == 0x1d
    ensures Code(OpSaslListMechs) == 0x20 && Code(OpSaslAuth) == 0x21 && Code(OpSaslStep) == 0x22
  {
  }

  lemma OpcodeTableQuiet()
    ensures Code(OpGetQ) == 0x09 && Code(OpGetKQ) == 0x0d && Code(OpSetQ) == 0x11 && Code(OpAddQ) == 0x12
    ensures Code(OpReplaceQ) == 0x13 && Code(OpDeleteQ) == 0x14 && Code(OpIncrementQ) == 0x15
    ensures Code(OpDecrementQ) == 0x16 && Code(OpQuitQ) == 0x17 && Code(OpFlushQ) == 0x18
    ensures Code(OpAppendQ) == 0x19 && Code(OpPrependQ) == 0x1a && Code(OpGatQ) == 0x1e
  {
  }

  /** A quiet opcode's loud command, by their bytes. */
  lemma QuietTable(op: Opcode)
    ensures IsQuiet(op) ==>
      var b, q := Code(Base(op)), Code(op);
      || (0x11 <= q <= 0x16 && b == q - 0x10) || (0x17 <= q <= 0x18 && b == q - 0x10)
      || (0x19 <= q <= 0x1a && b == q - 0x0b) || (q == 0x09 && b == 0x00) || (q == 0x0d && b == 0x0c)
      || (q == 0x1e && b == 0x1d)
  {
  }

  /** Network byte order: the first byte is the most significant one. */
  lemma {:induction false} MostSignificantFirst(x: byte, b: Bytes)
    ensures FromBigEndian([x] + b) == x as nat * Pow256(|b|) + FromBigEndian(b)
  {
    var c := [x] + b;
    if b == [] {
      assert c[..0] == [];
    } else {
      assert c[..|c| - 1] == [x] + b[..|b| - 1] && c[|c| - 1] == b[|b| - 1];
      MostSignificantFirst(x, b[..|b| - 1]);
      assert (x as nat * Pow256(|b| - 1)) * 256 == x as nat * Pow256(|b|);
    }
  }

  lemma Appended(b: Bytes, x: byte)
    ensures FromBigEndian(b + [x]) == FromBigEndian(b) * 256 + x as nat
  {
    assert (b + [x])[..|b|] == b;
  }

  lemma ByteOrderExample()
    ensures BigEndian(0x0102_0304, 4) == [1, 2, 3, 4] && FromBigEndian([1, 2, 3, 4]) == 0x0102_0304
  {
    var e: Bytes := [];
    assert FromBigEndian(e) == 0;
    hide BigEndian, FromBigEndian;
    var b: Bytes := e + [1] + [2] + [3] + [4];
    Appended(e, 1);
    Appended(e + [1], 2);
    Appended(e + [1] + [2], 3);
    Appended(e + [1] + [2] + [3], 4);
    assert b == [1, 2, 3, 4];
    FromBigEndianRoundTrip(b);
  }

  // ----------------------------------------------------------------------- reads

  predicate ReadsByte(b: byte) { b == 0x00 || b == 0x09 || b == 0x0c || b == 0x0d }

  /** The response to a hit, field by field. */
  function HitOf(req: Request, i: Item): Response {
    Response(req.hdr.opcode, 0x0000, req.hdr.opaqueId, if i.cas < LUA_EXACT then i.cas else 0,
             BigEndian(FlagsNumber(Or(i.f, Ascii("0"))), 4),
             if req.hdr.opcode == 0x0c || req.hdr.opcode == 0x0d then req.key else [], Or(i.v, []))
  }

  /**
   * GET, GETQ, GETK and GETKQ leave the store alone.  A present key is answered by its value,
   * an absent one by status 1, or by nothing if the opcode is quiet.
   */
  lemma ReadLaw(s: State, req: Request, stats: Stats)
    requires ReadsByte(req.hdr.opcode)
    ensures var a, k := Handle(s, req, stats), ItemKey(req.key);
      var quiet := req.hdr.opcode == 0x09 || req.hdr.opcode == 0x0d;
      && a.st == s && a.ok
      && a.out == if k in s.items then Encode(HitOf(req, s.items[k]))
                  else if quiet then []
                  else Encode(Response(req.hdr.opcode, 0x0001, req.hdr.opaqueId, 0, [], [], []))
  {
    hide Encode, TokenNumber, FlagsNumber, BigEndian, Answer, ScriptOf;
    var k := ItemKey(req.key);
    var op := if req.hdr.opcode == 0x00 then OpGet else if req.hdr.opcode == 0x09 then OpGetQ
              else if req.hdr.opcode == 0x0c then OpGetK else OpGetKQ;
    ReadParts(op, req, stats);
    if k in s.items { TokenNumberExactly(s.items[k].cas); }
    var rs := Responses(s, req, stats);
    if rs != [] {
      assert rs == [rs[0]];
      EncodesOne(rs[0]);
    }
  }

  lemma ReadParts(op: Opcode, req: Request, stats: Stats)
    requires op in {OpGet, OpGetQ, OpGetK, OpGetKQ} && req.hdr.opcode == Code(op)
    ensures ParseOpcode(req.hdr.opcode) == Some(op) && Base(op) != OpQuit && Base(op) != OpDelete
    ensures IsQuiet(op) <==> req.hdr.opcode == 0x09 || req.hdr.opcode == 0x0d
    ensures IncludesKey(op) <==> req.hdr.opcode == 0x0c || req.hdr.opcode == 0x0d
    ensures ScriptOf(op, req) == Some(EGet(ItemKey(req.key)))
    ensures forall r: Reply, next: nat :: Answer(op, req, r, next, stats) == Retrieved(op, req, r)
  {
    hide Retrieved;
  }

  lemma EncodesOne(r: Response)
    ensures EncodeAll([r]) == Encode(r) && EncodeAll([]) == []
  {
    hide Encode;
  }

  /** SET k v with the given flags, then a read of k, as one stream of bytes. */
  function SetThenRead(key: Bytes, v: Bytes, flags: nat, exp: nat, opcode: byte): Bytes {
    Frame(0x01, 1, 0, BigEndian(flags, 4) + BigEndian(exp, 4), key, v) + Frame(opcode, 2, 0, [], key, [])
  }

  /** Any of the four reads behind a SET answers the value, the flags and the fresh token. */
  lemma SetThenReadLaw(s: State, key: Bytes, v: Bytes, flags: nat, exp: nat, opcode: byte, stats: Stats)
    requires ReadsByte(opcode) && |key| <= MAX_KEY_LEN && 8 + |key| + |v| <= MAX_BODY_LEN
    requires flags <= U32_MAX && exp <= U32_MAX && !Stale(exp, s.now) && s.counter + 1 < LUA_EXACT
    ensures BinaryConn.Serve(Handler(stats), s, SetThenRead(key, v, flags, exp, opcode)).out
      == Encode(Response(0x01, 0x0000, 1, s.counter + 1, [], [], []))
         + Encode(Response(opcode, 0x0000, 2, s.counter + 1, BigEndian(flags, 4),
                           if opcode == 0x0c || opcode == 0x0d then key else [], v))
  {
    hide TryParse, Encode, Frame, BinaryConn.Serve, Handle, HitOf, BigEndian;
    var b, h := SetThenRead(key, v, flags, exp, opcode), Handler(stats);
    var set_, read := Frames2(key, v, flags, exp, opcode);
    BinaryConn.ServeParsed(h, s, b);
    SetLaw(s, set_, flags, exp, stats);
    var t := Handle(s, set_, stats).st;
    BinaryConn.ServeParsed(h, t, Frame(opcode, 2, 0, [], key, []));
    ReadLaw(t, read, stats);
    BinaryConn.EmptyServe(h, t);
    StoredHit(t, read, s.counter + 1, v, flags);
    assert Encode(HitOf(read, t.items[ItemKey(key)])) + [] == Encode(HitOf(read, t.items[ItemKey(key)]));
  }

  lemma StoredHit(t: State, req: Request, cas: nat, v: Bytes, flags: nat)
    requires ItemKey(req.key) in t.items && cas < LUA_EXACT && flags <= U32_MAX
    requires var i := t.items[ItemKey(req.key)]; i.v == Some(v) && i.f == Some(Dec(flags)) && i.cas == cas
    ensures HitOf(req, t.items[ItemKey(req.key)])
      == Response(req.hdr.opcode, 0x0000, req.hdr.opaqueId, cas, BigEndian(flags, 4),
                  if req.hdr.opcode == 0x0c || req.hdr.opcode == 0x0d then req.key else [], v)
  {
    hide BigEndian, FlagsNumber;
    FlagsNumberOf(flags);
  }

  /** The two frames of the stream and what parsing it gives. */
  lemma Frames2(key: Bytes, v: Bytes, flags: nat, exp: nat, opcode: byte) returns (a: Request, b: Request)
    requires |key| <= MAX_KEY_LEN && 8 + |key| + |v| <= MAX_BODY_LEN && flags <= U32_MAX && exp <= U32_MAX
    ensures var stream, second := SetThenRead(key, v, flags, exp, opcode), Frame(opcode, 2, 0, [], key, []);
      && TryParse(stream).Parsed? && TryParse(stream).req == a && stream[TryParse(stream).used..] == second
      && TryParse(second) == Parsed(b, |second|) && second[|second|..] == []
    ensures a.hdr.opcode == 0x01 && a.hdr.opaqueId == 1 && a.hdr.cas == 0 && a.key == key && a.value == v
    ensures a.extras == BigEndian(flags, 4) + BigEndian(exp, 4)
    ensures b.hdr.opcode == opcode && b.hdr.opaqueId == 2 && b.key == key
  {
    hide TryParse, Header24, BigEndian;
    var x, second := BigEndian(flags, 4) + BigEndian(exp, 4), Frame(opcode, 2, 0, [], key, []);
    Widths();
    ParseBuilt(0x01, 1, 0, x, key, v, second);
    ParseBuilt(opcode, 2, 0, [], key, [], []);
    var first := Frame(0x01, 1, 0, x, key, v);
    assert |first| == HEADER_LEN + |x| + |key| + |v| && |second| == HEADER_LEN + |key|;
    hide Frame;
    assert second + [] == second && (first + second)[|first|..] == second;
    a := TryParse(first + second).req;
    b := TryParse(second).req;
  }

  /** An unconditional SET stores the value, the flags as a numeral and a fresh token. */
  lemma SetLaw(s: State, req: Request, flags: nat, exp: nat, stats: Stats)
    requires req.hdr.opcode == 0x01 && req.hdr.cas == 0 && req.extras == BigEndian(flags, 4) + BigEndian(exp, 4)
    requires flags <= U32_MAX && exp <= U32_MAX && !Stale(exp, s.now) && s.counter + 1 < LUA_EXACT
    ensures var a, k := Handle(s, req, stats), ItemKey(req.key);
      && k in a.st.items && a.ok
      && (var i := a.st.items[k]; i.v == Some(req.value) && i.f == Some(Dec(flags)) && i.cas == s.counter + 1)
      && a.out == Encode(Response(0x01, 0x0000, req.hdr.opaqueId, s.counter + 1, [], [], []))
  {
    hide Encode, TokenNumber, Dec, Deadline, Answer, ScriptOf, Responses;
    DecZero(0);
    TokenNumberExactly(s.counter + 1);
    SetParts(s, req, flags, exp, stats);
    EncodesOne(Response(0x01, 0x0000, req.hdr.opaqueId, s.counter + 1, [], [], []));
  }

  lemma SetParts(s: State, req: Request, flags: nat, exp: nat, stats: Stats)
    requires req.hdr.opcode == 0x01 && req.hdr.cas == 0 && req.extras == BigEndian(flags, 4) + BigEndian(exp, 4)
    requires flags <= U32_MAX && exp <= U32_MAX
    ensures ParseOpcode(0x01) == Some(OpSet) && Base(OpSet) == OpSet
    ensures var e := EStore(StoreOp.Set, ItemKey(req.key), req.value, Dec(flags), Dec(0), exp);
      && ScriptOf(OpSet, req) == Some(e)
      && (Step(s, e).r.Done? ==>
            Responses(s, req, stats)
            == [Response(0x01, 0x0000, req.hdr.opaqueId, TokenNumber(Step(s, e).r.cas), [], [], [])])
  {
    hide TokenNumber, BigEndian, FromBigEndian, Dec, Step;
    Widths();
    BigEndianRoundTrip(flags, 4);
    BigEndianRoundTrip(exp, 4);
    assert req.extras[..4] == BigEndian(flags, 4) && req.extras[4..] == BigEndian(exp, 4);
  }

  // ----------------------------------------------------------------------- flags

  /** Flags stored as a numeral come back as the number, 0 above 32 bits. */
  lemma FlagsNumberOf(n: nat)
    ensures FlagsNumber(Dec(n)) == if n <= U32_MAX then n else 0
  {
    ParseDec(n, U32_MAX);
  }

  /** Not zero exactly for texts, with an optional plus sign, of numbers from 1 to 2^32 - 1. */
  lemma FlagsNumberExactly(f: Bytes)
    ensures var d := if f != [] && f[0] as int == '+' as int then f[1..] else f;
      if d != [] && AllDigits(d) && DigitsValue(d) <= 4_294_967_295
      then FlagsNumber(f) == DigitsValue(d) else FlagsNumber(f) == 0
  {
  }

  // ---------------------------------------------------------------------- delete

  /**
   * DELETE and DELETEQ: only a present key whose token, if one is given, is current is removed.
   * A loud success takes a fresh token and answers it; a quiet one is silent and takes none.
   */
  lemma DeleteLaw(s: State, req: Request, stats: Stats)
    requires req.hdr.opcode == 0x04 || req.hdr.opcode == 0x14
    ensures var a, k := Handle(s, req, stats), ItemKey(req.key);
      if k in s.items && (req.hdr.cas == 0 || LuaText(s.items[k].cas) == Dec(req.hdr.cas)) then
        a.st.items == s.items - {k} && a.st.now == s.now
        && (if req.hdr.opcode == 0x04
            then a.st.counter == s.counter + 1
                 && a.out == Encode(Response(0x04, 0x0000, req.hdr.opaqueId, s.counter + 1, [], [], []))
            else a.st.counter == s.counter && a.out == [])
      else
        a.st == s
        && a.out == Encode(Response(req.hdr.opcode, if k in s.items then 0x0002 else 0x0001, req.hdr.opaqueId, 0,
                                    [], [], []))
  {
    hide Encode, TokenNumber, LuaText, Dec, Answer, ScriptOf;
    DecZero(req.hdr.cas);
    var op := if req.hdr.opcode == 0x04 then OpDelete else OpDeleteQ;
    DeleteParts(s, op, req, stats);
    hide FromBigEndian, BigEndian, Ascii;
    var rs := Responses(s, req, stats);
    if rs != [] {
      assert rs == [rs[0]];
      EncodesOne(rs[0]);
    }
    hide EncodeAll;
  }

  lemma DeleteParts(s: State, op: Opcode, req: Request, stats: Stats)
    requires (op == OpDelete && req.hdr.opcode == 0x04) || (op == OpDeleteQ && req.hdr.opcode == 0x14)
    ensures ParseOpcode(req.hdr.opcode) == Some(op) && Base(op) == OpDelete && (IsQuiet(op) <==> op == OpDeleteQ)
    ensures ScriptOf(op, req) == Some(EDelete(ItemKey(req.key), Dec(req.hdr.cas)))
    ensures forall r: Reply, next: nat ::
      Answer(op, req, r, next, stats)
      == if !r.Deleted? then Mutated(op, req, r)
         else if op == OpDeleteQ then [] else [Response(0x04, 0x0000, req.hdr.opaqueId, next, [], [], [])]
  {
    hide Mutated, Dec;
  }

  // ------------------------------------------------------- quiet against loud

  /** A quiet command answers as its loud command, or not at all when there is nothing to report. */
  lemma QuietIsLoud(op: Opcode, req: Request, s: State, r: Reply, next: nat, stats: Stats)
    requires IsQuiet(op) && op != OpQuitQ && FittingReply(op, req, s, r)
    ensures var q, l := Answer(op, req, r, next, stats), Answer(Base(op), req, r, next, stats);
      && |l| == 1
      && q == (if |q| == 0 then [] else [l[0].(opcode := Code(op))])
      && (|q| == 0 <==> GoodArgs(Base(op), req)
                        && if IsQuietRetrieval(op) then r.Miss? else Succeeded(r))
  {
    if GoodArgs(Base(op), req) { ScriptReply(op, req, s, r); }
    RetrievedQuiet(op, req, r);
    MutatedQuiet(op, req, r);
    QuietFamilies(op);
    QuietExactly(op);
    QuietBase(op);
    hide Retrieved, Mutated, Code, FittingReply, Step, ScriptOf, IsQuiet, Base, IsQuietRetrieval, IsQuietMutation;
  }

  lemma QuietBase(op: Opcode)
    ensures Base(Base(op)) == Base(op)
  {
  }

  lemma RetrievedQuiet(op: Opcode, req: Request, r: Reply)
    requires IsQuiet(op)
    ensures var q, l := Retrieved(op, req, r), Retrieved(Base(op), req, r);
      && |l| == 1 && (|q| == 0 <==> !r.Hit?) && (|q| > 0 && IsQuietRetrieval(op) ==> q == [l[0].(opcode := Code(op))])
  {
    hide TokenNumber, FlagsNumber, BigEndian, Code;
  }

  lemma MutatedQuiet(op: Opcode, req: Request, r: Reply)
    requires IsQuiet(op)
    ensures var q, l := Mutated(op, req, r), Mutated(Base(op), req, r);
      && |l| == 1 && (|q| == 0 <==> r.Done? || r.Number?) && (|q| > 0 ==> q == [l[0].(opcode := Code(op))])
  {
    hide TokenNumber, Code, Counters.ReplyBody, Ascii;
  }

  // ------------------------------------------------------------------ statistics

  /** One response per statistic, name in the key and value in the value, then the terminator. */
  lemma StatisticsLaw(req: Request, r: Reply, next: nat, stats: Stats, i: nat)
    requires req.hdr.opcode == 0x10 && req.key == []
    ensures var rs := Answer(OpStat, req, r, next, stats);
      && |rs| == |stats| + 1
      && (i < |stats| ==> rs[i] == Response(0x10, 0x0000, req.hdr.opaqueId, 0, [], stats[i].0, stats[i].1))
      && rs[|stats|] == Response(0x10, 0x0000, req.hdr.opaqueId, 0, [], [], [])
  {
  }

  // ---------------------------------------------------------------- refused frames

  /** The header of a request frame, whatever its length fields say, and n bytes of body. */
  function Raw(opcode: byte, keyLen: nat, extrasLen: nat, bodyLen: nat, opaqueId: nat, cas: nat): Bytes {
    Header24(0x80, opcode, keyLen, extrasLen, 0, bodyLen, opaqueId, cas)
  }

  /** A key over 250 bytes or a body over 20 MiB is refused by its header alone. */
  lemma OversizedLaw(opcode: byte, keyLen: nat, extrasLen: nat, bodyLen: nat, opaqueId: nat, cas: nat, rest: Bytes)
    requires keyLen < 65_536 && extrasLen < 256 && Fits32(bodyLen) && Fits32(opaqueId)
    requires keyLen > 250 || bodyLen > 20_971_520
    ensures TryParse(Raw(opcode, keyLen, extrasLen, bodyLen, opaqueId, cas) + rest) == Oversized(opaqueId, opcode)
  {
    RawHeader(opcode, keyLen, extrasLen, bodyLen, opaqueId, cas, rest);
    hide ParseHeader, Header24;
  }

  /** Extras and key longer than the body: the whole frame is skipped, no more and no less. */
  lemma MalformedLaw(opcode: byte, keyLen: nat, extrasLen: nat, body: Bytes, opaqueId: nat, cas: nat, rest: Bytes)
    requires keyLen <= 250 && extrasLen < 256 && |body| <= 20_971_520 && Fits32(opaqueId)
    requires extrasLen + keyLen > |body|
    ensures var b := Raw(opcode, keyLen, extrasLen, |body|, opaqueId, cas) + body + rest;
      TryParse(b) == Malformed(opaqueId, opcode, 24 + |body|) && b[24 + |body|..] == rest
  {
    var h := Raw(opcode, keyLen, extrasLen, |body|, opaqueId, cas);
    Widths();
    RawHeader(opcode, keyLen, extrasLen, |body|, opaqueId, cas, body + rest);
    hide ParseHeader, Header24;
    assert h + body + rest == h + (body + rest);
  }

  lemma RawHeader(opcode: byte, keyLen: nat, extrasLen: nat, bodyLen: nat, opaqueId: nat, cas: nat, rest: Bytes)
    requires keyLen < 65_536 && extrasLen < 256 && Fits32(bodyLen) && Fits32(opaqueId)
    ensures var b := Raw(opcode, keyLen, extrasLen, bodyLen, opaqueId, cas) + rest;
      && |b| == 24 + |rest| && b[0] == 0x80
      && var h := ParseHeader(b);
         h.opcode == opcode && h.keyLen == keyLen && h.extrasLen == extrasLen && h.bodyLen == bodyLen
         && h.opaqueId == opaqueId
  {
    hide BigEndian, FromBigEndian, Header24, Pow256;
    Widths();
    HeaderFields(0x80, opcode, keyLen, extrasLen, 0, bodyLen, opaqueId, cas, rest);
    BigEndianRoundTrip(keyLen, 2);
    BigEndianRoundTrip(bodyLen, 4);
    BigEndianRoundTrip(opaqueId, 4);
  }

  const MALFORMED: Bytes := Ascii("Malformed frame")
  const TOO_LARGE: Bytes := Ascii("Frame too large")

  /** A malformed frame is answered by status 4, and the session goes on behind it. */
  lemma MalformedServed(s: State, b: Bytes, stats: Stats)
    requires TryParse(b).Malformed?
    ensures var r, p := BinaryConn.Serve(Handler(stats), s, b), TryParse(b);
      var x := BinaryConn.Serve(Handler(stats), s, b[p.skip..]);
      && r.out == Encode(Response(p.opcode, 0x0004, p.opaqueId, 0, [], [], MALFORMED)) + x.out
      && r.st == x.st && r.stop == x.stop
  {
    hide TryParse, Encode, Ascii, Handle;
  }

  /** An oversized frame is answered by status 4 and ends the session; bad magic just ends it. */
  lemma RefusedServed(s: State, b: Bytes, stats: Stats)
    ensures var r, p := BinaryConn.Serve(Handler(stats), s, b), TryParse(b);
      && (p.Oversized? ==>
            r.out == Encode(Response(p.opcode, 0x0004, p.opaqueId, 0, [], [], TOO_LARGE))
            && r.st == s && r.stop.TooBig?)
      && (p.BadMagic? ==> r.out == [] && r.st == s && r.stop.BadStart?)
  {
    hide TryParse, Encode, Ascii, Handle;
  }

  // ------------------------------------------------------------- arguments, constants

  /** The extras a command byte demands: 8 bytes to store, 20 to count, 4 to touch, none to extend. */
  predicate WrongExtras(b: byte, n: nat) {
    || ((b == 0x01 || b == 0x02 || b == 0x03 || b == 0x11 || b == 0x12 || b == 0x13) && n != 8)
    || ((b == 0x05 || b == 0x06 || b == 0x15 || b == 0x16) && n != 20)
    || ((b == 0x1c || b == 0x1d || b == 0x1e) && n != 4)
    || ((b == 0x0e || b == 0x0f || b == 0x19 || b == 0x1a) && n != 0)
  }

  lemma ArgumentTable(op: Opcode, req: Request)
    requires req.hdr.opcode == Code(op)
    ensures !GoodArgs(Base(op), req) <==> WrongExtras(req.hdr.opcode, |req.extras|)
    ensures ParseOpcode(req.hdr.opcode) == Some(op)
  {
  }

  /** Wrong extras are answered by status 4, quiet or not, and change nothing. */
  lemma WrongExtrasLaw(s: State, req: Request, stats: Stats)
    requires WrongExtras(req.hdr.opcode, |req.extras|)
    ensures var a := Handle(s, req, stats);
      && a.st == s && a.ok
      && a.out == Encode(Response(req.hdr.opcode, 0x0004, req.hdr.opaqueId, 0, [], [], []))
  {
    hide Encode, ParseOpcode, Code, GoodArgs, Base, ScriptOf;
    KnownByte(req.hdr.opcode, |req.extras|);
    var op := ParseOpcode(req.hdr.opcode).value;
    ByteRoundTrip(req.hdr.opcode);
    ArgumentTable(op, req);
    NoScript(op, req);
    hide WrongExtras;
    var rs := Responses(s, req, stats);
    assert rs == [Simple(op, req, ST_ARGS, 0, [])];
    EncodesOne(rs[0]);
  }

  lemma KnownByte(b: byte, n: nat)
    requires WrongExtras(b, n)
    ensures ParseOpcode(b).Some? && Base(ParseOpcode(b).value) != OpQuit
  {
  }

  lemma NoScript(op: Opcode, req: Request)
    ensures !GoodArgs(Base(op), req) ==> ScriptOf(op, req) == None
  {
    hide Base, GoodArgs;
  }

  const VERSION_NUMBER: Bytes := Ascii("RedCouch 0.1.0")
  const MECHANISM: Bytes := Ascii("PLAIN")
  const ACCEPTED: Bytes := Ascii("Authenticated")
  const OTHER_MECHANISM: Bytes := Ascii("Unsupported SASL mechanism")
  const NOT_A_STEP: Bytes := Ascii("SASL step not expected for PLAIN mechanism")
  const NOT_A_NUMBER: Bytes := Ascii("Non-numeric value")
  const NO_SUCH_COMMAND: Bytes := Ascii("Unknown command")

  /** The status and body of the commands that do not touch the store, by their bytes. */
  function FixedAnswer(b: byte, key: Bytes): Option<(nat, Bytes)> {
    if b == 0x0a || b == 0x1b then Some((0x0000, []))
    else if b == 0x0b then Some((0x0000, VERSION_NUMBER))
    else if b == 0x20 then Some((0x0000, MECHANISM))
    else if b == 0x21 then (if key == MECHANISM then Some((0x0000, ACCEPTED)) else Some((0x0020, OTHER_MECHANISM)))
    else if b == 0x22 then Some((0x0020, NOT_A_STEP))
    else if b == 0x1f || b > 0x22 then Some((0x0081, NO_SUCH_COMMAND))
    else None
  }

  lemma FixedAnswers(s: State, req: Request, stats: Stats)
    requires FixedAnswer(req.hdr.opcode, req.key).Some?
    ensures var (status, body) := FixedAnswer(req.hdr.opcode, req.key).value;
      var a := Handle(s, req, stats);
      && a.st == s && a.ok
      && a.out == Encode(Response(req.hdr.opcode, status, req.hdr.opaqueId, 0, [], [], body))
  {
    hide Encode, Ascii, Answer, FixedAnswer, ParseOpcode, ScriptOf, Base, EncodeAll;
    FixedResponses(s, req, stats);
    var (status, body) := FixedAnswer(req.hdr.opcode, req.key).value;
    EncodesOne(Response(req.hdr.opcode, status, req.hdr.opaqueId, 0, [], [], body));
  }

  lemma FixedResponses(s: State, req: Request, stats: Stats)
    requires FixedAnswer(req.hdr.opcode, req.key).Some?
    ensures var (status, body) := FixedAnswer(req.hdr.opcode, req.key).value;
      Responses(s, req, stats) == [Response(req.hdr.opcode, status, req.hdr.opaqueId, 0, [], [], body)]
    ensures var o := ParseOpcode(req.hdr.opcode);
      o.Some? ==> Execute(s, o.value, req).s == s && Base(o.value) != OpQuit
  {
    hide Ascii, ParseOpcode, Code, Execute, Answer, Base, FixedAnswer;
    var o := ParseOpcode(req.hdr.opcode);
    FixedBytes(req.hdr.opcode, req.key);
    if o.Some? {
      FixedIdle(s, o.value, req);
      FixedKnown(o.value, req, Execute(s, o.value, req).r, Execute(s, o.value, req).s.counter, stats);
    } else {
      UnknownByte(req.hdr.opcode, req.key);
    }
  }

  lemma FixedIdle(s: State, op: Opcode, req: Request)
    requires op in {OpNoop, OpVerbosity, OpVersion, OpSaslListMechs, OpSaslAuth, OpSaslStep}
    ensures Execute(s, op, req).s == s && Base(op) != OpQuit
  {
  }

  lemma UnknownByte(b: byte, key: Bytes)
    requires FixedAnswer(b, key).Some? && ParseOpcode(b).None?
    ensures FixedAnswer(b, key) == Some((0x0081, UNKNOWN_COMMAND))
  {
    FixedBytes(b, key);
    hide Ascii, ParseOpcode;
  }

  lemma FixedBytes(b: byte, key: Bytes)
    requires FixedAnswer(b, key).Some?
    ensures ParseOpcode(b).Some? <==> b != 0x1f && b <= 0x22
    ensures ParseOpcode(b).Some? ==>
      ParseOpcode(b).value in {OpNoop, OpVerbosity, OpVersion, OpSaslListMechs, OpSaslAuth, OpSaslStep}
      && Code(ParseOpcode(b).value) == b
  {
  }

  lemma FixedKnown(op: Opcode, req: Request, r: Reply, next: nat, stats: Stats)
    requires op in {OpNoop, OpVerbosity, OpVersion, OpSaslListMechs, OpSaslAuth, OpSaslStep}
    requires Code(op) == req.hdr.opcode
    ensures FixedAnswer(req.hdr.opcode, req.key).Some?
    ensures var (status, body) := FixedAnswer(req.hdr.opcode, req.key).value;
      Answer(op, req, r, next, stats) == [Response(req.hdr.opcode, status, req.hdr.opaqueId, 0, [], [], body)]
  {
    hide Ascii;
  }

  /** The body of the answer to arithmetic on a value that is not a number. */
  lemma NonNumericBody(op: Opcode, req: Request)
    ensures Mutated(op, req, NonNumeric)
      == [Response(Code(op), 0x0004, req.hdr.opaqueId, 0, [], [], NOT_A_NUMBER)]
  {
  }

  /** Sizes of the protocol and of the connection loop. */
  lemma Limits()
    ensures HEADER_LEN == 24 && MAX_KEY_LEN == 250 && MAX_BODY_LEN == 20_971_520
    ensures BinaryConn.READ_SIZE == 16_384 && BinaryConn.MAX_READ_BUF == 20_975_640
    ensures BinaryConn.MAX_READ_BUF == MAX_BODY_LEN + 4_120
  {
  }
}
