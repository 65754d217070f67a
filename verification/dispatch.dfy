// Binary requests: which script each runs, what it answers, and what a pipelined batch
// of them puts on the wire.

module BinaryDispatch {
  import opened ByteStrings
  import opened Doubles
  import opened Frames
  import opened StoreSpec
  import RedisScripts
  import opened TextTokens
  import Counters
  import BinaryConn

  const ST_OK: nat := 0x0000
  const ST_NF: nat := 0x0001
  const ST_IX: nat := 0x0002
  const ST_ARGS: nat := 0x0004
  const ST_NOT_STORED: nat := 0x0005
  const ST_AUTH_ERROR: nat := 0x0020
  const ST_UNK: nat := 0x0081

  const VERSION_TEXT: Bytes := Ascii("RedCouch 0.1.0")
  const PLAIN: Bytes := Ascii("PLAIN")
  const AUTHENTICATED: Bytes := Ascii("Authenticated")
  const UNSUPPORTED: Bytes := Ascii("Unsupported SASL mechanism")
  const NO_STEP: Bytes := Ascii("SASL step not expected for PLAIN mechanism")
  const NON_NUMERIC: Bytes := Ascii("Non-numeric value")
  const UNKNOWN_COMMAND: Bytes := Ascii("Unknown command")

  // ------------------------------------------------------------------- opcodes

  datatype Opcode =
    | OpGet | OpSet | OpAdd | OpReplace | OpDelete | OpIncrement | OpDecrement | OpQuit | OpFlush
    | OpGetQ | OpNoop | OpVersion | OpGetK | OpGetKQ | OpAppend | OpPrepend | OpStat
    | OpSetQ | OpAddQ | OpReplaceQ | OpDeleteQ | OpIncrementQ | OpDecrementQ | OpQuitQ | OpFlushQ
    | OpAppendQ | OpPrependQ | OpVerbosity | OpTouch | OpGat | OpGatQ
    | OpSaslListMechs | OpSaslAuth | OpSaslStep

  function ParseOpcode(b: byte): Option<Opcode> {
    match b as int
    case 0x00 => Some(OpGet) case 0x01 => Some(OpSet) case 0x02 => Some(OpAdd)
    case 0x03 => Some(OpReplace) case 0x04 => Some(OpDelete) case 0x05 => Some(OpIncrement)
    case 0x06 => Some(OpDecrement) case 0x07 => Some(OpQuit) case 0x08 => Some(OpFlush)
    case 0x09 => Some(OpGetQ) case 0x0a => Some(OpNoop) case 0x0b => Some(OpVersion)
    case 0x0c => Some(OpGetK) case 0x0d => Some(OpGetKQ) case 0x0e => Some(OpAppend)
    case 0x0f => Some(OpPrepend) case 0x10 => Some(OpStat) case 0x11 => Some(OpSetQ)
    case 0x12 => Some(OpAddQ) case 0x13 => Some(OpReplaceQ) case 0x14 => Some(OpDeleteQ)
    case 0x15 => Some(OpIncrementQ) case 0x16 => Some(OpDecrementQ) case 0x17 => Some(OpQuitQ)
    case 0x18 => Some(OpFlushQ) case 0x19 => Some(OpAppendQ) case 0x1a => Some(OpPrependQ)
    case 0x1b => Some(OpVerbosity) case 0x1c => Some(OpTouch) case 0x1d => Some(OpGat)
    case 0x1e => Some(OpGatQ) case 0x20 => Some(OpSaslListMechs) case 0x21 => Some(OpSaslAuth)
    case 0x22 => Some(OpSaslStep)
    case _ => None
  }

  /** `opcode as u8`. */
  function Code(op: Opcode): byte {
    match op
    case OpGet => 0x00 case OpSet => 0x01 case OpAdd => 0x02 case OpReplace => 0x03
    case OpDelete => 0x04 case OpIncrement => 0x05 case OpDecrement => 0x06 case OpQuit => 0x07
    case OpFlush => 0x08 case OpGetQ => 0x09 case OpNoop => 0x0a case OpVersion => 0x0b
    case OpGetK => 0x0c case OpGetKQ => 0x0d case OpAppend => 0x0e case OpPrepend => 0x0f
    case OpStat => 0x10 case OpSetQ => 0x11 case OpAddQ => 0x12 case OpReplaceQ => 0x13
    case OpDeleteQ => 0x14 case OpIncrementQ => 0x15 case OpDecrementQ => 0x16 case OpQuitQ => 0x17
    case OpFlushQ => 0x18 case OpAppendQ => 0x19 case OpPrependQ => 0x1a case OpVerbosity => 0x1b
    case OpTouch => 0x1c case OpGat => 0x1d case OpGatQ => 0x1e case OpSaslListMechs => 0x20
    case OpSaslAuth => 0x21 case OpSaslStep => 0x22
  }

  function Base(op: Opcode): Opcode {
    match op
    case OpSetQ => OpSet case OpAddQ => OpAdd case OpReplaceQ => OpReplace case OpDeleteQ => OpDelete
    case OpIncrementQ => OpIncrement case OpDecrementQ => OpDecrement case OpQuitQ => OpQuit
    case OpFlushQ => OpFlush case OpGetQ => OpGet case OpGetKQ => OpGetK case OpAppendQ => OpAppend
    case OpPrependQ => OpPrepend case OpGatQ => OpGat
    case other => other
  }

  predicate IsQuiet(op: Opcode) {
    op in {OpGetQ, OpGetKQ, OpSetQ, OpAddQ, OpReplaceQ, OpDeleteQ, OpIncrementQ, OpDecrementQ,
           OpQuitQ, OpFlushQ, OpAppendQ, OpPrependQ, OpGatQ}
  }

  predicate IncludesKey(op: Opcode) { op in {OpGetK, OpGetKQ, OpGat, OpGatQ} }

  lemma CodeRoundTrip(op: Opcode)
    ensures ParseOpcode(Code(op)) == Some(op)
  {
  }

  lemma ByteRoundTrip(b: byte)
    ensures ParseOpcode(b).Some? ==> Code(ParseOpcode(b).value) == b
  {
  }

  lemma QuietExactly(op: Opcode)
    ensures IsQuiet(op) <==> Base(op) != op
    ensures !IsQuiet(Base(op))
  {
  }

  /** Opcodes and their bytes determine each other; quiet opcodes are those with another base. */
  lemma OpcodeRoundTrip(op: Opcode, b: byte)
    ensures ParseOpcode(Code(op)) == Some(op)
    ensures ParseOpcode(b) == Some(op) <==> Code(op) == b
    ensures IsQuiet(op) <==> Base(op) != op
    ensures !IsQuiet(Base(op))
  {
    hide ParseOpcode, Code, IsQuiet, Base;
    CodeRoundTrip(op);
    ByteRoundTrip(b);
    QuietExactly(op);
  }

  predicate IsQuietRetrieval(op: Opcode) { op in {OpGetQ, OpGetKQ, OpGatQ} }

  predicate IsQuietMutation(op: Opcode) { IsQuiet(op) && !IsQuietRetrieval(op) && op != OpQuitQ }

  // ------------------------------------------------------------------ requests

  function StoreOpOf(base: Opcode): StoreOp {
    if base == OpAdd then StoreOp.Add else if base == OpReplace then StoreOp.Replace else StoreOp.Set
  }

  /** The length of extras a command insists on. */
  predicate GoodArgs(base: Opcode, req: Request) {
    match base
    case OpSet => |req.extras| == 8
    case OpAdd => |req.extras| == 8
    case OpReplace => |req.extras| == 8
    case OpIncrement => |req.extras| == 20
    case OpDecrement => |req.extras| == 20
    case OpTouch => |req.extras| == 4
    case OpGat => |req.extras| == 4
    case OpAppend => req.extras == []
    case OpPrepend => req.extras == []
    case _ => true
  }

  /** The script a request runs. */
  function ScriptOf(op: Opcode, req: Request): Option<Event> {
    var base := Base(op);
    var k := RedisScripts.MakeRedisKey(req.key);
    var cas := Dec(req.hdr.cas);
    if !GoodArgs(base, req) then None
    else
      match base
      case OpGet => Some(EGet(k))
      case OpGetK => Some(EGet(k))
      case OpSet => Some(StoreEvent(base, k, req, cas))
      case OpAdd => Some(StoreEvent(base, k, req, cas))
      case OpReplace => Some(StoreEvent(base, k, req, cas))
      case OpDelete => Some(EDelete(k, cas))
      case OpIncrement => Some(CounterEvent(k, req, false))
      case OpDecrement => Some(CounterEvent(k, req, true))
      case OpTouch => Some(ETouch(k, FromBigEndian(req.extras)))
      case OpGat => Some(EGat(k, FromBigEndian(req.extras)))
      case OpAppend => Some(EExtend(k, req.value, cas, false))
      case OpPrepend => Some(EExtend(k, req.value, cas, true))
      case OpFlush => Some(EFlush)
      case _ => None
  }

  function StoreEvent(base: Opcode, k: Bytes, req: Request, cas: Bytes): Event
    requires |req.extras| == 8
  {
    EStore(StoreOpOf(base), k, req.value, Dec(FromBigEndian(req.extras[..4])), cas,
           FromBigEndian(req.extras[4..]))
  }

  function CounterEvent(k: Bytes, req: Request, decr: bool): Event
    requires |req.extras| == 20
  {
    ECounter(k, FromBigEndian(req.extras[..8]), decr, Dec(FromBigEndian(req.extras[8..16])),
             FromBigEndian(req.extras[16..]))
  }

  /** `cas_string.parse::<u64>().unwrap_or(0)`: 0 for tokens from 10^14 on. */
  function TokenNumber(cas: nat): nat {
    var n := ParseUint(LuaText(cas), U64_MAX);
    if n.Some? then n.value else 0
  }

  /** A binary client is told the token exactly below 10^14, and 0 ("no token") from there on. */
  lemma TokenNumberExactly(cas: nat)
    ensures TokenNumber(cas) == if cas < LUA_EXACT then cas else 0
  {
    if cas < LUA_EXACT {
      LuaTextExact(cas);
      ParseDec(cas, U64_MAX);
    } else {
      SmallExact(LUA_EXACT);
      ToDoubleMono(LUA_EXACT, cas);
      var d := ToDouble(cas);
      DigitsMono(LUA_EXACT, d);
      ScientificIsNotDecimal(d);
      assert LuaText(cas) == Scientific(d);
      assert IsDigit(Dec(Leading14(d))[0]);
      hide LuaText, Dec;
      assert Scientific(d)[0] == Dec(Leading14(d))[0];
    }
  }

  function FlagsNumber(f: Bytes): nat {
    var n := ParseUint(f, U32_MAX);
    if n.Some? then n.value else 0
  }

  // ------------------------------------------------------------------- answers

  function Simple(op: Opcode, req: Request, status: nat, cas: nat, body: Bytes): Response {
    Response(Code(op), status, req.hdr.opaqueId, cas, [], [], body)
  }

  function HitResponse(op: Opcode, req: Request, v: Bytes, f: Bytes, cas: nat): Response {
    Response(Code(op), ST_OK, req.hdr.opaqueId, TokenNumber(cas), BigEndian(FlagsNumber(f), 4),
             if IncludesKey(op) then req.key else [], v)
  }

  /** The success answer of a mutation: suppressed by the quiet variant. */
  function Loud(op: Opcode, r: Response): seq<Response> { if IsQuiet(op) then [] else [r] }

  /**
   * The responses to a request whose script replied r.  `next` is the counter value a loud
   * successful DELETE fetches in its second step; `stats` are the general statistics.
   */
  function Answer(op: Opcode, req: Request, r: Reply, next: nat, stats: seq<(Bytes, Bytes)>): seq<Response> {
    var base := Base(op);
    if !GoodArgs(base, req) then [Simple(op, req, ST_ARGS, 0, [])]
    else
      match base
      case OpGet => Retrieved(op, req, r)
      case OpGetK => Retrieved(op, req, r)
      case OpGat => Retrieved(op, req, r)
      case OpSet => Mutated(op, req, r)
      case OpAdd => Mutated(op, req, r)
      case OpReplace => Mutated(op, req, r)
      case OpAppend => Mutated(op, req, r)
      case OpPrepend => Mutated(op, req, r)
      case OpTouch => Mutated(op, req, r)
      case OpIncrement => Mutated(op, req, r)
      case OpDecrement => Mutated(op, req, r)
      case OpDelete =>
        if r.Deleted? then Loud(op, Simple(op, req, ST_OK, next, [])) else Mutated(op, req, r)
      case OpFlush => Loud(op, Simple(op, req, ST_OK, 0, []))
      case OpQuit => Loud(op, Simple(op, req, ST_OK, 0, []))
      case OpStat => Statistics(op, req, if GeneralStats(req) then stats else [])
      case OpVersion => [Simple(op, req, ST_OK, 0, VERSION_TEXT)]
      case OpSaslListMechs => [Simple(op, req, ST_OK, 0, PLAIN)]
      case OpSaslAuth =>
        if req.key == PLAIN then [Simple(op, req, ST_OK, 0, AUTHENTICATED)]
        else [Simple(op, req, ST_AUTH_ERROR, 0, UNSUPPORTED)]
      case OpSaslStep =>
        [Simple(op, req, ST_AUTH_ERROR, 0, NO_STEP)]
      case _ => [Simple(op, req, ST_OK, 0, [])]
  }

  function Retrieved(op: Opcode, req: Request, r: Reply): seq<Response> {
    match r
    case Hit(v, f, cas) => [HitResponse(op, req, v, f, cas)]
    case _ => if IsQuiet(op) then [] else [Simple(op, req, ST_NF, 0, [])]
  }

  function Mutated(op: Opcode, req: Request, r: Reply): seq<Response> {
    match r
    case Done(cas) => Loud(op, Simple(op, req, ST_OK, TokenNumber(cas), []))
    case Number(text, cas) => Loud(op, Simple(op, req, ST_OK, TokenNumber(cas), Counters.ReplyBody(text)))
    case Exists => [Simple(op, req, ST_IX, 0, [])]
    case NotStored => [Simple(op, req, ST_NOT_STORED, 0, [])]
    case NonNumeric => [Simple(op, req, ST_ARGS, 0, NON_NUMERIC)]
    case _ => [Simple(op, req, ST_NF, 0, [])]
  }

  /** `from_utf8(key).unwrap_or("")` is empty: also for a key that is not UTF-8. */
  predicate GeneralStats(req: Request) { req.key == [] || !IsUtf8(req.key) }

  /** A STAT key that is not UTF-8 gets the general statistics; an unknown group only the end. */
  lemma StatKeyExample(req: Request, r: Reply, next: nat, stats: seq<(Bytes, Bytes)>)
    ensures req.key == [0xFF] ==> |Answer(OpStat, req, r, next, stats)| == |stats| + 1
    ensures req.key == Ascii("items") ==> |Answer(OpStat, req, r, next, stats)| == 1
  {
    hide Code;
    if req.key == Ascii("items") { AsciiIsUtf8(req.key); }
  }

  /** With any statistics at all, a STAT is answered generally exactly for these keys. */
  lemma GeneralStatsExactly(req: Request, r: Reply, next: nat, stats: seq<(Bytes, Bytes)>)
    requires stats != []
    ensures |Answer(OpStat, req, r, next, stats)| == |stats| + 1 <==> req.key == [] || !IsUtf8(req.key)
  {
    hide Code, IsUtf8;
  }

  function Statistics(op: Opcode, req: Request, stats: seq<(Bytes, Bytes)>): seq<Response> {
    seq(|stats|, i requires 0 <= i < |stats| =>
      Response(Code(op), ST_OK, req.hdr.opaqueId, 0, [], stats[i].0, stats[i].1))
    + [Simple(op, req, ST_OK, 0, [])]
  }

  // ---------------------------------------------------------------- discipline

  /** Did the reply report success of a mutation? */
  predicate Succeeded(r: Reply) { r.Done? || r.Number? || r.Deleted? || r.Flushed? }

  /** How many responses the protocol promises for a request other than STAT and QUIT. */
  function Promised(op: Opcode, req: Request, r: Reply): nat {
    var bad := !GoodArgs(Base(op), req);
    if IsQuietRetrieval(op) then (if bad || r.Hit? then 1 else 0)
    else if IsQuietMutation(op) then (if bad || !Succeeded(r) then 1 else 0)
    else 1
  }

  /** The replies a request's script can give. */
  predicate FittingReply(op: Opcode, req: Request, s: State, r: Reply) {
    match ScriptOf(op, req)
    case Some(e) => r == Step(s, e).r
    case None => true
  }

  /** Every response echoes the request; their number is the promised one. */
  lemma AnswerDiscipline(op: Opcode, req: Request, s: State, r: Reply, next: nat, stats: seq<(Bytes, Bytes)>)
    requires ParseOpcode(req.hdr.opcode) == Some(op) && FittingReply(op, req, s, r)
    ensures var rs := Answer(op, req, r, next, stats);
      && (forall i :: 0 <= i < |rs| ==> rs[i].opcode == req.hdr.opcode && rs[i].opaqueId == req.hdr.opaqueId)
      && (Base(op) != OpStat && Base(op) != OpQuit ==> |rs| == Promised(op, req, r))
      && (Base(op) == OpQuit ==> |rs| == if IsQuiet(op) then 0 else 1)
      && (Base(op) == OpStat ==> EndsWithTerminator(rs))
  {
    OpcodeRoundTrip(op, req.hdr.opcode);
    hide ScriptOf, Step, ParseOpcode, Code, Base, IsQuiet, Answer, Promised, FittingReply;
    AnswerEchoes(op, req, r, next, stats);
    AnswerEnds(op, req, r, next, stats);
    if Base(op) != OpStat && Base(op) != OpQuit { AnswerCount(op, req, s, r, next, stats); }
  }

  lemma AnswerEchoes(op: Opcode, req: Request, r: Reply, next: nat, stats: seq<(Bytes, Bytes)>)
    ensures Echoes(Answer(op, req, r, next, stats), op, req)
  {
    hide Retrieved, Mutated, Statistics, IsQuiet, GoodArgs, Code;
    RetrievedShape(op, req, r);
    MutatedShape(op, req, r);
    StatisticsShape(op, req, if GeneralStats(req) then stats else []);
  }

  lemma AnswerEnds(op: Opcode, req: Request, r: Reply, next: nat, stats: seq<(Bytes, Bytes)>)
    ensures Base(op) == OpQuit ==> |Answer(op, req, r, next, stats)| == if IsQuiet(op) then 0 else 1
    ensures Base(op) == OpStat ==> EndsWithTerminator(Answer(op, req, r, next, stats))
  {
  }

  lemma AnswerCount(op: Opcode, req: Request, s: State, r: Reply, next: nat, stats: seq<(Bytes, Bytes)>)
    requires FittingReply(op, req, s, r) && Base(op) != OpStat && Base(op) != OpQuit
    ensures |Answer(op, req, r, next, stats)| == Promised(op, req, r)
  {
    QuietFamilies(op);
    RetrievedShape(op, req, r);
    MutatedShape(op, req, r);
    if GoodArgs(Base(op), req) { ScriptReply(op, req, s, r); }
    hide Retrieved, Mutated, Statistics, IsQuiet, IsQuietRetrieval, IsQuietMutation, Code, Echoes;
    hide FittingReply, Step, ScriptOf;
  }

  /** The loud commands with a quiet variant. */
  lemma QuietFamilies(op: Opcode)
    ensures IsQuietRetrieval(op) <==> IsQuiet(op) && Base(op) in {OpGet, OpGetK, OpGat}
    ensures IsQuietMutation(op) <==>
      IsQuiet(op)
      && Base(op) in {OpSet, OpAdd, OpReplace, OpDelete, OpIncrement, OpDecrement, OpAppend, OpPrepend, OpFlush}
    ensures IsQuiet(op) ==> IsQuietRetrieval(op) || IsQuietMutation(op) || Base(op) == OpQuit
  {
  }

  predicate Echoes(rs: seq<Response>, op: Opcode, req: Request) {
    forall i :: 0 <= i < |rs| ==> rs[i].opcode == Code(op) && rs[i].opaqueId == req.hdr.opaqueId
  }

  lemma RetrievedShape(op: Opcode, req: Request, r: Reply)
    ensures var rs := Retrieved(op, req, r);
      Echoes(rs, op, req) && |rs| == if r.Hit? || !IsQuiet(op) then 1 else 0
  {
  }

  lemma MutatedShape(op: Opcode, req: Request, r: Reply)
    ensures var rs := Mutated(op, req, r);
      Echoes(rs, op, req) && |rs| == if (r.Done? || r.Number?) && IsQuiet(op) then 0 else 1
  {
  }

  lemma StatisticsShape(op: Opcode, req: Request, stats: seq<(Bytes, Bytes)>)
    ensures Echoes(Statistics(op, req, stats), op, req) && EndsWithTerminator(Statistics(op, req, stats))
  {
  }

  /**
   * The response to a loud request tells what its script replied: the status says which kind
   * of reply it was, and the fields hold its value, flags, number and token.
   */
  lemma AnswerTells(op: Opcode, req: Request, s: State, r: Reply, next: nat, stats: seq<(Bytes, Bytes)>)
    requires FittingReply(op, req, s, r) && ScriptOf(op, req).Some? && !IsQuiet(op)
    ensures |Answer(op, req, r, next, stats)| == 1
    ensures Tells(op, req, r, next, Answer(op, req, r, next, stats)[0])
  {
    ScriptReply(op, req, s, r);
    RetrievedTells(op, req, r);
    MutatedTells(op, req, r);
    hide FittingReply, Step, Code, IsQuiet, Base, Retrieved, Mutated, Tells;
  }

  /** What a single response says about the reply. */
  predicate Tells(op: Opcode, req: Request, r: Reply, next: nat, x: Response) {
    && (x.status == ST_NF <==> r.Miss?) && (x.status == ST_IX <==> r.Exists?)
    && (x.status == ST_NOT_STORED <==> r.NotStored?) && (x.status == ST_ARGS <==> r.NonNumeric?)
    && (x.status == ST_OK <==> Succeeded(r) || r.Hit?)
    && (r.Hit? ==> x.value == r.v && FromBigEndian(x.extras) == FlagsNumber(r.f)
                   && x.cas == TokenNumber(r.cas) && x.key == if IncludesKey(op) then req.key else [])
    && (r.Done? ==> x.cas == TokenNumber(r.cas))
    && (r.Number? ==> x.cas == TokenNumber(r.cas) && x.value == Counters.ReplyBody(r.text))
    && (r.Deleted? ==> x.cas == next)
  }

  lemma RetrievedTells(op: Opcode, req: Request, r: Reply)
    requires !IsQuiet(op)
    ensures r.Hit? || r.Miss? ==>
      |Retrieved(op, req, r)| == 1 && forall next: nat :: Tells(op, req, r, next, Retrieved(op, req, r)[0])
  {
    hide TokenNumber, BigEndian, FromBigEndian, Code, IsQuiet, FlagsNumber;
    if r.Hit? { FlagsBack(r.f); }
  }

  lemma MutatedTells(op: Opcode, req: Request, r: Reply)
    requires !IsQuiet(op)
    ensures r.Done? || r.Number? || r.Miss? || r.Exists? || r.NotStored? || r.NonNumeric? ==>
      |Mutated(op, req, r)| == 1 && forall next: nat :: Tells(op, req, r, next, Mutated(op, req, r)[0])
  {
    hide TokenNumber, Code, IsQuiet, FlagsNumber, FromBigEndian, IncludesKey, Counters.ReplyBody, Ascii;
  }

  lemma FlagsBack(f: Bytes)
    ensures FromBigEndian(BigEndian(FlagsNumber(f), 4)) == FlagsNumber(f)
  {
    Widths();
    BigEndianRoundTrip(FlagsNumber(f), 4);
  }

  /** The kinds of reply each family of commands can get. */
  lemma ScriptReply(op: Opcode, req: Request, s: State, r: Reply)
    requires FittingReply(op, req, s, r) && GoodArgs(Base(op), req)
    ensures Base(op) in {OpGet, OpGetK, OpGat} ==> r.Hit? || r.Miss?
    ensures Base(op) in {OpSet, OpAdd, OpReplace, OpAppend, OpPrepend, OpTouch} ==>
              r.Done? || r.Miss? || r.Exists? || r.NotStored?
    ensures Base(op) in {OpIncrement, OpDecrement} ==> r.Number? || r.Miss? || r.NonNumeric?
    ensures Base(op) == OpDelete ==> r.Deleted? || r.Miss? || r.Exists?
    ensures Base(op) == OpFlush ==> r.Flushed?
  {
    hide Step, Dec, FromBigEndian;
    match ScriptOf(op, req) {
      case Some(e) => StepReply(s, e);
      case None =>
    }
  }

  lemma StepReply(s: State, e: Event)
    ensures var r := Step(s, e).r;
      match e
      case EGet(_) => r.Hit? || r.Miss?
      case EGat(_, _) => r.Hit? || r.Miss?
      case EStore(_, _, _, _, _, _) => r.Done? || r.Miss? || r.Exists?
      case EExtend(_, _, _, _) => r.Done? || r.NotStored? || r.Exists?
      case ETouch(_, _) => r.Done? || r.Miss?
      case ECounter(_, _, _, _, _) => r.Number? || r.Miss? || r.NonNumeric?
      case EDelete(_, _) => r.Deleted? || r.Miss? || r.Exists?
      case EFlush => r.Flushed?
      case _ => true
  {
  }

  /** STAT's framing: the last response has an empty key and an empty value. */
  predicate EndsWithTerminator(rs: seq<Response>) {
    rs != [] && rs[|rs| - 1].key == [] && rs[|rs| - 1].value == []
  }

  // --------------------------------------------------------------- connections

  /** A request's effect on the store; a loud successful DELETE takes a second step. */
  function Execute(s: State, op: Opcode, req: Request): Outcome {
    match ScriptOf(op, req)
    case None => Outcome(s, Elapsed)
    case Some(e) =>
      var o := Step(s, e);
      if Base(op) == OpDelete && o.r.Deleted? && !IsQuiet(op) then Outcome(NextCas(o.s).s, o.r) else o
  }

  function Responses(s: State, req: Request, stats: seq<(Bytes, Bytes)>): seq<Response> {
    match ParseOpcode(req.hdr.opcode)
    case None => [Response(req.hdr.opcode, ST_UNK, req.hdr.opaqueId, 0, [], [], UNKNOWN_COMMAND)]
    case Some(op) => Answer(op, req, Execute(s, op, req).r, Execute(s, op, req).s.counter, stats)
  }

  /** `handle`: QUIT is the only request that ends the connection. */
  function Handle(s: State, req: Request, stats: seq<(Bytes, Bytes)>): BinaryConn.Answer<State> {
    var out := EncodeAll(Responses(s, req, stats));
    match ParseOpcode(req.hdr.opcode)
    case None => BinaryConn.Answer(s, out, true)
    case Some(op) => BinaryConn.Answer(Execute(s, op, req).s, out, Base(op) != OpQuit)
  }

  function Handler(stats: seq<(Bytes, Bytes)>): BinaryConn.Handler<State> {
    (s: State, req: Request) => Handle(s, req, stats)
  }

  /** A handled or rejected frame with its responses. */
  datatype Group = Group(frame: BinaryConn.Seen, s: State, rs: seq<Response>)

  function Rejection(x: BinaryConn.Seen, text: Bytes): seq<Response>
    requires x.Rejected?
  {
    [Response(x.opcode, ST_ARGS, x.opaqueId, 0, [], [], text)]
  }

  /** The responses to a stream, frame by frame in request order. */
  function Groups(s: State, b: Bytes, stats: seq<(Bytes, Bytes)>): seq<Group>
    decreases |b|
  {
    var p := TryParse(b);
    match p
    case Incomplete => []
    case BadMagic => []
    case Parsed(req, used) =>
      var a := Handle(s, req, stats);
      [Group(BinaryConn.Handled(req), s, Responses(s, req, stats))]
      + if a.ok then Groups(a.st, b[used..], stats) else []
    case Malformed(id, opcode, skip) =>
      var x := BinaryConn.Rejected(opcode, id);
      [Group(x, s, Rejection(x, Ascii("Malformed frame")))] + Groups(s, b[skip..], stats)
    case Oversized(id, opcode) =>
      var x := BinaryConn.Rejected(opcode, id);
      [Group(x, s, Rejection(x, Ascii("Frame too large")))]
  }

  function Flatten(gs: seq<Group>): seq<Response> {
    if gs == [] then [] else gs[0].rs + Flatten(gs[1..])
  }

  lemma {:induction false} GroupsAreTheSession(s: State, b: Bytes, stats: seq<(Bytes, Bytes)>)
    ensures var x := BinaryConn.Serve(Handler(stats), s, b);
      var gs := Groups(s, b, stats);
      && x.out == EncodeAll(Flatten(gs))
      && |x.seen| == |gs| && (forall i :: 0 <= i < |gs| ==> gs[i].frame == x.seen[i])
    decreases |b|
  {
    assert EncodeAll([]) == [];
    if !TryParse(b).Incomplete? && !TryParse(b).BadMagic? {
      var x, gs := BinaryConn.Front(Handler(stats), s, b), Groups(s, b, stats);
      GroupStep(s, b, stats);
      hide TryParse, BinaryConn.Front, Handler, Groups, Encode, EncodeAll;
      if x.stop.End? {
        GroupsAreTheSession(x.st, x.rest, stats);
        EncodeAllAppend(gs[0].rs, Flatten(gs[1..]));
      } else {
        assert gs[0].rs + [] == gs[0].rs;
      }
    }
  }

  /** The first frame and its responses; the rest goes on from what they leave. */
  lemma GroupStep(s: State, b: Bytes, stats: seq<(Bytes, Bytes)>)
    requires !TryParse(b).Incomplete? && !TryParse(b).BadMagic?
    ensures var x, gs := BinaryConn.Front(Handler(stats), s, b), Groups(s, b, stats);
      && gs != [] && x.seen == [gs[0].frame] && x.out == EncodeAll(gs[0].rs)
      && gs[1..] == if x.stop.End? then Groups(x.st, x.rest, stats) else []
  {
    hide TryParse, Handle, Encode, EncodeAll, Responses;
    HandleOutput(s, b, stats);
  }

  lemma HandleOutput(s: State, b: Bytes, stats: seq<(Bytes, Bytes)>)
    requires !TryParse(b).Incomplete? && !TryParse(b).BadMagic?
    ensures BinaryConn.Front(Handler(stats), s, b).out == EncodeAll(Groups(s, b, stats)[0].rs)
    ensures TryParse(b).Parsed? ==>
      BinaryConn.Front(Handler(stats), s, b).st == Handle(s, TryParse(b).req, stats).st
  {
    hide TryParse, Encode, Responses, Execute;
  }

  /** Each group of responses is what the protocol promises for its frame. */
  ghost predicate Disciplined(g: Group) {
    match g.frame
    case Rejected(opcode, id) =>
      |g.rs| == 1 && g.rs[0].opcode == opcode && g.rs[0].opaqueId == id && g.rs[0].status == ST_ARGS
    case Handled(req) =>
      && (forall i :: 0 <= i < |g.rs| ==> g.rs[i].opcode == req.hdr.opcode && g.rs[i].opaqueId == req.hdr.opaqueId)
      && match ParseOpcode(req.hdr.opcode)
         case None => |g.rs| == 1 && g.rs[0].status == ST_UNK
         case Some(op) =>
           && (Base(op) == OpStat ==> EndsWithTerminator(g.rs))
           && (Base(op) == OpQuit ==> |g.rs| == if IsQuiet(op) then 0 else 1)
           && (Base(op) != OpStat && Base(op) != OpQuit ==> |g.rs| == Promised(op, req, Execute(g.s, op, req).r))
  }

  lemma {:induction false} PipeliningDiscipline(s: State, b: Bytes, stats: seq<(Bytes, Bytes)>)
    ensures forall i :: 0 <= i < |Groups(s, b, stats)| ==> Disciplined(Groups(s, b, stats)[i])
    decreases |b|
  {
    hide TryParse, Handle, Disciplined;
    var gs := Groups(s, b, stats);
    match TryParse(b) {
      case Parsed(req, used) =>
        HandledDiscipline(s, req, stats);
        var a := Handle(s, req, stats);
        if a.ok { PipeliningDiscipline(a.st, b[used..], stats); }
      case Malformed(id, opcode, skip) =>
        RejectedDiscipline(s, BinaryConn.Rejected(opcode, id), Ascii("Malformed frame"));
        PipeliningDiscipline(s, b[skip..], stats);
      case Oversized(id, opcode) =>
        RejectedDiscipline(s, BinaryConn.Rejected(opcode, id), Ascii("Frame too large"));
      case _ =>
    }
  }

  lemma HandledDiscipline(s: State, req: Request, stats: seq<(Bytes, Bytes)>)
    ensures Disciplined(Group(BinaryConn.Handled(req), s, Responses(s, req, stats)))
  {
    hide ScriptOf, Answer, Step, Promised;
    var o := ParseOpcode(req.hdr.opcode);
    if o.Some? {
      var e := Execute(s, o.value, req);
      AnswerDiscipline(o.value, req, s, e.r, e.s.counter, stats);
    }
  }

  lemma RejectedDiscipline(s: State, x: BinaryConn.Seen, text: Bytes)
    requires x.Rejected?
    ensures Disciplined(Group(x, s, Rejection(x, text)))
  {
  }

  // ------------------------------------------------------------ dropped responses

  lemma {:induction false} NoResponses(gs: seq<Group>)
    ensures EncodeAll(Flatten(gs)) == [] <==> forall i :: 0 <= i < |gs| ==> gs[i].rs == []
  {
    hide Encode;
    if gs != [] {
      NoResponses(gs[1..]);
      EncodeAllAppend(gs[0].rs, Flatten(gs[1..]));
      EncodesSomething(gs[0].rs);
      assert forall i :: 0 < i < |gs| ==> gs[i] == gs[1..][i - 1];
    }
  }

  lemma EncodesSomething(rs: seq<Response>)
    ensures EncodeAll(rs) == [] <==> rs == []
  {
    if rs != [] { assert |Encode(rs[0])| >= HEADER_LEN; }
  }

  /** The responses to the frames completed by the last read of a connection. */
  function LastGroups(s: State, buf: Bytes, chunks: seq<Bytes>, stats: seq<(Bytes, Bytes)>, n: nat): seq<Group>
    requires n <= |chunks|
  {
    if n == 0 then Groups(s, buf, stats)
    else
      var x := BinaryConn.After(Handler(stats), s, buf, chunks, n - 1);
      Groups(x.st, x.rest + chunks[n - 1], stats)
  }

  /**
   * A connection that ends on bad magic or QUIT loses the responses to the frames completed by
   * its last read, no more and no less; it loses nothing exactly when there are none.
   */
  lemma DroppedResponses(s: State, buf: Bytes, chunks: seq<Bytes>, stats: seq<(Bytes, Bytes)>)
    requires BinaryConn.Drops(BinaryConn.Loop(Handler(stats), s, buf, chunks))
    ensures var c := BinaryConn.Loop(Handler(stats), s, buf, chunks);
      var r := BinaryConn.Serve(Handler(stats), s, buf + BinaryConn.Joined(chunks));
      c.used <= |chunks| &&
      var gs := LastGroups(s, buf, chunks, stats, c.used);
      && r.out == c.written + EncodeAll(Flatten(gs))
      && (c.written == r.out <==> forall i :: 0 <= i < |gs| ==> gs[i].rs == [])
  {
    hide BinaryConn.Serve, BinaryConn.After, BinaryConn.Loop, Groups, Flatten, EncodeAll, Handler;
    var h, n := Handler(stats), BinaryConn.Loop(Handler(stats), s, buf, chunks).used;
    BinaryConn.LoopConforms(h, s, buf, chunks);
    BinaryConn.DroppedExactly(h, s, buf, chunks);
    NoResponses(LastGroups(s, buf, chunks, stats, n));
    if n == 0 {
      GroupsAreTheSession(s, buf, stats);
    } else {
      var x := BinaryConn.After(h, s, buf, chunks, n - 1);
      GroupsAreTheSession(x.st, x.rest + chunks[n - 1], stats);
    }
  }

  /** The last frame is a QUIT, and it has a response if it is loud. */
  ghost predicate EndsInQuit(gs: seq<Group>) {
    gs != [] && gs[|gs| - 1].frame.Handled?
    && var o := ParseOpcode(gs[|gs| - 1].frame.req.hdr.opcode);
       o.Some? && Base(o.value) == OpQuit && (!IsQuiet(o.value) ==> gs[|gs| - 1].rs != [])
  }

  /** Only QUIT makes the handler fail, and it is the last frame handled. */
  lemma {:induction false} QuitEnds(s: State, b: Bytes, stats: seq<(Bytes, Bytes)>)
    requires BinaryConn.Serve(Handler(stats), s, b).stop.HandlerErr?
    ensures EndsInQuit(Groups(s, b, stats))
    decreases |b|
  {
    hide TryParse, Encode, EncodeAll, Answer, Execute, ParseOpcode, Base, IsQuiet;
    var x := BinaryConn.Front(Handler(stats), s, b);
    if x.stop.End? {
      GroupStep(s, b, stats);
      QuitEnds(x.st, x.rest, stats);
    } else {
      GroupStep(s, b, stats);
      var req := TryParse(b).req;
      QuitAnswer(s, req, stats);
    }
  }

  lemma QuitAnswer(s: State, req: Request, stats: seq<(Bytes, Bytes)>)
    requires !Handle(s, req, stats).ok
    ensures var o := ParseOpcode(req.hdr.opcode);
      o.Some? && Base(o.value) == OpQuit && (!IsQuiet(o.value) ==> Responses(s, req, stats) != [])
  {
    hide ParseOpcode, Code, IsQuiet, Base, Execute;
  }

  /** A loud QUIT's own response is never sent, however the stream is split into reads. */
  lemma QuitNeverAnswered(s: State, buf: Bytes, chunks: seq<Bytes>, stats: seq<(Bytes, Bytes)>)
    requires BinaryConn.Loop(Handler(stats), s, buf, chunks).end == BinaryConn.Closed(BinaryConn.HandlerErr)
    ensures var c := BinaryConn.Loop(Handler(stats), s, buf, chunks);
      var r := BinaryConn.Serve(Handler(stats), s, buf + BinaryConn.Joined(chunks));
      c.used <= |chunks| &&
      var gs := LastGroups(s, buf, chunks, stats, c.used);
      && gs != [] && gs[|gs| - 1].frame.Handled? && r.out == c.written + EncodeAll(Flatten(gs))
      && var o := ParseOpcode(gs[|gs| - 1].frame.req.hdr.opcode);
         o.Some? && Base(o.value) == OpQuit
         && (!IsQuiet(o.value) ==> gs[|gs| - 1].rs != [] && c.written != r.out)
  {
    hide BinaryConn.Serve, BinaryConn.After, BinaryConn.Loop, Groups, Flatten, EncodeAll, Handler, IsQuiet, Base;
    hide ParseOpcode, LastGroups;
    DroppedResponses(s, buf, chunks, stats);
    LastEnds(s, buf, chunks, stats, BinaryConn.Loop(Handler(stats), s, buf, chunks).used);
  }

  lemma LastEnds(s: State, buf: Bytes, chunks: seq<Bytes>, stats: seq<(Bytes, Bytes)>, n: nat)
    requires BinaryConn.Loop(Handler(stats), s, buf, chunks).end == BinaryConn.Closed(BinaryConn.HandlerErr)
    requires n == BinaryConn.Loop(Handler(stats), s, buf, chunks).used && n <= |chunks|
    ensures EndsInQuit(LastGroups(s, buf, chunks, stats, n))
  {
    LastStops(s, buf, chunks, stats);
    hide BinaryConn.Serve, BinaryConn.After, BinaryConn.Loop, Groups, Handler, EndsInQuit;
    if n == 0 {
      QuitEnds(s, buf, stats);
    } else {
      var x := BinaryConn.After(Handler(stats), s, buf, chunks, n - 1);
      QuitEnds(x.st, x.rest + chunks[n - 1], stats);
    }
  }

  lemma LastStops(s: State, buf: Bytes, chunks: seq<Bytes>, stats: seq<(Bytes, Bytes)>)
    requires BinaryConn.Loop(Handler(stats), s, buf, chunks).end == BinaryConn.Closed(BinaryConn.HandlerErr)
    ensures var c := BinaryConn.Loop(Handler(stats), s, buf, chunks);
      c.used <= |chunks| && BinaryConn.LastBatch(Handler(stats), s, buf, chunks, c.used).stop.HandlerErr?
  {
    hide BinaryConn.Serve, BinaryConn.After, BinaryConn.Reads, BinaryConn.Refused, Handler;
    var h, n := Handler(stats), BinaryConn.Reads(Handler(stats), s, buf, chunks, 0);
    BinaryConn.ReadsEnd(h, s, buf, chunks);
    if n == 0 { BinaryConn.AfterStart(h, s, buf, chunks); } else { BinaryConn.AfterNext(h, s, buf, chunks, n - 1); }
  }

  const NOOP_FRAME: Bytes := Frame(0x0a, 1, 0, [], [], [])
  const QUIT_FRAME: Bytes := Frame(0x07, 2, 0, [], [], [])

  /**
   * The same bytes, NOOP and QUIT, in one read and in two: in one read nothing is sent, in two
   * the NOOP is answered, and either way the QUIT is not.
   */
  lemma ReadsMatter(s: State, stats: seq<(Bytes, Bytes)>)
    ensures var one, two := [NOOP_FRAME + QUIT_FRAME], [NOOP_FRAME, QUIT_FRAME];
      var h := Handler(stats);
      var noop := Response(0x0a, ST_OK, 1, 0, [], [], []);
      var quit := Response(0x07, ST_OK, 2, 0, [], [], []);
      && BinaryConn.Joined(one) == BinaryConn.Joined(two)
      && BinaryConn.Serve(h, s, BinaryConn.Joined(one)).out == Encode(noop) + Encode(quit)
      && BinaryConn.Loop(h, s, [], one).written == []
      && BinaryConn.Loop(h, s, [], two).written == Encode(noop)
  {
    var one, two := [NOOP_FRAME + QUIT_FRAME], [NOOP_FRAME, QUIT_FRAME];
    var h := Handler(stats);
    NoopThenQuit(s, stats);
    hide Handler, Encode, Frame, BinaryConn.Serve;
    BinaryConn.EmptyServe(h, s);
    AfterReads(h, s, NOOP_FRAME, QUIT_FRAME);
    hide BinaryConn.After, BinaryConn.Joined;
    assert BinaryConn.Reads(h, s, [], one, 1) == 1;
    assert BinaryConn.Reads(h, s, [], two, 2) == 2;
  }

  lemma AfterReads<S>(h: BinaryConn.Handler<S>, st: S, a: Bytes, b: Bytes)
    ensures var one, two := [a + b], [a, b];
      && BinaryConn.Joined(one) == a + b == BinaryConn.Joined(two)
      && BinaryConn.After(h, st, [], one, 0) == BinaryConn.Serve(h, st, [])
      && BinaryConn.After(h, st, [], two, 0) == BinaryConn.Serve(h, st, [])
      && BinaryConn.After(h, st, [], one, 1) == BinaryConn.Serve(h, st, a + b)
      && BinaryConn.After(h, st, [], two, 1) == BinaryConn.Serve(h, st, a)
      && BinaryConn.After(h, st, [], two, 2) == BinaryConn.Serve(h, st, a + b)
  {
    hide BinaryConn.Serve;
    var one, two := [a + b], [a, b];
    assert one[..1] == one && one[..0] == [] && two[..2] == two && two[..1] == [a] && two[..0] == [];
    assert [] + [a + b] == one && [] + [a] == [a] && [a] + [b] == two;
    BinaryConn.EmptyJoined();
    BinaryConn.JoinedSnoc([], a + b);
    BinaryConn.JoinedSnoc([], a);
    BinaryConn.JoinedSnoc([a], b);
    hide BinaryConn.Joined;
    assert [] + (a + b) == a + b && [] + a == a;
    BinaryConn.AfterStart(h, st, [], one);
    BinaryConn.AfterStart(h, st, [], two);
  }

  lemma NoopThenQuit(s: State, stats: seq<(Bytes, Bytes)>)
    ensures var h := Handler(stats);
      var noop := Response(0x0a, ST_OK, 1, 0, [], [], []);
      var quit := Response(0x07, ST_OK, 2, 0, [], [], []);
      var both := BinaryConn.Serve(h, s, NOOP_FRAME + QUIT_FRAME);
      var first := BinaryConn.Serve(h, s, NOOP_FRAME);
      && |NOOP_FRAME| == 24 && |QUIT_FRAME| == 24
      && first.stop.End? && first.out == Encode(noop) && first.rest == []
      && both.stop.HandlerErr? && both.out == Encode(noop) + Encode(quit)
  {
    hide TryParse, Encode, Frame, Handle, BinaryConn.Serve;
    var h := Handler(stats);
    ExampleFrames();
    NoopHandled(s, TryParse(NOOP_FRAME).req, stats);
    QuitHandled(s, TryParse(QUIT_FRAME).req, stats);
    BinaryConn.ServeParsed(h, s, NOOP_FRAME + QUIT_FRAME);
    BinaryConn.ServeParsed(h, s, NOOP_FRAME);
    BinaryConn.ServeParsed(h, s, QUIT_FRAME);
    BinaryConn.EmptyServe(h, s);
    assert Encode(Response(0x0a, ST_OK, 1, 0, [], [], [])) + [] == Encode(Response(0x0a, ST_OK, 1, 0, [], [], []));
  }

  lemma ExampleFrames()
    ensures |NOOP_FRAME| == 24 && |QUIT_FRAME| == 24
    ensures var noop := Request(Header(0x0a, 0, 0, 0, 1, 0), [], [], []);
      && TryParse(NOOP_FRAME) == Parsed(noop, 24) && NOOP_FRAME[24..] == []
      && TryParse(NOOP_FRAME + QUIT_FRAME) == Parsed(noop, 24) && (NOOP_FRAME + QUIT_FRAME)[24..] == QUIT_FRAME
      && TryParse(QUIT_FRAME) == Parsed(Request(Header(0x07, 0, 0, 0, 2, 0), [], [], []), 24)
  {
    hide TryParse, Header24;
    Widths();
    ParseBuilt(0x0a, 1, 0, [], [], [], QUIT_FRAME);
    ParseBuilt(0x0a, 1, 0, [], [], [], []);
    ParseBuilt(0x07, 2, 0, [], [], [], []);
    hide Frame;
    assert NOOP_FRAME + [] == NOOP_FRAME && QUIT_FRAME + [] == QUIT_FRAME;
  }

  lemma NoopHandled(s: State, req: Request, stats: seq<(Bytes, Bytes)>)
    requires req.hdr.opcode == 0x0a
    ensures Handle(s, req, stats)
      == BinaryConn.Answer(s, Encode(Response(0x0a, ST_OK, req.hdr.opaqueId, 0, [], [], [])), true)
  {
    hide Encode;
    var rs := Responses(s, req, stats);
    assert rs == [Response(0x0a, ST_OK, req.hdr.opaqueId, 0, [], [], [])] && rs[1..] == [];
    assert EncodeAll(rs) == Encode(rs[0]) + EncodeAll([]) == Encode(rs[0]);
  }

  lemma QuitHandled(s: State, req: Request, stats: seq<(Bytes, Bytes)>)
    requires req.hdr.opcode == 0x07
    ensures Handle(s, req, stats)
      == BinaryConn.Answer(s, Encode(Response(0x07, ST_OK, req.hdr.opaqueId, 0, [], [], [])), false)
  {
    hide Encode;
    var rs := Responses(s, req, stats);
    assert rs == [Response(0x07, ST_OK, req.hdr.opaqueId, 0, [], [], [])] && rs[1..] == [];
    assert EncodeAll(rs) == Encode(rs[0]) + EncodeAll([]) == Encode(rs[0]);
  }
}
