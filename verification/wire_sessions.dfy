// From bytes to bytes: what clients of the three protocols send, what they read back, and why
// it does not matter which protocol carries a command.

module WireSessions {
  import opened ByteStrings
  import opened Doubles
  import opened StoreSpec
  import opened FrontEnds
  import opened Wire
  import opened WireReplies
  import Runs
  import A = AsciiCommands
  import M = MetaCommands
  import B = BinaryDispatch
  import F = Frames
  import H = MetaHandlers
  import S = TextSession
  import T = Retrieval
  import R = RedisScripts
  import Sizes = BinarySizes
  import Handlers = BinaryHandlers
  import BinaryConn
  import TextConn

  // ------------------------------------------------------------------- readiness

  /** Bytes of room a command may use up, whichever protocol carries it. */
  function Cost(op: Op): nat { 300 + |DataOf(op)| }

  /** A store that can serve n more commands of `room` bytes with tokens and values in range. */
  ghost predicate Ready(s: State, room: nat, n: nat) {
    Runs.TokenInv(s) && T.PlainFlags(s) && Sizes.Roomy(s, room) && s.counter + 2 * n < LUA_EXACT
  }

  lemma LessReady(s: State, room: nat, n: nat, room': nat, n': nat)
    requires Ready(s, room, n) && room' <= room && n' <= n
    ensures Ready(s, room', n')
  {
    Sizes.LessRoom(s, room, room');
  }

  /** A fresh store is ready for almost 4 GiB of commands. */
  lemma FreshReady(time: nat, room: nat, n: nat)
    requires room + 300 <= 0x1_0000_0000 && 2 * n < LUA_EXACT
    ensures Ready(State(map[], 0, time), room, n)
  {
    F.Widths();
  }

  lemma CanonSized(op: Op, token: nat)
    requires Fits(op) && !op.Pass?
    ensures Sizes.Sized(Canon(op, token), Cost(op)) && T.PlainEvent(Canon(op, token))
  {
    hide Dec, R.MakeRedisKey;
    Numerals();
    if op.Put? || op.CasPut? { T.DigitsAreField(op.flags); }
  }

  /** Serving a command leaves the store ready for the rest. */
  lemma CarriedReady(s: State, op: Op, p: Protocol, token: nat, room: nat, n: nat)
    requires Sendable(op, p, token) && n > 0 && Ready(s, Cost(op) + room, n)
    ensures Ready(Carried(s, op, p, token).s, room, n - 1)
  {
    hide Step, Canon, ToBinary, ToClassic, ToMeta, Runs.TokenInv, Sizes.Sized, T.PlainEvent, Carries;
    var t, u := Step(s, Canon(op, token)).s, Carried(s, op, p, token).s;
    match p {
      case Binary(q) => BinaryMeans(s, op, q, token);
      case ClassicText(q) => ClassicMeans(s, op, q, token);
      case MetaText(q) => MetaMeans(s, op, q, token);
    }
    hide Carried;
    CanonSized(op, token);
    Sizes.StepRoom(s, Canon(op, token), Cost(op), room);
    T.StepPlainFlags(s, Canon(op, token));
    Runs.StepTokens(s, Canon(op, token));
    CounterOnly(t, u);
  }

  lemma TickReady(s: State, dt: nat, room: nat, n: nat)
    requires Ready(s, room, n)
    ensures Ready(Tick(s, dt).s, room, n)
  {
    Runs.StepTokens(s, ETick(dt));
    T.StepPlainFlags(s, ETick(dt));
  }

  // --------------------------------------------------------------------- replies

  predicate Loud(p: Protocol) { !p.quiet }

  lemma BinaryCost(op: Op, q: bool, token: nat)
    requires Sendable(op, Binary(q), token)
    ensures |Encoding(op, Binary(q), token)| <= Cost(op)
  {
    hide F.Header24, BigEndian;
  }

  /**
   * The reply to a loud command reads back, whatever follows it, as the outcome the command
   * deserves in that state, as far as the protocol can tell.
   */
  lemma ReplyTells(s: State, op: Op, p: Protocol, token: nat, texts: S.Texts, rest: Bytes)
    requires Sendable(op, p, token) && Loud(p) && Ready(s, Cost(op), 1) && Sizes.SmallStats(texts.stats)
    requires NeedsToken(op) ==> token > 0
    ensures ReadReply(op, p, Output(s, op, p, token, texts) + rest)
      == Some((Through(op, p, LessonOf(s, op, Accepts(s, KeyOf(op), token))), rest))
  {
    hide ReadReply, Output, LessonOf, Step, Canon, Runs.TokenInv, T.PlainFlags, Encoding, Carries, Fits, Expressible;
    CanonLesson(s, op, token);
    match p {
      case Binary(q) =>
        BinaryCost(op, q, token);
        Sizes.LessRoom(s, Cost(op), |Encoding(op, p, token)|);
        BinaryReply(s, op, token, texts, rest);
      case ClassicText(q) => ClassicReply(s, op, token, texts, rest);
      case MetaText(q) => MetaReply(s, op, token, texts, rest);
    }
  }

  lemma CommonThrough(op: Op, p: Protocol, x: Lesson)
    ensures Common(op, Through(op, p, x)) == Common(op, x)
  {
    hide Dec, NumberIn, B.FlagsNumber;
    NumericTwice(x);
  }

  /**
   * Two clients of similar stores send one command over any two protocols, loud.  What they
   * read off the bytes of their replies is the same, as far as all protocols can tell: failed
   * sets, adds and replaces are told apart by none but binary, and flags and numbers are those
   * of the binary fields.
   */
  lemma SameOnTheWire(c: Client, d: Client, op: Op, p: Protocol, q: Protocol, texts: S.Texts, rest: Bytes)
    requires Similar(c, d) && (NeedsToken(op) ==> op.k in c.mem)
    requires Sendable(op, p, Remembered(c, op)) && Sendable(op, q, Remembered(d, op)) && Loud(p) && Loud(q)
    requires Ready(c.s, Cost(op), 1) && Ready(d.s, Cost(op), 1) && Sizes.SmallStats(texts.stats)
    ensures var x := ReadReply(op, p, Output(c.s, op, p, Remembered(c, op), texts) + rest);
      var y := ReadReply(op, q, Output(d.s, op, q, Remembered(d, op), texts) + rest);
      && x.Some? && y.Some? && x.value.1 == y.value.1 == rest
      && Common(op, x.value.0) == Common(op, y.value.0)
  {
    hide ReadReply, Output, LessonOf, Runs.TokenInv, Ready, Sendable, Common, Through, Accepts, SameOrder, Remembered;
    AcceptsAgree(c, d, op);
    ReplyTells(c.s, op, p, Remembered(c, op), texts, rest);
    ReplyTells(d.s, op, q, Remembered(d, op), texts, rest);
    LessonsAgree(c.s, d.s, op, Accepts(c.s, KeyOf(op), Remembered(c, op)));
    var x := LessonOf(c.s, op, Accepts(c.s, KeyOf(op), Remembered(c, op)));
    CommonThrough(op, p, x);
    CommonThrough(op, q, x);
  }

  // ------------------------------------------------------------ pipelined sessions

  /** A session of protocol p over the bytes b: the final store and the output. */
  function Converse(s: State, p: Protocol, b: Bytes, texts: S.Texts): (State, Bytes) {
    if p.Binary? then
      var x := BinaryConn.Serve(B.Handler(texts.stats), s, b);
      (x.st, x.out)
    else
      var x := TextConn.Serve(S.Handler(texts), s, b);
      (x.st, x.out)
  }

  /** A command at the front of the stream: its state and output, then the rest of the session. */
  lemma FrontServed(s: State, op: Op, p: Protocol, token: nat, rest: Bytes, texts: S.Texts)
    requires Sendable(op, p, token)
    ensures var after := Carried(s, op, p, token).s;
      var (st, out) := Converse(after, p, rest, texts);
      Converse(s, p, Encoding(op, p, token) + rest, texts) == (st, Output(s, op, p, token, texts) + out)
  {
    hide Encoding, Output, Carried, BinaryConn.Serve, TextConn.Serve, ToBinary, ToClassic, ToMeta, Carries, Fits;
    match p {
      case Binary(q) => BinaryServed(s, op, q, token, rest, texts);
      case ClassicText(q) => ClassicServed(s, op, q, token, rest, texts);
      case MetaText(q) => MetaServed(s, op, q, token, rest, texts);
    }
  }

  lemma NothingServed(s: State, p: Protocol, texts: S.Texts)
    ensures Converse(s, p, [], texts) == (s, [])
  {
    hide B.Handle, S.Handle;
    BinaryConn.EmptyServe(B.Handler(texts.stats), s);
    TextConn.NoLine([]);
  }

  /** Commands with the tokens they present. */
  type Script = seq<(Op, nat)>

  predicate AllSendable(cs: Script, p: Protocol) {
    forall i :: 0 <= i < |cs| ==> Sendable(cs[i].0, p, cs[i].1) && (NeedsToken(cs[i].0) ==> cs[i].1 > 0)
  }

  function AllBytes(cs: Script, p: Protocol): Bytes
    requires AllSendable(cs, p)
  {
    if cs == [] then [] else Encoding(cs[0].0, p, cs[0].1) + AllBytes(cs[1..], p)
  }

  function TotalCost(cs: Script): nat { if cs == [] then 0 else Cost(cs[0].0) + TotalCost(cs[1..]) }

  /** The outcomes the commands deserve, one after the other. */
  function Lessons(s: State, cs: Script, p: Protocol): seq<Lesson>
    decreases |cs|
  {
    if cs == [] then []
    else
      var (op, token) := cs[0];
      [Through(op, p, LessonOf(s, op, Accepts(s, KeyOf(op), token)))]
      + Lessons(Carried(s, op, p, token).s, cs[1..], p)
  }

  /** A client reads one reply after the other. */
  function ReadAll(cs: Script, p: Protocol, b: Bytes): Option<(seq<Lesson>, Bytes)>
    decreases |cs|
  {
    if cs == [] then Some(([], b))
    else
      match ReadReply(cs[0].0, p, b)
      case None => None
      case Some((x, rest)) =>
        match ReadAll(cs[1..], p, rest)
        case None => None
        case Some((xs, end)) => Some(([x] + xs, end))
  }

  /**
   * A client that pipelines loud commands over one connection reads off the whole output, to
   * its last byte, the outcome of each command in order.
   */
  lemma {:induction false} PipelinedLessons(s: State, cs: Script, p: Protocol, texts: S.Texts)
    requires AllSendable(cs, p) && Loud(p) && Ready(s, TotalCost(cs), |cs|) && Sizes.SmallStats(texts.stats)
    ensures ReadAll(cs, p, Converse(s, p, AllBytes(cs, p), texts).1) == Some((Lessons(s, cs, p), []))
    decreases |cs|
  {
    hide Ready, Sendable, Encoding, Output, Carried, LessonOf, ReadReply, Through, Converse, Accepts;
    if cs == [] {
      NothingServed(s, p, texts);
    } else {
      var (op, token) := cs[0];
      var after := Carried(s, op, p, token).s;
      FrontServed(s, op, p, token, AllBytes(cs[1..], p), texts);
      LessReady(s, TotalCost(cs), |cs|, Cost(op), 1);
      ReplyTells(s, op, p, token, texts, Converse(after, p, AllBytes(cs[1..], p), texts).1);
      CarriedReady(s, op, p, token, TotalCost(cs[1..]), |cs|);
      PipelinedLessons(after, cs[1..], p, texts);
    }
  }

  // ---------------------------------------------------------------- tokens read

  /** The token a client finds in the reply to a read, loud or quiet. */
  function TokenSeen(p: Protocol, out: Bytes): Option<nat> {
    match p
    case Binary(_) =>
      (match F.Decode(out)
       case None => None
       case Some((x, _)) => if x.status == B.ST_OK then Some(x.cas) else None)
    case ClassicText(_) =>
      (match T.Decode(out, true)
       case None => None
       case Some((xs, _)) => if xs == [] || xs[0].token.None? then None else ParseUint(xs[0].token.value, U64_MAX))
    case MetaText(_) =>
      match H.ReadMsg(out)
      case None => None
      case Some((m, _)) => if m.block.None? then None else ParseUint(WordOf(m.words, H.CH_LC), U64_MAX)
  }

  lemma BinaryToken(s: State, op: Op, q: bool, token: nat, texts: S.Texts)
    requires Sendable(op, Binary(q), token) && Reads(op) && Ready(s, Cost(op), 1) && Sizes.SmallStats(texts.stats)
    ensures TokenSeen(Binary(q), Output(s, op, Binary(q), token, texts))
      == TokenOf(Carried(s, op, Binary(q), token).r)
  {
    hide B.ScriptOf, Canon, Step, Encoding, Sizes.Fitting, Sizes.Roomy, B.ParseOpcode, B.Answer, B.Responses, B.Execute;
    hide F.Decode, F.Encode, F.TryParse, F.EncodeAll, Carries, ToBinary, T.PlainFlags, Runs.TokenInv;
    var (code, req) := ToBinary(op, q, token).value;
    ReadRequest(op, q, token);
    BinaryCost(op, q, token);
    Sizes.LessRoom(s, Cost(op), |Encoding(op, Binary(q), token)|);
    Sizes.ResponsesSized(s, req, texts.stats, |Encoding(op, Binary(q), token)|);
    CanonReply(s, op, token);
    ReadAnswer(s, code, req, Canon(op, token), texts.stats);
    var r := Step(s, Canon(op, token)).r;
    var rs := B.Responses(s, req, texts.stats);
    if rs != [] {
      assert rs == [rs[0]];
      Handlers.OneResponse(rs[0]);
      F.DecodeEncoded(rs[0], []);
      assert F.Encode(rs[0]) + [] == F.Encode(rs[0]);
      if r.Hit? { TokenBelow(s, op, token); B.TokenNumberExactly(r.cas); }
    } else {
      NothingDecodes();
    }
  }

  lemma NothingDecodes()
    ensures F.EncodeAll([]) == [] && F.Decode([]).None? && H.ReadMsg([]).None?
  {
  }

  lemma ReadRequest(op: Op, q: bool, token: nat)
    requires Sendable(op, Binary(q), token) && Reads(op)
    ensures var (code, req) := ToBinary(op, q, token).value;
      && B.ScriptOf(code, req) == Some(Canon(op, token)) && B.ParseOpcode(req.hdr.opcode) == Some(code)
      && B.Base(code) in {B.OpGetK, B.OpGat}
      && Sizes.Fitting(req, |Encoding(op, Binary(q), token)|)
  {
    hide B.ScriptOf, ToBinary, Encoding, Sizes.Fitting, B.ParseOpcode, F.TryParse, Carries, B.Base;
    BinaryFrame(op, q, token, []);
    BinaryScript(op, q, token);
    SizesFit(op, q, token);
    ReadCode(op, q, token);
  }

  lemma ReadCode(op: Op, q: bool, token: nat)
    requires Reads(op)
    ensures B.Base(ToBinary(op, q, token).value.0) in {B.OpGetK, B.OpGat}
  {
  }

  /** A read is answered by one response, or by none: a quiet miss. */
  lemma ReadAnswer(s: State, code: B.Opcode, req: F.Request, e: Event, stats: seq<(Bytes, Bytes)>)
    requires B.ParseOpcode(req.hdr.opcode) == Some(code) && B.ScriptOf(code, req) == Some(e)
    requires B.Base(code) in {B.OpGetK, B.OpGat} && (Step(s, e).r.Hit? || Step(s, e).r.Miss?)
    ensures var rs, r := B.Responses(s, req, stats), Step(s, e).r;
      && |rs| <= 1 && (r.Hit? ==> |rs| == 1 && rs[0].status == B.ST_OK && rs[0].cas == B.TokenNumber(r.cas))
      && (r.Miss? && |rs| == 1 ==> rs[0].status != B.ST_OK)
      && B.Execute(s, code, req).r == r
  {
    hide Step, B.TokenNumber, B.FlagsNumber, B.ParseOpcode, B.IsQuiet, B.Code;
  }

  /** A token that is read is one of the counter's, hence printed exactly. */
  lemma TokenBelow(s: State, op: Op, token: nat)
    requires Reads(op) && Step(s, Canon(op, token)).r.Hit? && Ready(s, Cost(op), 1)
    ensures 1 <= Step(s, Canon(op, token)).r.cas < LUA_EXACT
  {
    Runs.StepTokens(s, Canon(op, token));
    CanonTokens(s, op, token);
  }

  lemma ClassicToken(s: State, op: Op, q: bool, token: nat, texts: S.Texts)
    requires Sendable(op, ClassicText(q), token) && Reads(op) && Ready(s, Cost(op), 1)
    ensures TokenSeen(ClassicText(q), Output(s, op, ClassicText(q), token, texts))
      == TokenOf(Carried(s, op, ClassicText(q), token).r)
  {
    hide Step, T.Decode, T.Reply, Ready, LuaText, Canon, ClassicSteps, RunAll, Carries, Fits, A.PrintableKey;
    var r := Step(s, Canon(op, token)).r;
    ClassicRead(s, op, q, token, texts);
    CanonReply(s, op, token);
    if r.Hit? {
      TokenBelow(s, op, token);
      LuaTextExact(r.cas);
      ParseDec(r.cas, U64_MAX);
    }
  }

  /** The reply to a classic read decodes to the hit, with its token as text. */
  lemma ClassicRead(s: State, op: Op, q: bool, token: nat, texts: S.Texts)
    requires Sendable(op, ClassicText(q), token) && Reads(op) && Ready(s, Cost(op), 1)
    ensures var r := Step(s, Canon(op, token)).r;
      && Carried(s, op, ClassicText(q), token).r == r
      && T.Decode(Output(s, op, ClassicText(q), token, texts), true)
         == Some((if r.Hit? then [T.View(op.k, r.f, r.v, Some(LuaText(r.cas)))] else [], []))
  {
    hide Step, R.MakeRedisKey, T.Decode, T.Reply, Runs.TokenInv, T.PlainFlags, Sizes.Roomy, LuaText, T.Views, T.Hits;
    CanonReply(s, op, token);
    var exp := if op.Fetch? then None else Some(op.exp);
    PrintableField(op.k);
    T.RetrievalDecodes(s, exp, [op.k], true, []);
    T.OneKey(s, exp, op.k);
    RunOne(s, Canon(op, token));
    var (cmd, data) := ToClassic(op, q, token).value;
    assert ClassicSteps(cmd, data) == [Canon(op, token)];
    var reply := T.Reply(T.Hits(s, exp, [op.k]), true);
    assert reply + [] == reply;
    OneView(op.k, Step(s, Canon(op, token)).r);
  }

  lemma OneView(k: Bytes, r: Reply)
    requires r.Hit? || r.Miss?
    ensures T.Views(if r.Hit? then [T.Found(k, r.f, r.v, r.cas)] else [], true)
      == if r.Hit? then [T.View(k, r.f, r.v, Some(LuaText(r.cas)))] else []
  {
    hide LuaText;
  }

  lemma MetaToken(s: State, op: Op, q: bool, token: nat, texts: S.Texts)
    requires Sendable(op, MetaText(q), token) && Reads(op) && Ready(s, Cost(op), 1)
    ensures TokenSeen(MetaText(q), Output(s, op, MetaText(q), token, texts))
      == TokenOf(Carried(s, op, MetaText(q), token).r)
  {
    hide Step, MetaSteps, RunAll, H.ReadMsg, H.Render, H.GetMsg, M.ValidFlags, FlagsOf, LuaText, T.PlainFlags;
    hide Runs.TokenInv, Sizes.Roomy, Canon, Carries, M.FlagsError;
    var (cmd, data) := ToMeta(op, q, token).value;
    var m := RunAll(s, MetaSteps(cmd, data)).r;
    MetaHitOf(s, op, q, token);
    CanonReply(s, op, token);
    MetaFlagsValid(op, q, token);
    M.FlagsErrorExactly(cmd);
    H.CodesDiffer();
    if m.MetaHit? {
      ReadWords(op, q, token, m);
      T.LuaTextField(m.cas);
      TwoWords(LuaText(m.cas), m.f);
      FieldWords(LuaText(m.cas), m.f);
      var msg := H.Msg(H.VA, [[H.CH_LC] + LuaText(m.cas), [H.CH_LF] + m.f], Some(m.v));
      H.MsgReadsBack(msg, []);
      assert H.Render(msg) + [] == H.Render(msg);
      TokenBelow(s, op, token);
      LuaTextExact(m.cas);
      ParseDec(m.cas, U64_MAX);
    } else {
      MissMsg(op, q, token, m);
      NothingDecodes();
      H.MsgReadsBack(H.Msg(H.EN, [], None), []);
      assert H.Render(H.Msg(H.EN, [], None)) + [] == H.Render(H.Msg(H.EN, [], None));
    }
  }

  // ---------------------------------------------------- three front ends, in bytes

  /** A client sends bytes, the session of that protocol serves them, the client reads a token. */
  function SendBytes(c: Client, op: Op, p: Protocol, texts: S.Texts): Client {
    if op.Pass? then Client(Tick(c.s, op.dt).s, c.mem)
    else if (NeedsToken(op) && op.k !in c.mem) || !Sendable(op, p, Remembered(c, op)) then c
    else
      var (st, out) := Converse(c.s, p, Encoding(op, p, Remembered(c, op)), texts);
      var t := TokenSeen(p, out);
      Client(st, if Reads(op) && t.Some? then c.mem[op.k := t.value] else c.mem)
  }

  function SendAllBytes(c: Client, ops: seq<Op>, ps: seq<Protocol>, texts: S.Texts): Client
    requires |ps| == |ops|
  {
    if ops == [] then c
    else
      SendBytes(SendAllBytes(c, ops[..|ops| - 1], ps[..|ops| - 1], texts), ops[|ops| - 1], ps[|ops| - 1], texts)
  }

  /** Sending the bytes of a command is what the front-end theorems call sending it. */
  lemma SendIsBytes(c: Client, op: Op, p: Protocol, texts: S.Texts)
    requires Sound(c) && Expressible(op, p) && Fits(op) && Ready(c.s, Cost(op), 1) && Sizes.SmallStats(texts.stats)
    ensures SendBytes(c, op, p, texts) == Send(c, op, p)
  {
    hide Runs.TokenInv, Ready, Encoding, Output, Carried, Carries, Converse, TokenSeen, Fits, TokenOf;
    if !op.Pass? && (NeedsToken(op) ==> op.k in c.mem) {
      var token := Remembered(c, op);
      if NeedsToken(op) { assert IsPlace(c, InMemory(op.k)); }
      BelowExact(c.s, op);
      assert Sendable(op, p, token);
      FrontServed(c.s, op, p, token, [], texts);
      NothingServed(Carried(c.s, op, p, token).s, p, texts);
      assert Encoding(op, p, token) + [] == Encoding(op, p, token);
      var out := Output(c.s, op, p, token, texts);
      assert out + [] == out;
      if Reads(op) {
        match p {
          case Binary(q) => BinaryToken(c.s, op, q, token, texts);
          case ClassicText(q) => ClassicToken(c.s, op, q, token, texts);
          case MetaText(q) => MetaToken(c.s, op, q, token, texts);
        }
      }
    } else if op.Pass? {
      PassCarried(c.s, op, p, Remembered(c, op));
    }
  }

  lemma BelowExact(s: State, op: Op)
    requires Ready(s, Cost(op), 1)
    ensures s.counter < LUA_EXACT
  {
  }

  lemma PassCarried(s: State, op: Op, p: Protocol, token: nat)
    requires op.Pass?
    ensures Carried(s, op, p, token) == Tick(s, op.dt) && TokenOf(Tick(s, op.dt).r).None?
  {
  }

  function CostOf(ops: seq<Op>): nat {
    if ops == [] then 0 else CostOf(ops[..|ops| - 1]) + Cost(ops[|ops| - 1])
  }

  lemma SendReady(c: Client, op: Op, p: Protocol, room: nat, n: nat)
    requires Sound(c) && Expressible(op, p) && Fits(op) && n > 0 && Ready(c.s, Cost(op) + room, n)
    ensures Ready(Send(c, op, p).s, room, n - 1)
  {
    hide Runs.TokenInv, Carried, Carries, Ready, Fits;
    var token := Remembered(c, op);
    LessReady(c.s, Cost(op) + room, n, room, n - 1);
    if op.Pass? {
      PassCarried(c.s, op, p, token);
      TickReady(c.s, op.dt, room, n - 1);
    } else if NeedsToken(op) ==> op.k in c.mem {
      if NeedsToken(op) { assert IsPlace(c, InMemory(op.k)); }
      LessReady(c.s, Cost(op) + room, n, Cost(op), 1);
      BelowExact(c.s, op);
      CarriedReady(c.s, op, p, token, room, n);
    }
  }

  /** Sending from bytes step by step is sending; and readiness lasts for the whole session. */
  lemma {:induction false} SendAllIsBytes(c: Client, ops: seq<Op>, ps: seq<Protocol>, texts: S.Texts, room: nat, n: nat)
    requires |ps| == |ops| && Sound(c) && AllExpressible(ops, ps)
    requires Ready(c.s, CostOf(ops) + room, |ops| + n) && Sizes.SmallStats(texts.stats)
    ensures SendAllBytes(c, ops, ps, texts) == SendAll(c, ops, ps)
    ensures Ready(SendAll(c, ops, ps).s, room, n) && Sound(SendAll(c, ops, ps))
  {
    hide Ready, Sound, Send, SendBytes, Fits, Expressible;
    if ops != [] {
      var k := |ops| - 1;
      SendAllIsBytes(c, ops[..k], ps[..k], texts, Cost(ops[k]) + room, n + 1);
      var t := SendAll(c, ops[..k], ps[..k]);
      LessReady(t.s, Cost(ops[k]) + room, n + 1, Cost(ops[k]), 1);
      SendIsBytes(t, ops[k], ps[k], texts);
      SendReady(t, ops[k], ps[k], room, n + 1);
      SendSound(t, ops[k], ps[k]);
    }
  }

  lemma SendSound(c: Client, op: Op, p: Protocol)
    requires Sound(c) && Expressible(op, p) && Fits(op) && Ready(c.s, Cost(op), 1)
    ensures Sound(Send(c, op, p))
  {
    hide Sound, Send, Runs.TokenInv, Fits, Expressible;
    BelowExact(c.s, op);
    SimilarReflexive(c);
    SendSimilar(c, c, op, p, p);
    SimilarSound(Send(c, op, p), Send(c, op, p));
  }

  lemma SimilarSound(c: Client, d: Client)
    requires Similar(c, d)
    ensures Sound(c) && Sound(d)
  {
  }

  /** The counter stays below 10^14 when it starts two below it for every command. */
  lemma {:induction false} StaysSmall(c: Client, ops: seq<Op>, ps: seq<Protocol>, texts: S.Texts)
    requires |ps| == |ops| && Sound(c) && AllExpressible(ops, ps)
    requires Ready(c.s, CostOf(ops), |ops|) && Sizes.SmallStats(texts.stats)
    ensures CounterSmall(c, ops, ps)
  {
    hide Ready, Sound, Send, Fits, Expressible;
    forall i | 0 <= i <= |ops| ensures SendAll(c, ops[..i], ps[..i]).s.counter < LUA_EXACT {
      CostPrefix(ops, i);
      LessReady(c.s, CostOf(ops), |ops|, CostOf(ops[..i]), i);
      SendAllIsBytes(c, ops[..i], ps[..i], texts, 0, 0);
      ReadyCounter(SendAll(c, ops[..i], ps[..i]).s);
    }
  }

  lemma ReadyCounter(s: State)
    requires Ready(s, 0, 0)
    ensures s.counter < LUA_EXACT
  {
  }

  lemma {:induction false} CostPrefix(ops: seq<Op>, i: nat)
    requires i <= |ops|
    ensures CostOf(ops[..i]) <= CostOf(ops)
    decreases |ops|
  {
    if i == |ops| {
      assert ops[..i] == ops;
    } else {
      CostPrefix(ops[..|ops| - 1], i);
      assert ops[..|ops| - 1][..i] == ops[..i];
    }
  }

  /**
   * Three front ends, one store, from bytes to bytes.  The same commands, each sent as the
   * bytes of any protocol that can express it, loud or quiet, to a session of that protocol,
   * leave the same keys, values, flags and deadlines; the tokens on items and those clients
   * read off the replies agree up to an order-preserving renaming.
   */
  lemma ThreeFrontEndsInBytes(c: Client, d: Client, ops: seq<Op>, ps: seq<Protocol>, qs: seq<Protocol>, texts: S.Texts)
    requires Similar(c, d) && |ps| == |ops| == |qs|
    requires AllExpressible(ops, ps) && AllExpressible(ops, qs) && Sizes.SmallStats(texts.stats)
    requires Ready(c.s, CostOf(ops), |ops|) && Ready(d.s, CostOf(ops), |ops|)
    ensures Similar(SendAllBytes(c, ops, ps, texts), SendAllBytes(d, ops, qs, texts))
  {
    hide Ready, Sound, AllExpressible, CounterSmall, Similar, SendAllBytes, SendAll, CostOf, Sizes.SmallStats;
    SimilarSound(c, d);
    OneSide(c, ops, ps, texts);
    OneSide(d, ops, qs, texts);
    ThreeFrontEnds(c, d, ops, ps, qs);
  }

  lemma OneSide(c: Client, ops: seq<Op>, ps: seq<Protocol>, texts: S.Texts)
    requires |ps| == |ops| && Sound(c) && AllExpressible(ops, ps)
    requires Ready(c.s, CostOf(ops), |ops|) && Sizes.SmallStats(texts.stats)
    ensures SendAllBytes(c, ops, ps, texts) == SendAll(c, ops, ps) && CounterSmall(c, ops, ps)
  {
    hide Ready, Sound, AllExpressible, CounterSmall, SendAllBytes, SendAll, CostOf, Sizes.SmallStats;
    SendAllIsBytes(c, ops, ps, texts, 0, 0);
    StaysSmall(c, ops, ps, texts);
  }
}
