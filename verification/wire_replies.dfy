// What a client reads off the bytes of a reply: over every protocol the lesson of the command,
// as far as that protocol's replies can tell.

module WireReplies {
  import opened ByteStrings
  import opened Doubles
  import opened StoreSpec
  import opened FrontEnds
  import opened TextTokens
  import opened Wire
  import A = AsciiCommands
  import M = MetaCommands
  import B = BinaryDispatch
  import F = Frames
  import X = TextHandlers
  import H = MetaHandlers
  import S = TextSession
  import T = Retrieval
  import Sizes = BinarySizes
  import Handlers = BinaryHandlers
  import Counters

  // -------------------------------------------------------------------- readers

  function NumberIn(text: Bytes): nat {
    var n := ParseUint(text, U64_MAX);
    if n.Some? then n.value else 0
  }

  /** A binary response: the status, and the fields of a read or of a counter. */
  function StatusLesson(op: Op, x: F.Response): Lesson {
    if x.status == B.ST_NF then Missing
    else if x.status == B.ST_IX then Conflict
    else if x.status == B.ST_NOT_STORED then Refused
    else if x.status == B.ST_ARGS then NotANumber
    else if Reads(op) then Value(x.value, Dec(FromBigEndian(x.extras)))
    else if op.Arith? || op.ArithCreate? then Counted(Dec(FromBigEndian(x.value)))
    else Fine
  }

  const CLIENT_ERROR: Bytes := Ascii("CLIENT_ERROR")

  /** The argument of the first word with the given first character. */
  function WordOf(ws: seq<Bytes>, ch: byte): Bytes {
    if ws == [] then []
    else if ws[0] != [] && ws[0][0] == ch then ws[0][1..] else WordOf(ws[1..], ch)
  }

  /** A meta reply: its code, and the block of a read or of a counter. */
  function MsgLesson(op: Op, m: H.Msg): Lesson {
    if m.code == CLIENT_ERROR then NotANumber
    else if m.block.None? then H.CodeTells(m)
    else if Reads(op) then Value(m.block.value, WordOf(m.words, H.CH_LF))
    else Counted(m.block.value)
  }

  /** What a client that sent op over p reads at the front of its input, and what follows. */
  function ReadReply(op: Op, p: Protocol, b: Bytes): Option<(Lesson, Bytes)> {
    match p
    case Binary(_) =>
      (match F.Decode(b)
       case None => None
       case Some((x, rest)) => Some((StatusLesson(op, x), rest)))
    case ClassicText(_) =>
      if Reads(op) then
        match T.Decode(b, true)
        case None => None
        case Some((xs, rest)) => Some((if xs == [] then Missing else Value(xs[0].value, xs[0].flags), rest))
      else
        (match T.ReadField(b, CR)
         case None => None
         case Some((line, rest)) =>
           if rest == [] || rest[0] != LF then None else Some((X.ReadLine(line), rest[1..])))
    case MetaText(_) =>
      match H.ReadMsg(b)
      case None => None
      case Some((m, rest)) => Some((MsgLesson(op, m), rest))
  }

  /**
   * How a protocol renders a lesson.  Binary has 32-bit flags and 64-bit numbers; classic
   * text says NOT_STORED for every failed set, add and replace, meta for a failed add.
   */
  function Through(op: Op, p: Protocol, x: Lesson): Lesson {
    match p
    case Binary(_) => Numeric(x)
    case ClassicText(_) => if op.Put? && x != Fine then Refused else x
    case MetaText(_) => if op.Put? && x.Conflict? then Refused else x
  }

  /** Flags and numbers as a binary client gets them: 0 when out of range. */
  function Numeric(x: Lesson): Lesson {
    match x
    case Value(v, f) => Value(v, Dec(B.FlagsNumber(f)))
    case Counted(t) => Counted(Dec(NumberIn(t)))
    case _ => x
  }

  /** What all three can tell. */
  function Common(op: Op, x: Lesson): Lesson {
    Numeric(if op.Put? && x != Fine then Refused else x)
  }

  // --------------------------------------------------------------------- binary

  lemma NumericTwice(x: Lesson)
    ensures Numeric(Numeric(x)) == Numeric(x)
  {
    match x {
      case Value(v, f) => ParseDec(B.FlagsNumber(f), U32_MAX);
      case Counted(t) => ParseDec(NumberIn(t), U64_MAX);
      case _ =>
    }
  }

  lemma BodyNumber(text: Bytes)
    ensures FromBigEndian(Counters.ReplyBody(text)) == NumberIn(text)
  {
    F.Widths();
    BigEndianRoundTrip(NumberIn(text), 8);
  }

  /** The kinds of reply a command's script gives. */
  lemma CanonReply(s: State, op: Op, token: nat)
    requires !op.Pass?
    ensures var r := Step(s, Canon(op, token)).r;
      && (Reads(op) ==> r.Hit? || r.Miss?)
      && (op.Arith? || op.ArithCreate? ==> r.Number? || r.Miss? || r.NonNumeric?)
      && (op.Retime? ==> r.Done? || r.Miss?)
      && (!Reads(op) && !op.Arith? && !op.ArithCreate? ==>
            r.Done? || r.Deleted? || r.Flushed? || r.Miss? || r.Exists? || r.NotStored?)
  {
    hide Step, Dec, R.MakeRedisKey;
    B.StepReply(s, Canon(op, token));
  }

  lemma StatusTells(op: Op, req: F.Request, code: B.Opcode, r: Reply, next: nat, x: F.Response)
    requires B.Tells(code, req, r, next, x)
    requires Reads(op) ==> r.Hit? || r.Miss?
    requires op.Arith? || op.ArithCreate? ==> r.Number? || r.Miss? || r.NonNumeric?
    requires !Reads(op) && !op.Arith? && !op.ArithCreate? ==>
      r.Done? || r.Deleted? || r.Flushed? || r.Miss? || r.Exists? || r.NotStored?
    ensures StatusLesson(op, x) == Numeric(Learns(op, r))
  {
    hide Dec, FromBigEndian, B.FlagsNumber, B.TokenNumber, Counters.ReplyBody;
    if r.Number? { BodyNumber(r.text); }
  }

  lemma BinaryReply(s: State, op: Op, token: nat, texts: S.Texts, rest: Bytes)
    requires Sendable(op, Binary(false), token)
    requires Sizes.Roomy(s, |Encoding(op, Binary(false), token)|) && Sizes.SmallStats(texts.stats)
    ensures ReadReply(op, Binary(false), Output(s, op, Binary(false), token, texts) + rest)
      == Some((Numeric(Learns(op, Step(s, Canon(op, token)).r)), rest))
  {
    hide B.ScriptOf, ToBinary, Canon, Step, Encoding, Sizes.Fitting, Sizes.Roomy, B.ParseOpcode, B.IsQuiet;
    hide B.Answer, B.Responses, B.Execute, F.Decode, F.Encode, StatusLesson, F.TryParse, F.EncodeAll, Fits, Carries;
    var (code, req) := ToBinary(op, false, token).value;
    BinaryRequest(op, token);
    CanonReply(s, op, token);
    Sizes.ResponsesSized(s, req, texts.stats, |Encoding(op, Binary(false), token)|);
    OneAnswer(s, code, req, Canon(op, token), texts.stats);
    var x := B.Responses(s, req, texts.stats)[0];
    assert B.Responses(s, req, texts.stats) == [x];
    Handlers.OneResponse(x);
    F.DecodeEncoded(x, rest);
    var o := B.Execute(s, code, req);
    StatusTells(op, req, code, o.r, o.s.counter, x);
  }

  lemma BinaryRequest(op: Op, token: nat)
    requires Sendable(op, Binary(false), token)
    ensures var (code, req) := ToBinary(op, false, token).value;
      && B.ScriptOf(code, req) == Some(Canon(op, token))
      && B.ParseOpcode(req.hdr.opcode) == Some(code) && !B.IsQuiet(code)
      && Sizes.Fitting(req, |Encoding(op, Binary(false), token)|)
  {
    hide B.ScriptOf, ToBinary, Encoding, Sizes.Fitting, B.ParseOpcode, B.IsQuiet, F.TryParse;
    BinaryFrame(op, false, token, []);
    BinaryScript(op, false, token);
    LoudCode(op, token);
    SizesFit(op, false, token);
  }

  lemma LoudCode(op: Op, token: nat)
    requires !op.Pass?
    ensures !B.IsQuiet(ToBinary(op, false, token).value.0)
  {
  }

  lemma SizesFit(op: Op, q: bool, token: nat)
    requires Sendable(op, Binary(q), token)
    ensures Sizes.Fitting(ToBinary(op, q, token).value.1, |Encoding(op, Binary(q), token)|)
  {
    hide F.Header24, BigEndian;
    F.Widths();
  }

  lemma OneAnswer(s: State, code: B.Opcode, req: F.Request, e: Event, stats: X.Stats)
    requires B.ParseOpcode(req.hdr.opcode) == Some(code) && B.ScriptOf(code, req) == Some(e) && !B.IsQuiet(code)
    ensures var rs, o := B.Responses(s, req, stats), B.Execute(s, code, req);
      o.r == Step(s, e).r && |rs| == 1 && B.Tells(code, req, o.r, o.s.counter, rs[0])
  {
    hide B.ScriptOf, B.Answer, Step, B.ParseOpcode, B.IsQuiet, B.Tells;
    var o := B.Execute(s, code, req);
    B.AnswerTells(code, req, s, o.r, o.s.counter, stats);
  }

  // --------------------------------------------------------------------- classic

  lemma ClassicReply(s: State, op: Op, token: nat, texts: S.Texts, rest: Bytes)
    requires Sendable(op, ClassicText(false), token) && T.PlainFlags(s) && (NeedsToken(op) ==> token > 0)
    ensures ReadReply(op, ClassicText(false), Output(s, op, ClassicText(false), token, texts) + rest)
      == Some((Through(op, ClassicText(false), Learns(op, Step(s, Canon(op, token)).r)), rest))
  {
    hide Step, Dec, R.MakeRedisKey, X.ReadLine, T.ReadField, T.Decode, X.ClassicOutput, RunAll, A.PrintableKey;
    var (cmd, data) := ToClassic(op, false, token).value;
    assert Dec(0) == NO_CAS by { DecZero(0); }
    if Reads(op) {
      ReadBack(s, op, token, texts, rest);
    } else {
      assert ClassicSteps(cmd, data) == [Canon(op, token)];
      RunOne(s, Canon(op, token));
      X.ClassicTells(s, cmd, data, texts.stats, rest);
      hide ClassicSteps;
      var f := T.ReadField(X.ClassicOutput(s, cmd, data, texts.stats) + rest, CR);
      assert ([LF] + rest)[1..] == rest;
    }
  }

  lemma ReadBack(s: State, op: Op, token: nat, texts: S.Texts, rest: Bytes)
    requires Sendable(op, ClassicText(false), token) && T.PlainFlags(s) && Reads(op)
    ensures var w := ToClassic(op, false, token).value;
      var r := T.Decode(X.ClassicOutput(s, w.0, w.1, texts.stats) + rest, true);
      var x := Learns(op, Step(s, Canon(op, token)).r);
      && r.Some? && r.value.1 == rest
      && x == if r.value.0 == [] then Missing else Value(r.value.0[0].value, r.value.0[0].flags)
  {
    hide Step, R.MakeRedisKey, T.Decode, T.Reply;
    var exp := if op.Fetch? then None else Some(op.exp);
    CanonReply(s, op, token);
    T.RetrievalDecodes(s, exp, [op.k], true, rest);
    T.OneKey(s, exp, op.k);
  }

  // ----------------------------------------------------------------------- meta

  lemma FewFlags(fs: seq<M.MetaFlag>, ch: byte)
    requires |fs| <= 5
    ensures M.HasFlag(fs, ch)
      <==> (|fs| > 0 && fs[0].ch == ch) || (|fs| > 1 && fs[1].ch == ch) || (|fs| > 2 && fs[2].ch == ch)
           || (|fs| > 3 && fs[3].ch == ch) || (|fs| > 4 && fs[4].ch == ch)
  {
  }

  lemma QuietHas(fs: seq<M.MetaFlag>, q: bool, ch: byte)
    ensures M.HasFlag(fs + Q(q), ch) <==> M.HasFlag(fs, ch) || (q && ch == H.CH_Q)
  {
    if q && ch == H.CH_Q { assert (fs + Q(q))[|fs|].ch == ch; }
    if M.HasFlag(fs, ch) {
      var i :| 0 <= i < |fs| && fs[i].ch == ch;
      assert (fs + Q(q))[i].ch == ch;
    }
  }

  /** The reply flags of an encoding. */
  lemma ReplyFlags(op: Op, q: bool, token: nat)
    ensures var fs := FlagsOf(op, token) + Q(q);
      && (!q ==> fs == FlagsOf(op, token)) && (M.HasFlag(fs, H.CH_Q) <==> q) && M.FlagToken(fs, H.CH_O).None?
      && !M.HasFlag(fs, H.CH_K) && !M.HasFlag(fs, H.CH_LS) && !M.HasFlag(fs, H.CH_LT)
      && (M.HasFlag(fs, H.CH_V) <==> Reads(op) || op.Arith? || op.ArithCreate?)
      && (M.HasFlag(fs, H.CH_LC) <==> Reads(op)) && (M.HasFlag(fs, H.CH_LF) <==> Reads(op))
  {
    hide M.HasFlag, M.FlagToken, Dec;
    var fs := FlagsOf(op, token);
    assert fs + Q(false) == fs;
    Lookup(fs, q, H.CH_O);
    FewFlags(fs, H.CH_Q); FewFlags(fs, H.CH_K); FewFlags(fs, H.CH_LS); FewFlags(fs, H.CH_LT);
    FewFlags(fs, H.CH_V); FewFlags(fs, H.CH_LC); FewFlags(fs, H.CH_LF);
    QuietHas(fs, q, H.CH_Q); QuietHas(fs, q, H.CH_K); QuietHas(fs, q, H.CH_LS); QuietHas(fs, q, H.CH_LT);
    QuietHas(fs, q, H.CH_V); QuietHas(fs, q, H.CH_LC); QuietHas(fs, q, H.CH_LF);
  }

  lemma ValidAnswer(op: Op, token: nat, r: Reply)
    requires Sendable(op, MetaText(false), token)
    ensures var cmd := ToMeta(op, false, token).value.0;
      H.MetaAnswer(cmd, r) == H.MetaOutput(cmd, r) && M.ValidFlags(cmd)
  {
    hide M.ValidFlags, M.FlagsError, H.MetaOutput, ToMeta, Carries;
    MetaFlagsValid(op, false, token);
    M.FlagsErrorExactly(ToMeta(op, false, token).value.0);
  }

  lemma PrintableField(k: Bytes)
    requires A.PrintableKey(k)
    ensures T.Field(k) && ValidKey(k)
  {
  }

  /** `ms` and `md`. */
  lemma StatusReply(s: State, op: Op, token: nat, rest: Bytes)
    requires Sendable(op, MetaText(false), token) && (NeedsToken(op) ==> token > 0)
    requires !Reads(op) && !op.Retime? && !op.Arith? && !op.ArithCreate?
    ensures var w := ToMeta(op, false, token).value;
      var r := Step(s, Canon(op, token)).r;
      var b := H.ReadMsg(H.MetaOutput(w.0, RunAll(s, MetaSteps(w.0, w.1)).r) + rest);
      b.Some? && b.value.1 == rest && MsgLesson(op, b.value.0) == Through(op, MetaText(false), Learns(op, r))
  {
    hide Step, MetaSteps, RunAll, H.ReadMsg, H.MetaOutput, M.ValidFlags, M.HasFlag, M.FlagToken, FlagsOf, H.Extends;
    var (cmd, data) := ToMeta(op, false, token).value;
    ReplyFlags(op, false, token);
    PrintableField(op.k);
    ValidAnswer(op, token, Miss);
    MetaScript(op, false, token);
    RunOne(s, Canon(op, token));
    H.MetaTells(s, cmd, data, rest);
    hide ToMeta, Carries, Fits, T.Field, A.PrintableKey;
    CodesAreCodes();
    MergedIsThrough(s, op, token);
  }

  lemma CodesAreCodes()
    ensures CLIENT_ERROR !in {H.HD, H.EN, H.NF, H.NS, H.EX, H.VA}
  {
    assert |CLIENT_ERROR| == 12;
  }

  /** Meta's own merging of failures is the one of `Through`. */
  lemma MergedIsThrough(s: State, op: Op, token: nat)
    requires Sendable(op, MetaText(false), token) && (NeedsToken(op) ==> token > 0)
    requires !Reads(op) && !op.Retime? && !op.Arith? && !op.ArithCreate?
    ensures var cmd := ToMeta(op, false, token).value.0;
      var x := Learns(op, Step(s, Canon(op, token)).r);
      H.MergedMeta(cmd, x) == Through(op, MetaText(false), x)
  {
    hide Step, M.FlagToken, Dec;
    var cmd := ToMeta(op, false, token).value.0;
    var fs := FlagsOf(op, token);
    Lookup(fs, false, CH_C);
    Lookup(fs, false, M.CH_M);
    ModeWords();
    DecZero(token);
    DecZero(0);
    assert op.Grow? ==> !Step(s, Canon(op, token)).r.Exists? by {
      if op.Grow? { X.StepPlain(s, Canon(op, token)); }
    }
  }

  /** The read step of `mg` finds what the command's script says. */
  lemma MetaHitOf(s: State, op: Op, q: bool, token: nat)
    requires Sendable(op, MetaText(q), token) && (Reads(op) || op.Retime?) && T.PlainFlags(s)
    ensures var w, r := ToMeta(op, q, token).value, Step(s, Canon(op, token)).r;
      var m := RunAll(s, MetaSteps(w.0, w.1)).r;
      && (m.MetaHit? || m.Miss?) && (m.MetaHit? <==> !r.Miss?) && (m.MetaHit? ==> T.Field(m.f))
      && (Reads(op) ==> (r.Hit? <==> m.MetaHit?) && (r.Hit? ==> m.v == r.v && m.f == r.f && m.cas == r.cas))
  {
    var es := MetaSteps(ToMeta(op, q, token).value.0, ToMeta(op, q, token).value.1);
    MetaScript(op, q, token);
    hide Step, MetaSteps, ToMeta, Dec, T.PlainFlags;
    MetaMeans(s, op, q, token);
    CanonReply(s, op, token);
    var k := R.MakeRedisKey(op.k);
    var t := RunAll(s, es[..|es| - 1]).s;
    assert T.PlainFlags(t) by {
      if |es| == 2 { RunOne(s, es[0]); assert es[..1] == [es[0]]; T.StepPlainFlags(s, es[0]); }
    }
    T.StepPlainFlags(t, EMetaGet(k));
    MetaGetReply(t, k);
  }

  lemma MetaGetReply(s: State, k: Bytes)
    ensures Step(s, EMetaGet(k)).r.MetaHit? || Step(s, EMetaGet(k)).r.Miss?
  {
  }

  lemma TwoWords(c: Bytes, f: Bytes)
    ensures WordOf([[H.CH_LC] + c, [H.CH_LF] + f], H.CH_LF) == f
    ensures WordOf([[H.CH_LC] + c, [H.CH_LF] + f], H.CH_LC) == c
  {
    var ws := [[H.CH_LC] + c, [H.CH_LF] + f];
    assert ws[0][1..] == c && ws[1][1..] == f && ws[1..][0] == ws[1];
  }

  /** What the items of a read's reply are: the token and the flags. */
  lemma ReadWords(op: Op, q: bool, token: nat, r: Reply)
    requires r.MetaHit? && !op.Wipe? && !op.Pass?
    ensures var fs := FlagsOf(op, token) + Q(q);
      var m := H.GetMsg(op.k, fs, r);
      m.Some? && m.value == if Reads(op)
        then H.Msg(H.VA, [[H.CH_LC] + LuaText(r.cas), [H.CH_LF] + r.f], Some(r.v))
        else if op.Arith? || op.ArithCreate? then H.Msg(H.VA, [], Some(r.v)) else H.Msg(H.HD, [], None)
  {
    hide M.HasFlag, M.FlagToken, LuaText, Dec, FlagsOf;
    ReplyFlags(op, q, token);
  }

  /** `mg`, reading or only touching. */
  lemma GetReply(s: State, op: Op, token: nat, rest: Bytes)
    requires Sendable(op, MetaText(false), token) && (Reads(op) || op.Retime?) && T.PlainFlags(s)
    ensures var w := ToMeta(op, false, token).value;
      var r := Step(s, Canon(op, token)).r;
      var b := H.ReadMsg(H.MetaOutput(w.0, RunAll(s, MetaSteps(w.0, w.1)).r) + rest);
      b.Some? && b.value.1 == rest && MsgLesson(op, b.value.0) == Learns(op, r)
  {
    hide Step, MetaSteps, RunAll, H.ReadMsg, H.Render, M.HasFlag, M.FlagToken, FlagsOf, LuaText, T.PlainFlags;
    hide T.Field, H.GetMsg, Canon;
    var (cmd, data) := ToMeta(op, false, token).value;
    var m := RunAll(s, MetaSteps(cmd, data)).r;
    var fs := FlagsOf(op, token);
    MetaHitOf(s, op, false, token);
    ReplyFlags(op, false, token);
    CanonReply(s, op, token);
    CodesAreCodes();
    H.CodesDiffer();
    if m.MetaHit? {
      ReadWords(op, false, token, m);
      T.LuaTextField(m.cas);
      TwoWords(LuaText(m.cas), m.f);
      FieldWords(LuaText(m.cas), m.f);
      H.MsgReadsBack(H.GetMsg(op.k, fs, m).value, rest);
    } else {
      MissMsg(op, false, token, m);
      H.MsgReadsBack(H.Msg(H.EN, [], None), rest);
    }
  }

  lemma MissMsg(op: Op, q: bool, token: nat, r: Reply)
    requires r.Miss? && !op.Wipe? && !op.Pass?
    ensures H.GetMsg(op.k, FlagsOf(op, token) + Q(q), r) == if q then None else Some(H.Msg(H.EN, [], None))
  {
    hide M.HasFlag, M.FlagToken, FlagsOf;
    ReplyFlags(op, q, token);
    assert H.Echo(FlagsOf(op, token) + Q(q), op.k) == [];
  }

  lemma FieldWords(c: Bytes, f: Bytes)
    requires T.Field(c) && T.Field(f)
    ensures H.AllFields([[H.CH_LC] + c, [H.CH_LF] + f])
  {
  }

  /** The error line of `ma` reads back as CLIENT_ERROR. */
  lemma ErrorReadsBack(rest: Bytes)
    ensures var b := H.ReadMsg(X.NOT_NUMERIC + CRLF + rest);
      b.Some? && b.value.1 == rest && b.value.0.code == CLIENT_ERROR
  {
    hide T.ReadField;
    X.NoLineBreaks();
    T.ReadFieldBack(X.NOT_NUMERIC, CR, [LF] + rest);
    assert X.NOT_NUMERIC + CRLF + rest == X.NOT_NUMERIC + [CR] + ([LF] + rest);
    assert ([LF] + rest)[1..] == rest;
    var tail := X.NOT_NUMERIC[13..];
    assert X.NOT_NUMERIC == CLIENT_ERROR + [SPACE] + tail;
    T.ReadFieldBack(CLIENT_ERROR, SPACE, tail);
    CodesAreCodes();
  }

  /** `ma`. */
  lemma ArithReply(s: State, op: Op, token: nat, rest: Bytes)
    requires Sendable(op, MetaText(false), token) && (op.Arith? || op.ArithCreate?)
    ensures var w := ToMeta(op, false, token).value;
      var r := Step(s, Canon(op, token)).r;
      var b := H.ReadMsg(H.MetaOutput(w.0, RunAll(s, MetaSteps(w.0, w.1)).r) + rest);
      b.Some? && b.value.1 == rest && MsgLesson(op, b.value.0) == Learns(op, r)
  {
    hide Step, MetaSteps, RunAll, H.ReadMsg, H.Render, M.HasFlag, M.FlagToken, FlagsOf, LuaText, Canon, Dec;
    var (cmd, data) := ToMeta(op, false, token).value;
    MetaScript(op, false, token);
    RunOne(s, Canon(op, token));
    ReplyFlags(op, false, token);
    CanonReply(s, op, token);
    CodesAreCodes();
    H.CodesDiffer();
    var r := Step(s, Canon(op, token)).r;
    match r {
      case Number(text, _) =>
        assert H.Echo(FlagsOf(op, token), op.k) == [];
        assert H.If(FlagsOf(op, token), H.CH_LC, LuaText(r.cas)) + H.Echo(FlagsOf(op, token), op.k) == [];
        H.MsgReadsBack(H.Msg(H.VA, [], Some(text)), rest);
      case Miss =>
        assert H.Echo(FlagsOf(op, token), op.k) == [];
        H.MsgReadsBack(H.Msg(H.NF, [], None), rest);
      case NonNumeric => ErrorReadsBack(rest);
    }
  }

  lemma MetaReply(s: State, op: Op, token: nat, texts: S.Texts, rest: Bytes)
    requires Sendable(op, MetaText(false), token) && T.PlainFlags(s) && (NeedsToken(op) ==> token > 0)
    ensures ReadReply(op, MetaText(false), Output(s, op, MetaText(false), token, texts) + rest)
      == Some((Through(op, MetaText(false), Learns(op, Step(s, Canon(op, token)).r)), rest))
  {
    hide Step, MetaSteps, RunAll, H.ReadMsg, H.MetaOutput, H.MetaAnswer, MsgLesson, Canon, ToMeta, T.PlainFlags;
    hide Fits, Carries;
    var w := ToMeta(op, false, token).value;
    ValidAnswer(op, token, RunAll(s, MetaSteps(w.0, w.1)).r);
    if Reads(op) || op.Retime? {
      GetReply(s, op, token, rest);
    } else if op.Arith? || op.ArithCreate? {
      ArithReply(s, op, token, rest);
    } else {
      StatusReply(s, op, token, rest);
    }
  }
}
