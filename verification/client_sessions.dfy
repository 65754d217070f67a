// A whole client: the bytes it sends, however the socket splits them, through protocol
// detection, the session loop and the handlers, to what it reads off the bytes that come back.

module ClientSessions {
  import opened ByteStrings
  import opened Doubles
  import opened StoreSpec
  import opened FrontEnds
  import opened TextTokens
  import opened Wire
  import opened WireReplies
  import opened WireSessions
  import A = AsciiCommands
  import B = BinaryDispatch
  import F = Frames
  import L = BinaryLaws
  import M = MetaCommands
  import S = TextSession
  import Sizes = BinarySizes
  import Sessions
  import BinaryConn
  import TextConn
  import H = MetaHandlers
  import X = TextHandlers

  // ------------------------------------------------------------------- detection

  predicate LineBreaks(b: Bytes) { forall i :: 0 <= i < |b| ==> b[i] == 13 || b[i] == 10 }

  /** A binary encoding starts with 0x80, a text encoding with a printable character. */
  lemma StartsWith(op: Op, p: Protocol, token: nat)
    requires Sendable(op, p, token)
    ensures var b := Encoding(op, p, token);
      b != [] && if p.Binary? then b[0] == 0x80 else 0x21 <= b[0] <= 0x7E
  {
    hide Carries, Fits;
    match p {
      case Binary(q) =>
        hide ToBinary, F.Header24;
        FrameStart(ToBinary(op, q, token).value.1);
      case ClassicText(q) =>
        ClassicStart(op, q, token);
      case MetaText(q) =>
        MetaStart(op, q, token);
    }
  }

  lemma FrameStart(r: F.Request)
    ensures var b := F.Frame(r.hdr.opcode, 0, r.hdr.cas, r.extras, r.key, r.value); b != [] && b[0] == 0x80
  {
  }

  lemma LineStart(ts: seq<Bytes>, block: Option<Bytes>)
    requires AllWords(ts) && ts != []
    ensures var b := Line(Join(ts), block); b != [] && 0x21 <= b[0] <= 0x7E
  {
    hide Join;
    JoinLast(ts);
  }

  lemma ClassicStart(op: Op, q: bool, token: nat)
    requires Sendable(op, ClassicText(q), token)
    ensures var b := Encoding(op, ClassicText(q), token); b != [] && 0x21 <= b[0] <= 0x7E
  {
    hide A.Sayable, A.Text, A.ArgsOf, Line, ToClassic, Carries, Fits;
    var cmd := ToClassic(op, q, token).value.0;
    ClassicSayable(op, q, token);
    A.VerbIsWord(A.VerbOf(cmd));
    A.ArgsAreWords(cmd);
    LineStart([A.Text(A.VerbOf(cmd))] + A.ArgsOf(cmd), BlockOf(op));
  }

  lemma MetaStart(op: Op, q: bool, token: nat)
    requires Sendable(op, MetaText(q), token)
    ensures var b := Encoding(op, MetaText(q), token); b != [] && 0x21 <= b[0] <= 0x7E
  {
    hide M.SayableMeta, M.MetaTokens, Line, ToMeta, Carries, Fits;
    var cmd := ToMeta(op, q, token).value.0;
    MetaSayable(op, q, token);
    M.MetaTokensAreWords(cmd);
    LineStart(M.MetaTokens(cmd), BlockOf(op));
  }

  /**
   * Behind any number of line breaks a binary command makes the connection binary and a text
   * command makes it text, whatever follows.
   */
  lemma DetectionLaw(op: Op, p: Protocol, token: nat, breaks: Bytes, rest: Bytes)
    requires Sendable(op, p, token) && LineBreaks(breaks)
    ensures var stream := breaks + (Encoding(op, p, token) + rest);
      && Sessions.SkipBreaks(stream) == Encoding(op, p, token) + rest
      && Sessions.ProtocolOf(stream) == if p.Binary? then Sessions.Binary else Sessions.Text
  {
    hide Encoding, Sessions.SkipBreaks, Carries, Fits;
    StartsWith(op, p, token);
    Sessions.SkipBreaksExactly(breaks, Encoding(op, p, token) + rest);
  }

  /** The first byte that is not a line break decides: 0x80, printable or blank, or neither. */
  lemma FirstByteDecides(breaks: Bytes, b: byte, rest: Bytes)
    requires LineBreaks(breaks) && b != 13 && b != 10
    ensures Sessions.ProtocolOf(breaks + ([b] + rest))
      == if b == 0x80 then Sessions.Binary else if 32 <= b <= 126 then Sessions.Text else Sessions.Foreign
    ensures Sessions.ProtocolOf(breaks) == Sessions.Silent
  {
    Sessions.SkipBreaksExactly(breaks, [b] + rest);
    Sessions.SkipBreaksExactly(breaks, []);
    assert breaks + [] == breaks;
  }

  // --------------------------------------------------------------- well-formed streams

  /** Bodies within the limit that the read-buffer guard leaves. */
  predicate Modest(cs: Script) {
    forall i :: 0 <= i < |cs| ==> |DataOf(cs[i].0)| + 300 <= F.MAX_BODY_LEN - 12_287
  }

  lemma BodyOf(op: Op, q: bool, token: nat, rest: Bytes)
    requires Sendable(op, Binary(q), token) && |DataOf(op)| + 300 <= F.MAX_BODY_LEN - 12_287
    ensures var b := Encoding(op, Binary(q), token) + rest;
      F.ParseHeader(b).bodyLen <= F.MAX_BODY_LEN - 12_287 && F.TryParse(b).Parsed?
  {
    hide ToBinary, F.Frame, F.TryParse, F.ParseHeader, Carries, Fits;
    var b := Encoding(op, Binary(q), token) + rest;
    BinaryFrame(op, q, token, rest);
    F.BodyWhole(b);
    BinaryFields(op, q, token);
    BinaryCost(op, q, token);
    FrameLength(ToBinary(op, q, token).value.1);
  }

  /** A binary script is served to its end, and its bodies are within the limit. */
  lemma {:induction false} BinaryStream(s: State, cs: Script, q: bool, texts: S.Texts)
    requires AllSendable(cs, Binary(q)) && Modest(cs)
    ensures var h, b := B.Handler(texts.stats), AllBytes(cs, Binary(q));
      BinaryConn.Serve(h, s, b).stop.End? && BinaryConn.BodiesWithin(h, s, b, F.MAX_BODY_LEN - 12_287)
    decreases |cs|
  {
    hide Sendable, Encoding, Output, Carried, F.TryParse, F.ParseHeader, BinaryConn.Serve, B.Handle, ToBinary;
    var h := B.Handler(texts.stats);
    if cs == [] {
      BinaryConn.EmptyServe(h, s);
      NoBodies(s, texts);
    } else {
      var (op, token) := cs[0];
      var after, rest := Carried(s, op, Binary(q), token).s, AllBytes(cs[1..], Binary(q));
      BinaryStream(after, cs[1..], q, texts);
      BinaryServed(s, op, q, token, rest, texts);
      BodyOf(op, q, token, rest);
      FrontOfCommand(s, op, q, token, rest, texts);
    }
  }

  lemma NoBodies(s: State, texts: S.Texts)
    ensures BinaryConn.BodiesWithin(B.Handler(texts.stats), s, [], F.MAX_BODY_LEN - 12_287)
  {
  }

  lemma FrontOfCommand(s: State, op: Op, q: bool, token: nat, rest: Bytes, texts: S.Texts)
    requires Sendable(op, Binary(q), token)
    ensures var b := Encoding(op, Binary(q), token) + rest;
      && F.TryParse(b).Parsed?
      && var x := BinaryConn.Front(B.Handler(texts.stats), s, b);
         x.rest == rest && x.st == Carried(s, op, Binary(q), token).s
  {
    BinaryFrame(op, q, token, rest);
    hide F.TryParse, F.EncodeAll, B.Responses, B.Execute, B.ParseOpcode, ToBinary, F.Frame, B.Base, Carries, Fits;
    var b := Encoding(op, Binary(q), token);
    assert (b + rest)[|b|..] == rest;
  }

  /** A text script is calm, and served to its end. */
  lemma {:induction false} TextStream(s: State, cs: Script, p: Protocol, texts: S.Texts)
    requires AllSendable(cs, p) && !p.Binary?
    ensures TextConn.Calm(S.Handler(texts), s, AllBytes(cs, p))
    decreases |cs|
  {
    hide Sendable, Encoding, Carried, TextConn.FrontOf, S.Handle;
    if cs == [] {
      TextConn.NoLine([]);
    } else {
      var (op, token) := cs[0];
      TextStream(Carried(s, op, p, token).s, cs[1..], p, texts);
      TextFront(s, op, p, token, AllBytes(cs[1..], p), texts);
    }
  }

  lemma TextFront(s: State, op: Op, p: Protocol, token: nat, rest: Bytes, texts: S.Texts)
    requires Sendable(op, p, token) && !p.Binary?
    ensures var b := Encoding(op, p, token) + rest;
      var f := TextConn.FrontOf(b);
      && f.Item? && f.what.Some? && !f.what.value.LineTooLong? && b[f.used..] == rest
      && var a := S.Handle(s, f.what.value, texts);
         a.ok && a.st == Carried(s, op, p, token).s
  {
    hide TextConn.FrontOf, X.ClassicOutput, H.MetaAnswer, RunAll, ClassicSteps, MetaSteps, Carries, Fits, FlagsOf;
    var b := Encoding(op, p, token);
    match p {
      case ClassicText(q) => ClassicItem(op, q, token, rest);
      case MetaText(q) => MetaItem(op, q, token, rest);
    }
    hide Encoding;
    assert (b + rest)[|b|..] == rest;
  }

  // -------------------------------------------------------------------- the client

  /**
   * A client sends line breaks and commands of one protocol.  However the socket splits them
   * into reads, the connection is detected, served to the end, leaves the store of the session
   * and sends its output; and if the commands are loud, that output reads back, to its last
   * byte, as the outcome of each command in order.
   */
  method ServeClient(s: State, cs: Script, p: Protocol, breaks: Bytes, chunks: seq<Bytes>, texts: S.Texts)
    returns (st: State, written: Bytes)
    requires BinaryConn.ValidReads(chunks) && LineBreaks(breaks) && cs != [] && AllSendable(cs, p)
    requires BinaryConn.Joined(chunks) == breaks + AllBytes(cs, p)
    requires p.Binary? ==> Modest(cs)
    ensures (st, written) == Converse(s, p, AllBytes(cs, p), texts)
    ensures Loud(p) && Ready(s, TotalCost(cs), |cs|) && Sizes.SmallStats(texts.stats) ==>
      ReadAll(cs, p, written) == Some((Lessons(s, cs, p), []))
  {
    hide Ready, Sendable, Encoding, ReadAll, Lessons, BinaryConn.Serve, TextConn.Serve, TextConn.Calm;
    hide BinaryConn.BodiesWithin, BinaryConn.Loop, BinaryConn.LastBatch, BinaryConn.Joined, Sessions.ProtocolOf;
    hide BinaryConn.ValidReads, Modest, LineBreaks, Sessions.SkipBreaks, Sizes.SmallStats, Sessions.Awaited;
    DetectionLaw(cs[0].0, p, cs[0].1, breaks, AllBytes(cs[1..], p));
    if p.Binary? { BinaryStream(s, cs, p.quiet, texts); } else { TextStream(s, cs, p, texts); }
    if Loud(p) && Ready(s, TotalCost(cs), |cs|) && Sizes.SmallStats(texts.stats) { PipelinedLessons(s, cs, p, texts); }
    var served, end, used;
    st, served, written, end, used := Sessions.HandleConn(B.Handler(texts.stats), S.Handler(texts), s, chunks);
  }

  // ------------------------------------------------------------------------- flags

  /** Does the store take the value? Said of keys and token numbers. */
  predicate Takes(s: State, op: Op, token: nat) {
    match op
    case Put(KindSet, _, _, _, exp) => !Stale(exp, s.now)
    case Put(KindAdd, k, _, _, exp) => !Stale(exp, s.now) && Ascii("rc:") + k !in s.items
    case Put(KindReplace, k, _, _, exp) => !Stale(exp, s.now) && Ascii("rc:") + k in s.items
    case CasPut(k, _, _, exp) =>
      !Stale(exp, s.now) && token > 0 && Ascii("rc:") + k in s.items && s.items[Ascii("rc:") + k].cas == token
    case _ => false
  }

  lemma Stored(s: State, op: Op, token: nat)
    requires Ready(s, Cost(op), 1) && Takes(s, op, token)
    ensures var t := Step(s, Canon(op, token)).s;
      Ascii("rc:") + op.k in t.items && t.now == s.now
      && t.items[Ascii("rc:") + op.k].v == Some(DataOf(op)) && t.items[Ascii("rc:") + op.k].f == Some(Dec(op.flags))
  {
    hide Dec, LuaText, Deadline, Sizes.Roomy;
    var k := Ascii("rc:") + op.k;
    DecZero(0);
    DecZero(token);
    TokenFacts(s, k);
    if k in s.items {
      TokenCheck(s.items[k], token);
      TokenCheck(s.items[k], 0);
    }
  }

  /**
   * Values and 32-bit flags survive the wire.  Stored over any protocol, with or without a
   * token, and fetched over any protocol, with or without a touch, they are read as they were
   * sent.
   */
  lemma FlagsSurvive(s: State, put: Op, p: Protocol, token: nat, fetch: Op, q: Protocol, texts: S.Texts)
    requires Sendable(put, p, token) && Sendable(fetch, q, 0) && Loud(q) && Takes(s, put, token)
    requires Reads(fetch) && fetch.k == put.k && (fetch.FetchTouch? ==> !Stale(fetch.exp, s.now))
    requires Ready(s, Cost(put) + Cost(fetch), 2) && Sizes.SmallStats(texts.stats)
    ensures var t := Converse(s, p, Encoding(put, p, token), texts).0;
      ReadReply(fetch, q, Converse(t, q, Encoding(fetch, q, 0), texts).1)
      == Some((Value(DataOf(put), Dec(put.flags)), []))
  {
    hide Encoding, Output, Carried, ReadReply, Through, LessonOf, Converse, Ready, Carries, Step;
    hide Canon, Accepts, Expressible;
    var t := Carried(s, put, p, token).s;
    FrontServed(s, put, p, token, [], texts);
    NothingServed(t, p, texts);
    assert Encoding(put, p, token) + [] == Encoding(put, p, token);
    CarriedReady(s, put, p, token, Cost(fetch), 2);
    FrontServed(t, fetch, q, 0, [], texts);
    NothingServed(Carried(t, fetch, q, 0).s, q, texts);
    assert Encoding(fetch, q, 0) + [] == Encoding(fetch, q, 0);
    assert Output(t, fetch, q, 0, texts) + [] == Output(t, fetch, q, 0, texts);
    ReplyTells(t, fetch, q, 0, texts, []);
    LessReady(s, Cost(put) + Cost(fetch), 2, Cost(put), 1);
    Stored(s, put, token);
    CarriedItems(s, put, p, token);
    FetchedLesson(t, put, fetch, q);
  }

  lemma CarriedItems(s: State, op: Op, p: Protocol, token: nat)
    requires Sendable(op, p, token)
    ensures var t, u := Carried(s, op, p, token).s, Step(s, Canon(op, token)).s;
      t.items == u.items && t.now == u.now
  {
    hide Carried, Step, Canon, Carries;
    match p {
      case Binary(q) => BinaryMeans(s, op, q, token);
      case ClassicText(q) => ClassicMeans(s, op, q, token);
      case MetaText(q) => MetaMeans(s, op, q, token);
    }
  }

  lemma FetchedLesson(t: State, put: Op, fetch: Op, q: Protocol)
    requires (put.Put? || put.CasPut?) && Reads(fetch) && fetch.k == put.k && put.flags <= U32_MAX
    requires fetch.FetchTouch? ==> !Stale(fetch.exp, t.now)
    requires Ascii("rc:") + put.k in t.items
    requires var i := t.items[Ascii("rc:") + put.k]; i.v == Some(DataOf(put)) && i.f == Some(Dec(put.flags))
    ensures forall ok: bool :: Through(fetch, q, LessonOf(t, fetch, ok)) == Value(DataOf(put), Dec(put.flags))
  {
    hide Dec, B.FlagsNumber, Deadline;
    L.FlagsNumberOf(put.flags);
  }
}
