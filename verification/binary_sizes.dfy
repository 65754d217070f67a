// Sizes: a store with room for a stream never produces a response that does not fit its
// header, so everything a session sends can be decoded.

module BinarySizes {
  import opened ByteStrings
  import opened Doubles
  import opened Frames
  import opened StoreSpec
  import opened BinaryDispatch
  import BinaryConn
  import Counters

  type Stats = seq<(Bytes, Bytes)>

  // ------------------------------------------------------------ numerals' lengths

  lemma {:induction false} DecLength(n: nat, m: nat)
    requires m >= 1 && n < Pow10(m)
    ensures |Dec(n)| <= m
  {
    if n >= 10 { DecLength(n / 10, m - 1); }
  }

  lemma {:induction false} DigitsBound(b: Bytes)
    requires AllDigits(b)
    ensures DigitsValue(b) < Pow10(|b|)
  {
    if b != [] { DigitsBound(b[..|b| - 1]); }
  }

  lemma {:induction false} Pow10Add(a: nat, b: nat)
    ensures Pow10(a + b) == Pow10(a) * Pow10(b)
  {
    if b > 0 { Pow10Add(a, b - 1); }
  }

  lemma AtMostDouble(n: nat)
    ensures ToDouble(n) <= 2 * n
  {
    assert 0 == Scaled(0, 0);
    NearestDouble(n, 0);
  }

  lemma ArithmeticBound(n: nat, delta: nat, decr: bool)
    ensures Arithmetic(ToDouble(n), delta, decr) <= 4 * n + 4 * delta
  {
    hide ToDouble;
    var num, d := ToDouble(n), ToDouble(delta);
    AtMostDouble(n);
    AtMostDouble(delta);
    AtMostDouble(num + d);
    if num >= d { AtMostDouble(num - d); }
  }

  /** Arithmetic lengthens a numeral by at most 24 digits, the length of a request header. */
  lemma ArithmeticLength(text: Bytes, delta: nat, decr: bool)
    requires ToNumber(text).Some? && delta <= U64_MAX
    ensures |Dec(Arithmetic(ToNumber(text).value, delta, decr))| <= |text| + 24
  {
    hide ToDouble, Dec, Arithmetic, Pow10;
    var n := DigitsValue(text);
    DigitsBound(text);
    ArithmeticBound(n, delta, decr);
    Pow10Add(|text|, 21);
    TenTo21();
    DecLength(Arithmetic(ToDouble(n), delta, decr), |text| + 21);
  }

  lemma TenTo21()
    ensures Pow10(21) == 1_000_000_000_000_000_000_000
  {
    assert Pow10(7) == 10_000_000;
    Pow10Add(7, 7);
    Pow10Add(14, 7);
  }

  lemma InitialLength(n: nat)
    requires n <= U64_MAX
    ensures |Dec(n)| <= 24
  {
    assert Pow10(5) == 100_000;
    Pow10Add(5, 5);
    Pow10Add(10, 10);
    DecLength(n, 20);
  }

  // ------------------------------------------------------------------------ room

  /** More bytes of requests can be served without a value or the counter outgrowing its field. */
  ghost predicate Roomy(s: State, more: nat) {
    && more + 300 <= Pow256(4)
    && (forall k :: k in s.items && s.items[k].v.Some? ==> |s.items[k].v.value| + more + 300 <= Pow256(4))
    && s.counter + more < Pow256(8)
  }

  /** An event of a request that took `used` bytes of the stream. */
  predicate Sized(e: Event, used: nat) {
    match e
    case EStore(_, _, v, _, _, _) => |v| <= used
    case EExtend(_, data, _, _) => |data| <= used
    case ECounter(_, delta, _, init, _) => delta <= U64_MAX && |init| <= used
    case ETick(_) => false
    case _ => true
  }

  lemma StepRoom(s: State, e: Event, used: nat, more: nat)
    requires Roomy(s, used + more) && used >= 24 && Sized(e, used)
    ensures Roomy(Step(s, e).s, more) && Step(s, e).s.counter <= s.counter + 1
  {
    hide LuaText, Dec, ToDouble, Arithmetic, ToNumber, Pow256;
    if e.ECounter? && e.k in s.items {
      var i := s.items[e.k];
      if i.v.Some? && ToNumber(i.v.value).Some? { ArithmeticLength(i.v.value, e.delta, e.decr); }
    }
  }

  /** The fields of a request that the parser took `used` bytes for. */
  predicate Fitting(req: Request, used: nat) {
    && used >= HEADER_LEN && |req.value| <= used && |req.key| <= MAX_KEY_LEN && Fits32(req.hdr.opaqueId)
  }

  lemma ParsedFits(b: Bytes)
    requires TryParse(b).Parsed?
    ensures Fitting(TryParse(b).req, TryParse(b).used)
  {
    BodyWhole(b);
    FromBigEndianRoundTrip(b[12..16]);
  }

  lemma ScriptSized(op: Opcode, req: Request, used: nat)
    requires Fitting(req, used) && ScriptOf(op, req).Some?
    ensures Sized(ScriptOf(op, req).value, used)
  {
    hide Dec, FromBigEndian;
    if |req.extras| == 20 {
      FromBigEndianRoundTrip(req.extras[..8]);
      FromBigEndianRoundTrip(req.extras[8..16]);
      Widths();
      InitialLength(FromBigEndian(req.extras[8..16]));
    }
  }

  /** Serving a request uses up at most the room its bytes stand for. */
  lemma HandleRoom(s: State, req: Request, used: nat, more: nat, stats: Stats)
    requires Roomy(s, used + more) && Fitting(req, used)
    ensures Roomy(Handle(s, req, stats).st, more)
  {
    hide ScriptOf, Step, Responses, EncodeAll, Sized, ParseOpcode;
    var o := ParseOpcode(req.hdr.opcode);
    if o.Some? && ScriptOf(o.value, req).Some? {
      var e := ScriptOf(o.value, req).value;
      ScriptSized(o.value, req, used);
      StepRoom(s, e, used, more);
    }
  }

  // --------------------------------------------------------------------- responses

  predicate AllSized(rs: seq<Response>) { forall i :: 0 <= i < |rs| ==> WellSized(rs[i]) }

  /** Names and values of statistics fit their fields. */
  predicate SmallStats(stats: Stats) {
    forall i :: 0 <= i < |stats| ==> |stats[i].0| < 65_536 && Fits32(|stats[i].0| + |stats[i].1|)
  }

  /** A reply whose value and whose counter step fit. */
  predicate SmallReply(r: Reply) { r.Hit? ==> |r.v| + 300 <= Pow256(4) }

  lemma TokenFits(cas: nat)
    ensures Fits64(TokenNumber(cas))
  {
    Widths();
  }

  lemma SimpleSized(op: Opcode, req: Request, status: nat, cas: nat, body: Bytes)
    requires Fits32(req.hdr.opaqueId) && status < 65_536 && Fits64(cas) && |body| < 65_536
    ensures WellSized(Simple(op, req, status, cas, body))
  {
    Widths();
  }

  lemma RetrievedSized(op: Opcode, req: Request, r: Reply, used: nat)
    requires Fitting(req, used) && SmallReply(r)
    ensures AllSized(Retrieved(op, req, r))
  {
    hide TokenNumber, FlagsNumber, Code, BigEndian, IsQuiet;
    Widths();
    if r.Hit? { TokenFits(r.cas); }
  }

  lemma MutatedSized(op: Opcode, req: Request, r: Reply, used: nat)
    requires Fitting(req, used)
    ensures AllSized(Mutated(op, req, r))
  {
    hide TokenNumber, Code, BigEndian, ParseUint, IsQuiet;
    Widths();
    if r.Done? || r.Number? { TokenFits(r.cas); }
    if r.Number? { assert |Counters.ReplyBody(r.text)| == 8; }
  }

  lemma StatisticsSized(op: Opcode, req: Request, stats: Stats, used: nat)
    requires Fitting(req, used) && SmallStats(stats)
    ensures AllSized(Statistics(op, req, stats))
  {
    hide Code;
    Widths();
  }

  lemma AnswerSized(op: Opcode, req: Request, r: Reply, next: nat, stats: Stats, used: nat)
    requires Fitting(req, used) && SmallReply(r) && SmallStats(stats) && Fits64(next)
    ensures AllSized(Answer(op, req, r, next, stats))
  {
    hide Retrieved, Mutated, Statistics, IsQuiet, Code, GoodArgs, Simple, WellSized;
    RetrievedSized(op, req, r, used);
    MutatedSized(op, req, r, used);
    StatisticsSized(op, req, if GeneralStats(req) then stats else [], used);
    Widths();
    forall status: nat, cas: nat, body: Bytes | status < 65_536 && Fits64(cas) && |body| < 65_536
      ensures WellSized(Simple(op, req, status, cas, body))
    {
      SimpleSized(op, req, status, cas, body);
    }
  }

  lemma StepSmallReply(s: State, e: Event)
    requires Roomy(s, 0)
    ensures SmallReply(Step(s, e).r)
  {
    hide LuaText, Dec, ToDouble, Arithmetic, ToNumber, Pow256;
  }

  lemma ResponsesSized(s: State, req: Request, stats: Stats, used: nat)
    requires Roomy(s, used) && Fitting(req, used) && SmallStats(stats)
    ensures AllSized(Responses(s, req, stats))
  {
    var o := ParseOpcode(req.hdr.opcode);
    Widths();
    if o.Some? {
      hide ScriptOf, Step, Answer, Sized, ParseOpcode, AllSized;
      HandleRoom(s, req, used, 0, stats);
      if ScriptOf(o.value, req).Some? { StepSmallReply(s, ScriptOf(o.value, req).value); }
      var x := Execute(s, o.value, req);
      AnswerSized(o.value, req, x.r, x.s.counter, stats, used);
    }
  }

  lemma RejectionSized(x: BinaryConn.Seen, text: Bytes)
    requires x.Rejected? && Fits32(x.opaqueId) && |text| < 65_536
    ensures AllSized(Rejection(x, text))
  {
    Widths();
  }

  lemma {:induction false} FlattenSized(gs: seq<Group>)
    requires forall i :: 0 <= i < |gs| ==> AllSized(gs[i].rs)
    ensures AllSized(Flatten(gs))
  {
    if gs != [] { FlattenSized(gs[1..]); }
  }

  /** With room for the stream, every response of the session fits its header. */
  lemma {:induction false} GroupsSized(s: State, b: Bytes, stats: Stats)
    requires Roomy(s, |b|) && SmallStats(stats)
    ensures forall i :: 0 <= i < |Groups(s, b, stats)| ==> AllSized(Groups(s, b, stats)[i].rs)
    decreases |b|
  {
    hide TryParse, Handle, AllSized, Responses, Roomy, Rejection, Pow256;
    match TryParse(b) {
      case Parsed(req, used) =>
        ParsedFits(b);
        LessRoom(s, |b|, used);
        ResponsesSized(s, req, stats, used);
        HandleRoom(s, req, used, |b| - used, stats);
        var a := Handle(s, req, stats);
        if a.ok { GroupsSized(a.st, b[used..], stats); }
      case Malformed(id, opcode, skip) =>
        RejectedOpaque(b);
        RejectionSized(BinaryConn.Rejected(opcode, id), Ascii("Malformed frame"));
        LessRoom(s, |b|, |b| - skip);
        GroupsSized(s, b[skip..], stats);
      case Oversized(id, opcode) =>
        RejectedOpaque(b);
        RejectionSized(BinaryConn.Rejected(opcode, id), Ascii("Frame too large"));
      case _ =>
    }
  }

  lemma LessRoom(s: State, more: nat, less: nat)
    requires Roomy(s, more) && less <= more
    ensures Roomy(s, less)
  {
    hide Pow256;
  }

  lemma RejectedOpaque(b: Bytes)
    ensures TryParse(b).Malformed? ==> Fits32(TryParse(b).opaqueId)
    ensures TryParse(b).Oversized? ==> Fits32(TryParse(b).opaqueId)
  {
    if |b| >= HEADER_LEN { FromBigEndianRoundTrip(b[12..16]); }
  }

  /**
   * Pipelining discipline on the wire.  From a store with room for the stream, the output of a
   * session decodes uniquely into the responses of its frames, in request order.
   */
  lemma PipelinedOutput(s: State, b: Bytes, stats: Stats)
    requires Roomy(s, |b|) && SmallStats(stats)
    ensures DecodeAll(BinaryConn.Serve(Handler(stats), s, b).out) == Some(Flatten(Groups(s, b, stats)))
  {
    hide Groups, Flatten, BinaryConn.Serve, DecodeAll;
    GroupsSized(s, b, stats);
    FlattenSized(Groups(s, b, stats));
    GroupsAreTheSession(s, b, stats);
    DecodeAllEncoded(Flatten(Groups(s, b, stats)));
  }
}
