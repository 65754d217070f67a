// Three front ends, one store: which scripts the text handlers run, and why it does not
// matter which protocol carries a command.

module FrontEnds {
  import opened ByteStrings
  import opened Doubles
  import opened StoreSpec
  import opened Runs
  import A = AsciiCommands
  import M = MetaCommands
  import B = BinaryDispatch
  import F = Frames
  import R = RedisScripts

  // ------------------------------------------------------------- text handlers

  function KindOp(kind: A.StoreKind): StoreOp {
    match kind case KindSet => StoreOp.Set case KindAdd => StoreOp.Add case KindReplace => StoreOp.Replace
  }

  function KeySteps(keys: seq<Bytes>, exp: Option<nat>): (es: seq<Event>)
    ensures |es| == |keys|
  {
    seq(|keys|, i requires 0 <= i < |keys| =>
      var k := R.MakeRedisKey(keys[i]);
      if exp.Some? then EGat(k, exp.value) else EGet(k))
  }

  /** The scripts of `dispatch_cmd` for a classic command. */
  function ClassicSteps(cmd: A.AsciiCmd, data: Bytes): seq<Event> {
    match cmd
    case Store(kind, k, f, e, _, _) => [EStore(KindOp(kind), R.MakeRedisKey(k), data, Dec(f), Dec(0), e)]
    case Cas(k, f, e, _, c, _) => [EStore(StoreOp.Set, R.MakeRedisKey(k), data, Dec(f), Dec(c), e)]
    case AppendPrepend(p, k, _, _) => [EExtend(R.MakeRedisKey(k), data, NO_CAS, p)]
    case Retrieval(_, e, keys) => KeySteps(keys, e)
    case Delete(k, _) => [EDelete(R.MakeRedisKey(k), NO_CAS)]
    case Counter(d, k, delta, _) => [ECounter(R.MakeRedisKey(k), delta, d, NO_CAS, NO_CREATE)]
    case Touch(k, e, _) => [ETouch(R.MakeRedisKey(k), e)]
    case FlushAll(_, _) => [EFlush]
    case _ => []
  }

  const CH_C: byte := 'C' as int as byte
  const CH_D: byte := 'D' as int as byte
  const CH_J: byte := 'J' as int as byte
  const CH_N: byte := 'N' as int as byte

  function Arg(fs: seq<M.MetaFlag>, ch: byte, default: Bytes): Bytes {
    Or(M.FlagToken(fs, ch), default)
  }

  /** A numeric token as the script reads it. */
  function Num(text: Bytes): nat {
    var n := ParseUint(text, U64_MAX);
    if n.Some? then n.value else 0
  }

  /** The scripts of `dispatch_meta_cmd`: flags are validated first; `mg ... T` takes two steps. */
  function MetaSteps(cmd: M.MetaCmd, data: Bytes): seq<Event> {
    if !M.ValidFlags(cmd) then []
    else
      match cmd
      case MGet(key, fs) => MetaGetSteps(R.MakeRedisKey(key), fs)
      case MSet(key, _, fs) => [MetaSetStep(R.MakeRedisKey(key), data, fs)]
      case MDelete(key, fs) => [EDelete(R.MakeRedisKey(key), Arg(fs, CH_C, NO_CAS))]
      case MArithmetic(key, fs) => [MetaArithStep(R.MakeRedisKey(key), fs)]
      case _ => []
  }

  function MetaGetSteps(k: Bytes, fs: seq<M.MetaFlag>): seq<Event> {
    var t := M.FlagToken(fs, M.CH_T);
    if t.Some? then [ETouch(k, Num(t.value)), EMetaGet(k)] else [EMetaGet(k)]
  }

  function MetaArithStep(k: Bytes, fs: seq<M.MetaFlag>): Event {
    var n := M.FlagToken(fs, CH_N);
    ECounter(k, Num(Arg(fs, CH_D, Dec(1))), Arg(fs, M.CH_M, Ascii("I")) == Ascii("D"),
             Arg(fs, CH_J, NO_CAS), if n.Some? then Num(n.value) else NO_CREATE)
  }

  function MetaSetStep(k: Bytes, data: Bytes, fs: seq<M.MetaFlag>): Event {
    var mode := Arg(fs, M.CH_M, Ascii("S"));
    var cas := Arg(fs, CH_C, NO_CAS);
    if mode == Ascii("A") || mode == Ascii("P") then EExtend(k, data, cas, mode == Ascii("P"))
    else
      EStore(if mode == Ascii("E") then StoreOp.Add else if mode == Ascii("R") then StoreOp.Replace else StoreOp.Set,
             k, data, Arg(fs, M.CH_F, NO_CAS), cas, Num(Arg(fs, M.CH_T, NO_CAS)))
  }

  function RunAll(s: State, es: seq<Event>): Outcome {
    if es == [] then Outcome(s, Elapsed)
    else Step(RunAll(s, es[..|es| - 1]).s, es[|es| - 1])
  }

  // ------------------------------------------------------- protocol-free commands

  /** What a client wants done; `Cas` variants use the token it last fetched for the key. */
  datatype Op =
    | Put(kind: A.StoreKind, k: Bytes, v: Bytes, flags: nat, exp: nat)
    | CasPut(k: Bytes, v: Bytes, flags: nat, exp: nat)
    | Grow(k: Bytes, data: Bytes, prepend: bool)
    | CasGrow(k: Bytes, data: Bytes, prepend: bool)
    | Remove(k: Bytes)
    | CasRemove(k: Bytes)
    | Arith(k: Bytes, delta: nat, decr: bool)
    | ArithCreate(k: Bytes, delta: nat, decr: bool, initial: nat, exp: nat)
    | Retime(k: Bytes, exp: nat)
    | FetchTouch(k: Bytes, exp: nat)
    | Fetch(k: Bytes)
    | Wipe
    | Pass(dt: nat)

  datatype Protocol = Binary(quiet: bool) | ClassicText(quiet: bool) | MetaText(quiet: bool)

  /** The data block or value a command carries. */
  function DataOf(op: Op): Bytes {
    match op
    case Put(_, _, v, _, _) => v
    case CasPut(_, v, _, _) => v
    case Grow(_, data, _) => data
    case CasGrow(_, data, _) => data
    case _ => []
  }

  /** A key that protocol p can carry, with data that fits. */
  predicate Carries(op: Op, p: Protocol) {
    op.Wipe? || op.Pass? ||
    if p.Binary? then |op.k| <= F.MAX_KEY_LEN && 20 + |op.k| + |DataOf(op)| <= F.MAX_BODY_LEN
    else A.PrintableKey(op.k) && |DataOf(op)| <= F.MAX_BODY_LEN
  }

  predicate Expressible(op: Op, p: Protocol) {
    Carries(op, p) &&
    match op
    case CasGrow(_, _, _) => !p.ClassicText?
    case CasRemove(_) => !p.ClassicText?
    case ArithCreate(_, _, _, _, _) => !p.ClassicText?
    case Wipe => !p.MetaText?
    case _ => true
  }

  predicate Fits(op: Op) {
    match op
    case Put(_, _, _, f, e) => f <= U32_MAX && e <= U32_MAX
    case CasPut(_, _, f, e) => f <= U32_MAX && e <= U32_MAX
    case Arith(_, d, _) => d <= U64_MAX
    case ArithCreate(_, d, _, i, e) => d <= U64_MAX && i <= U64_MAX && e <= U32_MAX
    case Retime(_, e) => e <= U32_MAX
    case FetchTouch(_, e) => e <= U32_MAX
    case _ => true
  }

  predicate Reads(op: Op) { op.Fetch? || op.FetchTouch? }

  predicate NeedsToken(op: Op) { op.CasPut? || op.CasGrow? || op.CasRemove? }

  /** The server state and the tokens the client remembers. */
  datatype Client = Client(s: State, mem: map<Bytes, nat>)

  function Remembered(c: Client, op: Op): nat {
    if NeedsToken(op) && op.k in c.mem then c.mem[op.k] else 0
  }

  /** The one script that says what the command does. */
  function Canon(op: Op, token: nat): Event {
    match op
    case Put(kind, k, v, f, e) => EStore(KindOp(kind), R.MakeRedisKey(k), v, Dec(f), Dec(0), e)
    case CasPut(k, v, f, e) => EStore(StoreOp.Set, R.MakeRedisKey(k), v, Dec(f), Dec(token), e)
    case Grow(k, d, p) => EExtend(R.MakeRedisKey(k), d, Dec(0), p)
    case CasGrow(k, d, p) => EExtend(R.MakeRedisKey(k), d, Dec(token), p)
    case Remove(k) => EDelete(R.MakeRedisKey(k), Dec(0))
    case CasRemove(k) => EDelete(R.MakeRedisKey(k), Dec(token))
    case Arith(k, d, decr) => ECounter(R.MakeRedisKey(k), d, decr, Dec(0), NO_CREATE)
    case ArithCreate(k, d, decr, i, e) => ECounter(R.MakeRedisKey(k), d, decr, Dec(i), e)
    case Retime(k, e) => ETouch(R.MakeRedisKey(k), e)
    case FetchTouch(k, e) => EGat(R.MakeRedisKey(k), e)
    case Fetch(k) => EGet(R.MakeRedisKey(k))
    case Wipe => EFlush
    case Pass(dt) => ETick(dt)
  }

  // --------------------------------------------------------- the three encodings

  function Wire(code: B.Opcode, cas: nat, extras: Bytes, key: Bytes, value: Bytes): F.Request {
    F.Request(F.Header(B.Code(code), |key|, |extras|, |extras| + |key| + |value|, 0, cas), extras, key, value)
  }

  function Quiet(quiet: bool, loud: B.Opcode, silent: B.Opcode): B.Opcode { if quiet then silent else loud }

  function ToBinary(op: Op, q: bool, token: nat): (r: Option<(B.Opcode, F.Request)>)
    ensures r.Some? <==> !op.Pass?
  {
    match op
    case Put(kind, k, v, f, e) =>
      var code := match kind
        case KindSet => Quiet(q, B.OpSet, B.OpSetQ)
        case KindAdd => Quiet(q, B.OpAdd, B.OpAddQ)
        case KindReplace => Quiet(q, B.OpReplace, B.OpReplaceQ);
      Some((code, Wire(code, 0, BigEndian(f, 4) + BigEndian(e, 4), k, v)))
    case CasPut(k, v, f, e) =>
      var code := Quiet(q, B.OpSet, B.OpSetQ);
      Some((code, Wire(code, token, BigEndian(f, 4) + BigEndian(e, 4), k, v)))
    case Grow(k, d, p) => Some(GrowWire(k, d, p, q, 0))
    case CasGrow(k, d, p) => Some(GrowWire(k, d, p, q, token))
    case Remove(k) => var code := Quiet(q, B.OpDelete, B.OpDeleteQ); Some((code, Wire(code, 0, [], k, [])))
    case CasRemove(k) => var code := Quiet(q, B.OpDelete, B.OpDeleteQ); Some((code, Wire(code, token, [], k, [])))
    case Arith(k, d, decr) => Some(ArithWire(k, d, decr, 0, NO_CREATE, q))
    case ArithCreate(k, d, decr, i, e) => Some(ArithWire(k, d, decr, i, e, q))
    case Retime(k, e) => Some((B.OpTouch, Wire(B.OpTouch, 0, BigEndian(e, 4), k, [])))
    case FetchTouch(k, e) =>
      var code := Quiet(q, B.OpGat, B.OpGatQ);
      Some((code, Wire(code, 0, BigEndian(e, 4), k, [])))
    case Fetch(k) => var code := Quiet(q, B.OpGetK, B.OpGetKQ); Some((code, Wire(code, 0, [], k, [])))
    case Wipe => var code := Quiet(q, B.OpFlush, B.OpFlushQ); Some((code, Wire(code, 0, [], [], [])))
    case Pass(_) => None
  }

  function GrowWire(k: Bytes, d: Bytes, p: bool, q: bool, token: nat): (B.Opcode, F.Request) {
    var code := if p then Quiet(q, B.OpPrepend, B.OpPrependQ) else Quiet(q, B.OpAppend, B.OpAppendQ);
    (code, Wire(code, token, [], k, d))
  }

  function ArithWire(k: Bytes, d: nat, decr: bool, i: nat, e: nat, q: bool): (B.Opcode, F.Request) {
    var code := if decr then Quiet(q, B.OpDecrement, B.OpDecrementQ) else Quiet(q, B.OpIncrement, B.OpIncrementQ);
    (code, Wire(code, 0, BigEndian(d, 8) + BigEndian(i, 8) + BigEndian(e, 4), k, []))
  }

  function ToClassic(op: Op, q: bool, token: nat): (r: Option<(A.AsciiCmd, Bytes)>)
    ensures r.Some? <==> !op.Pass? && !op.CasGrow? && !op.CasRemove? && !op.ArithCreate?
  {
    match op
    case Put(kind, k, v, f, e) => Some((A.Store(kind, k, f, e, |v|, q), v))
    case CasPut(k, v, f, e) => Some((A.Cas(k, f, e, |v|, token, q), v))
    case Grow(k, d, p) => Some((A.AppendPrepend(p, k, |d|, q), d))
    case Remove(k) => Some((A.Delete(k, q), []))
    case Arith(k, d, decr) => Some((A.Counter(decr, k, d, q), []))
    case Retime(k, e) => Some((A.Touch(k, e, q), []))
    case FetchTouch(k, e) => Some((A.Retrieval(true, Some(e), [k]), []))
    case Fetch(k) => Some((A.Retrieval(true, None, [k]), []))
    case Wipe => Some((A.FlushAll(0, q), []))
    case _ => None
  }

  function Flag(ch: char, token: Bytes): M.MetaFlag
    requires ch as int < 128
  {
    M.MetaFlag(ch as int as byte, Some(token))
  }

  function Bare(ch: char): M.MetaFlag
    requires ch as int < 128
  {
    M.MetaFlag(ch as int as byte, None)
  }

  function Q(q: bool): seq<M.MetaFlag> { if q then [Bare('q')] else [] }

  function ModeText(kind: A.StoreKind): Bytes {
    match kind case KindSet => Ascii("S") case KindAdd => Ascii("E") case KindReplace => Ascii("R")
  }

  /** The flags of a command's encoding without the optional q. */
  function FlagsOf(op: Op, token: nat): seq<M.MetaFlag> {
    match op
    case Put(kind, _, _, f, e) => [Flag('F', Dec(f)), Flag('T', Dec(e)), Flag('M', ModeText(kind))]
    case CasPut(_, _, f, e) => [Flag('F', Dec(f)), Flag('T', Dec(e)), Flag('C', Dec(token))]
    case Grow(_, _, p) => [Flag('M', GrowMode(p))]
    case CasGrow(_, _, p) => [Flag('M', GrowMode(p)), Flag('C', Dec(token))]
    case Remove(_) => []
    case CasRemove(_) => [Flag('C', Dec(token))]
    case Arith(_, d, decr) => [Flag('D', Dec(d)), Flag('M', ArithMode(decr)), Bare('v')]
    case ArithCreate(_, d, decr, i, e) =>
      [Flag('D', Dec(d)), Flag('M', ArithMode(decr)), Flag('J', Dec(i)), Flag('N', Dec(e)), Bare('v')]
    case Retime(_, e) => [Flag('T', Dec(e))]
    case FetchTouch(_, e) => [Flag('T', Dec(e)), Bare('c'), Bare('v'), Bare('f')]
    case Fetch(_) => [Bare('c'), Bare('v'), Bare('f')]
    case _ => []
  }

  function ToMeta(op: Op, q: bool, token: nat): (r: Option<(M.MetaCmd, Bytes)>)
    ensures r.Some? <==> !op.Pass? && !op.Wipe?
  {
    var fs := FlagsOf(op, token) + Q(q);
    match op
    case Put(_, k, v, _, _) => Some((M.MSet(k, |v|, fs), v))
    case CasPut(k, v, _, _) => Some((M.MSet(k, |v|, fs), v))
    case Grow(k, d, _) => Some((M.MSet(k, |d|, fs), d))
    case CasGrow(k, d, _) => Some((M.MSet(k, |d|, fs), d))
    case Remove(k) => Some((M.MDelete(k, fs), []))
    case CasRemove(k) => Some((M.MDelete(k, fs), []))
    case Arith(k, _, _) => Some((M.MArithmetic(k, fs), []))
    case ArithCreate(k, _, _, _, _) => Some((M.MArithmetic(k, fs), []))
    case Retime(k, _) => Some((M.MGet(k, fs), []))
    case FetchTouch(k, _) => Some((M.MGet(k, fs), []))
    case Fetch(k) => Some((M.MGet(k, fs), []))
    case _ => None
  }

  function GrowMode(p: bool): Bytes { if p then Ascii("P") else Ascii("A") }
  function ArithMode(decr: bool): Bytes { if decr then Ascii("D") else Ascii("I") }

  // ---------------------------------------------------------------- running one

  /** The token a read's reply carries. */
  function TokenOf(r: Reply): Option<nat> {
    match r
    case Hit(_, _, c) => Some(c)
    case MetaHit(_, _, c, _) => Some(c)
    case _ => None
  }

  /** The command as protocol p carries it: state and last reply. */
  function Carried(s: State, op: Op, p: Protocol, token: nat): Outcome {
    if op.Pass? then Tick(s, op.dt)
    else
      match p
      case Binary(q) =>
        (var w := ToBinary(op, q, token);
         if w.None? then Outcome(s, Elapsed) else B.Execute(s, w.value.0, w.value.1))
      case ClassicText(q) =>
        (var w := ToClassic(op, q, token);
         if w.None? then Outcome(s, Elapsed) else RunAll(s, ClassicSteps(w.value.0, w.value.1)))
      case MetaText(q) =>
        (var w := ToMeta(op, q, token);
         if w.None? then Outcome(s, Elapsed) else RunAll(s, MetaSteps(w.value.0, w.value.1)))
  }

  /** The client sends the command; a conditional command without a token is not sent. */
  function Send(c: Client, op: Op, p: Protocol): Client {
    if NeedsToken(op) && op.k !in c.mem then c
    else
      var o := Carried(c.s, op, p, Remembered(c, op));
      var t := TokenOf(o.r);
      Client(o.s, if Reads(op) && t.Some? then c.mem[op.k := t.value] else c.mem)
  }

  // ------------------------------------------- every encoding means its canon

  /** Equal up to the counter, which a loud binary DELETE advances once more. */
  predicate Matches(o: Outcome, canon: Outcome) {
    && o.s.items == canon.s.items && o.s.now == canon.s.now
    && canon.s.counter <= o.s.counter <= canon.s.counter + 1
    && SameAnswer(o.r, canon.r)
  }

  /** `mg` answers reads and touches alike with the item. */
  predicate SameAnswer(r: Reply, canon: Reply) {
    r == canon
    || match canon
       case Hit(v, f, c) => r.MetaHit? && r.v == v && r.f == f && r.cas == c
       case Done(c) => r.MetaHit? && r.cas == c
       case _ => false
  }

  lemma BinaryMeans(s: State, op: Op, q: bool, token: nat)
    requires Fits(op) && token <= U64_MAX && !op.Pass?
    ensures Matches(Carried(s, op, Binary(q), token), Step(s, Canon(op, token)))
  {
    hide Step, Dec, BigEndian, FromBigEndian, R.MakeRedisKey, Matches;
    var (code, req) := ToBinary(op, q, token).value;
    BinaryScript(op, q, token);
    BinaryStep(s, code, req, Canon(op, token));
  }

  lemma BinaryStep(s: State, code: B.Opcode, req: F.Request, e: Event)
    requires B.ScriptOf(code, req) == Some(e)
    ensures Matches(B.Execute(s, code, req), Step(s, e))
  {
  }

  lemma BinaryScript(op: Op, q: bool, token: nat)
    requires Fits(op) && token <= U64_MAX && !op.Pass?
    ensures var w := ToBinary(op, q, token).value; B.ScriptOf(w.0, w.1) == Some(Canon(op, token))
  {
    hide B.ScriptOf, B.Base, Dec, BigEndian, FromBigEndian, R.MakeRedisKey, Wire, B.StoreOpOf;
    match op {
      case Put(kind, k, v, f, e) => StoreCode(kind, q); StoreScript(ToBinary(op, q, token).value.0, 0, k, v, f, e);
      case CasPut(k, v, f, e) =>
        StoreCode(A.KindSet, q);
        StoreScript(ToBinary(op, q, token).value.0, token, k, v, f, e);
      case Arith(k, d, decr) => ArithScript(k, d, decr, 0, NO_CREATE, q);
      case ArithCreate(k, d, decr, i, e) => ArithScript(k, d, decr, i, e, q);
      case _ => OtherScript(op, q, token);
    }
  }

  lemma StoreCode(kind: A.StoreKind, q: bool)
    ensures var code := match kind
        case KindSet => Quiet(q, B.OpSet, B.OpSetQ)
        case KindAdd => Quiet(q, B.OpAdd, B.OpAddQ)
        case KindReplace => Quiet(q, B.OpReplace, B.OpReplaceQ);
      B.Base(code) in {B.OpSet, B.OpAdd, B.OpReplace} && B.StoreOpOf(B.Base(code)) == KindOp(kind)
  {
  }

  lemma StoreScript(code: B.Opcode, token: nat, k: Bytes, v: Bytes, f: nat, e: nat)
    requires B.Base(code) in {B.OpSet, B.OpAdd, B.OpReplace} && f <= U32_MAX && e <= U32_MAX
    ensures B.ScriptOf(code, Wire(code, token, BigEndian(f, 4) + BigEndian(e, 4), k, v))
      == Some(EStore(B.StoreOpOf(B.Base(code)), R.MakeRedisKey(k), v, Dec(f), Dec(token), e))
  {
    hide Dec, BigEndian, FromBigEndian, R.MakeRedisKey, B.Base, B.Code;
    TwoFields(f, e);
  }

  lemma ArithScript(k: Bytes, d: nat, decr: bool, i: nat, e: nat, q: bool)
    requires d <= U64_MAX && i <= U64_MAX && e <= U32_MAX
    ensures var w := ArithWire(k, d, decr, i, e, q);
      B.ScriptOf(w.0, w.1) == Some(ECounter(R.MakeRedisKey(k), d, decr, Dec(i), e))
  {
    hide Dec, BigEndian, FromBigEndian, R.MakeRedisKey, B.Code;
    ThreeFields(d, i, e);
  }

  lemma OtherScript(op: Op, q: bool, token: nat)
    requires Fits(op) && !op.Pass? && !op.Put? && !op.CasPut? && !op.Arith? && !op.ArithCreate?
    ensures var w := ToBinary(op, q, token).value; B.ScriptOf(w.0, w.1) == Some(Canon(op, token))
  {
    hide Dec, BigEndian, FromBigEndian, R.MakeRedisKey, B.Code;
    F.Widths();
    if op.Retime? || op.FetchTouch? { BigEndianRoundTrip(op.exp, 4); }
  }

  lemma TwoFields(f: nat, e: nat)
    requires f <= U32_MAX && e <= U32_MAX
    ensures var x := BigEndian(f, 4) + BigEndian(e, 4);
      FromBigEndian(x[..4]) == f && FromBigEndian(x[4..]) == e
  {
    F.Widths();
    BigEndianRoundTrip(f, 4);
    BigEndianRoundTrip(e, 4);
    var x := BigEndian(f, 4) + BigEndian(e, 4);
    assert x[..4] == BigEndian(f, 4) && x[4..] == BigEndian(e, 4);
  }

  lemma ThreeFields(d: nat, i: nat, e: nat)
    requires d <= U64_MAX && i <= U64_MAX && e <= U32_MAX
    ensures var x := BigEndian(d, 8) + BigEndian(i, 8) + BigEndian(e, 4);
      FromBigEndian(x[..8]) == d && FromBigEndian(x[8..16]) == i && FromBigEndian(x[16..]) == e
  {
    F.Widths();
    BigEndianRoundTrip(d, 8);
    BigEndianRoundTrip(i, 8);
    BigEndianRoundTrip(e, 4);
    var x := BigEndian(d, 8) + BigEndian(i, 8) + BigEndian(e, 4);
    assert x[..8] == BigEndian(d, 8) && x[8..16] == BigEndian(i, 8) && x[16..] == BigEndian(e, 4);
  }

  lemma RunOne(s: State, e: Event)
    ensures RunAll(s, [e]) == Step(s, e)
  {
  }

  lemma ClassicMeans(s: State, op: Op, q: bool, token: nat)
    requires Expressible(op, ClassicText(q)) && !op.Pass?
    ensures Matches(Carried(s, op, ClassicText(q), token), Step(s, Canon(op, token)))
  {
    hide Step, Dec, R.MakeRedisKey;
    assert Dec(0) == NO_CAS by { DecZero(0); }
    var (cmd, data) := ToClassic(op, q, token).value;
    var e := Canon(op, token);
    assert ClassicSteps(cmd, data) == [e];
    RunOne(s, e);
  }

  lemma MetaMeans(s: State, op: Op, q: bool, token: nat)
    requires Expressible(op, MetaText(q)) && Fits(op) && token <= U64_MAX && !op.Pass?
    ensures Matches(Carried(s, op, MetaText(q), token), Step(s, Canon(op, token)))
  {
    hide Step, Dec, R.MakeRedisKey, MetaSteps, Matches, ToMeta;
    MetaScript(op, q, token);
    var (cmd, data) := ToMeta(op, q, token).value;
    var e := Canon(op, token);
    match op {
      case Retime(k, x) => TouchThenGet(s, R.MakeRedisKey(k), x);
      case FetchTouch(k, x) => TouchThenGet(s, R.MakeRedisKey(k), x);
      case Fetch(k) => RunOne(s, EMetaGet(R.MakeRedisKey(k))); GetIsMetaGet(s, R.MakeRedisKey(k));
      case _ => RunOne(s, e); SameMatches(Step(s, e));
    }
  }

  lemma SameMatches(o: Outcome)
    ensures Matches(o, o)
  {
  }

  lemma GetIsMetaGet(s: State, k: Bytes)
    ensures Matches(Step(s, EMetaGet(k)), Step(s, EGet(k)))
  {
  }

  /** `mg ... T` (touch, then read) has the effect of a GAT. */
  lemma TouchThenGet(s: State, k: Bytes, exp: nat)
    ensures var o := RunAll(s, [ETouch(k, exp), EMetaGet(k)]);
      Matches(o, Step(s, EGat(k, exp))) && Matches(o, Step(s, ETouch(k, exp)))
  {
    var es := [ETouch(k, exp), EMetaGet(k)];
    assert es[..1] == [ETouch(k, exp)];
    RunOne(s, ETouch(k, exp));
  }

  // Looking up flags in a short list followed by the optional q.

  lemma {:induction false} QuietAfter(fs: seq<M.MetaFlag>, q: bool, ch: byte)
    requires ch as int != 'q' as int
    ensures M.FlagToken(fs + Q(q), ch) == M.FlagToken(fs, ch)
  {
    if fs == [] {
      assert fs + Q(q) == Q(q);
      if q { assert Q(q)[1..] == []; }
    } else {
      assert (fs + Q(q))[1..] == fs[1..] + Q(q);
      QuietAfter(fs[1..], q, ch);
    }
  }

  /** The token of ch from the n-th flag on. */
  function Pick(fs: seq<M.MetaFlag>, n: nat, ch: byte): Option<Bytes>
    requires n <= |fs|
    decreases |fs| - n
  {
    if n < |fs| then (if fs[n].ch == ch then fs[n].token else Pick(fs, n + 1, ch)) else None
  }

  lemma {:induction false} PickIsToken(fs: seq<M.MetaFlag>, n: nat, ch: byte)
    requires n <= |fs|
    ensures Pick(fs, n, ch) == M.FlagToken(fs[n..], ch)
    decreases |fs| - n
  {
    if n < |fs| {
      assert fs[n..][1..] == fs[n + 1..];
      PickIsToken(fs, n + 1, ch);
    }
  }

  lemma Lookup(fs: seq<M.MetaFlag>, q: bool, ch: byte)
    requires |fs| <= 5 && ch as int != 'q' as int
    ensures M.FlagToken(fs + Q(q), ch)
      == if |fs| > 0 && fs[0].ch == ch then fs[0].token
         else if |fs| > 1 && fs[1].ch == ch then fs[1].token
         else if |fs| > 2 && fs[2].ch == ch then fs[2].token
         else if |fs| > 3 && fs[3].ch == ch then fs[3].token
         else if |fs| > 4 && fs[4].ch == ch then fs[4].token else None
  {
    hide M.FlagToken;
    QuietAfter(fs, q, ch);
    PickIsToken(fs, 0, ch);
    assert fs[0..] == fs;
    assert |fs| > 0 ==> Pick(fs, 0, ch) == if fs[0].ch == ch then fs[0].token else Pick(fs, 1, ch);
    assert |fs| > 1 ==> Pick(fs, 1, ch) == if fs[1].ch == ch then fs[1].token else Pick(fs, 2, ch);
    assert |fs| > 2 ==> Pick(fs, 2, ch) == if fs[2].ch == ch then fs[2].token else Pick(fs, 3, ch);
    assert |fs| > 3 ==> Pick(fs, 3, ch) == if fs[3].ch == ch then fs[3].token else Pick(fs, 4, ch);
    assert |fs| > 4 ==> Pick(fs, 4, ch) == if fs[4].ch == ch then fs[4].token else Pick(fs, 5, ch);
  }

  /** The scripts a meta command runs. */
  lemma MetaScript(op: Op, q: bool, token: nat)
    requires Expressible(op, MetaText(q)) && Fits(op) && token <= U64_MAX && !op.Pass?
    ensures ToMeta(op, q, token).Some?
    ensures var w := ToMeta(op, q, token).value;
      MetaSteps(w.0, w.1) == match op
        case Retime(k, e) => [ETouch(R.MakeRedisKey(k), e), EMetaGet(R.MakeRedisKey(k))]
        case FetchTouch(k, e) => [ETouch(R.MakeRedisKey(k), e), EMetaGet(R.MakeRedisKey(k))]
        case Fetch(k) => [EMetaGet(R.MakeRedisKey(k))]
        case _ => [Canon(op, token)]
  {
    hide Dec, ParseUint, R.MakeRedisKey, M.ValidFlags, M.FlagToken, Q, Step;
    assert Dec(0) == NO_CAS by { DecZero(0); }
    forall n: nat ensures n <= U64_MAX ==> Num(Dec(n)) == n { ParseDec(n, U64_MAX); }
    MetaFlagsValid(op, q, token);
    ModeWords();
    var fs := FlagsOf(op, token);
    Lookup(fs, q, M.CH_T); Lookup(fs, q, M.CH_M); Lookup(fs, q, M.CH_F);
    Lookup(fs, q, CH_C); Lookup(fs, q, CH_D); Lookup(fs, q, CH_J); Lookup(fs, q, CH_N);
    assert ToMeta(op, q, token).value.0.flags == fs + Q(q);
  }

  lemma ModeWords()
    ensures Ascii("S") != Ascii("A") && Ascii("S") != Ascii("P") && Ascii("S") != Ascii("E") && Ascii("S") != Ascii("R")
    ensures Ascii("A") != Ascii("P") && Ascii("E") != Ascii("A") && Ascii("E") != Ascii("P") && Ascii("E") != Ascii("R")
    ensures Ascii("R") != Ascii("A") && Ascii("R") != Ascii("P") && Ascii("I") != Ascii("D")
  {
    assert Ascii("S")[0] as int == 'S' as int && Ascii("A")[0] as int == 'A' as int;
    assert Ascii("P")[0] as int == 'P' as int && Ascii("E")[0] as int == 'E' as int;
    assert Ascii("R")[0] as int == 'R' as int && Ascii("I")[0] as int == 'I' as int;
    assert Ascii("D")[0] as int == 'D' as int;
  }

  lemma CharIn(s: string, i: nat)
    requires i < |s| && forall j :: 0 <= j < |s| ==> s[j] as int < 128
    ensures (s[i] as int as byte) in Ascii(s)
  {
  }

  /** A flag that passes the checks of its command. */
  predicate GoodFlag(f: M.MetaFlag, supported: Bytes, numeric: Bytes) {
    && f.ch in supported
    && (f.ch in numeric ==> f.token.Some? && ParseUint(f.token.value, U64_MAX).Some?)
    && (f.ch == M.CH_M ==> f.token.Some?)
  }

  lemma GoodFlags(fs: seq<M.MetaFlag>, q: bool, supported: Bytes, numeric: Bytes)
    requires forall i :: 0 <= i < |fs| ==> GoodFlag(fs[i], supported, numeric)
    requires Bare('q').ch in supported && Bare('q').ch !in numeric
    ensures var all := fs + Q(q);
      M.Supported(all, supported) && M.NumericTokens(all, numeric) && M.ModesPresent(all)
  {
  }

  lemma NotIn(s: string, c: char)
    requires forall j :: 0 <= j < |s| ==> s[j] as int < 128 && s[j] != c
    requires c as int < 128
    ensures (c as int as byte) !in Ascii(s)
  {
  }

  lemma MetaFlagsValid(op: Op, q: bool, token: nat)
    requires Expressible(op, MetaText(q)) && Fits(op) && token <= U64_MAX && !op.Pass?
    ensures M.ValidFlags(ToMeta(op, q, token).value.0)
  {
    hide Dec, ParseUint, M.ValidGetFlags, M.ValidSetFlags, M.ValidDeleteFlags, M.ValidArithmeticFlags, Q;
    hide ArithMode, GrowMode, ModeText;
    forall n: nat ensures n <= U64_MAX ==> ParseUint(Dec(n), U64_MAX).Some? { ParseDec(n, U64_MAX); }
    var fs := FlagsOf(op, token);
    match op {
      case Retime(_, _) => GetFlags(fs, q);
      case FetchTouch(_, _) => GetFlags(fs, q);
      case Fetch(_) => GetFlags(fs, q);
      case Remove(_) => DeleteFlags(fs, q);
      case CasRemove(_) => DeleteFlags(fs, q);
      case Arith(_, _, _) => ArithFlagsValid(op, q, token);
      case ArithCreate(_, _, _, _, _) => ArithFlagsValid(op, q, token);
      case _ => SetFlagsValid(op, q, token);
    }
    assert ToMeta(op, q, token).value.0.flags == fs + Q(q);
  }

  lemma ArithFlagsValid(op: Op, q: bool, token: nat)
    requires Fits(op) && (op.Arith? || op.ArithCreate?)
    ensures M.ValidArithmeticFlags(FlagsOf(op, token) + Q(q))
  {
    hide Dec, ParseUint, M.Supported, M.NumericTokens, M.ModesPresent, M.FlagToken, Q;
    forall n: nat ensures n <= U64_MAX ==> ParseUint(Dec(n), U64_MAX).Some? { ParseDec(n, U64_MAX); }
    var fs := FlagsOf(op, token);
    Lookup(fs, q, M.CH_M);
    ArithFlags(fs, q);
  }

  lemma SetFlagsValid(op: Op, q: bool, token: nat)
    requires Fits(op) && token <= U64_MAX && (op.Put? || op.CasPut? || op.Grow? || op.CasGrow?)
    ensures M.ValidSetFlags(FlagsOf(op, token) + Q(q))
  {
    hide Dec, ParseUint, M.Supported, M.NumericTokens, M.ModesPresent, M.FlagToken, M.HasFlag, Q;
    forall n: nat ensures n <= U64_MAX ==> ParseUint(Dec(n), U64_MAX).Some? { ParseDec(n, U64_MAX); }
    ModeWords();
    var fs := FlagsOf(op, token);
    Lookup(fs, q, M.CH_M);
    SetFlags(fs, q);
    NoFlag(fs, q, M.CH_F);
    NoFlag(fs, q, M.CH_T);
  }

  lemma NoFlag(fs: seq<M.MetaFlag>, q: bool, ch: byte)
    requires ch as int != 'q' as int
    ensures (forall i :: 0 <= i < |fs| ==> fs[i].ch != ch) ==> !M.HasFlag(fs + Q(q), ch)
  {
  }

  predicate Numbered(f: M.MetaFlag) { f.token.Some? && ParseUint(f.token.value, U64_MAX).Some? }

  lemma GetFlags(fs: seq<M.MetaFlag>, q: bool)
    requires forall i :: 0 <= i < |fs| ==>
      (fs[i].ch == Bare('T').ch && Numbered(fs[i])) || fs[i].ch in {Bare('c').ch, Bare('v').ch, Bare('f').ch}
    ensures M.ValidGetFlags(fs + Q(q))
  {
    CharIn("vcfksOqtT", 0); CharIn("vcfksOqtT", 1); CharIn("vcfksOqtT", 2); CharIn("vcfksOqtT", 6);
    CharIn("vcfksOqtT", 8);
    NotIn("T", 'q'); NotIn("T", 'c'); NotIn("T", 'v'); NotIn("T", 'f');
    GoodFlags(fs, q, Ascii("vcfksOqtT"), Ascii("T"));
  }

  lemma SetFlags(fs: seq<M.MetaFlag>, q: bool)
    requires forall i :: 0 <= i < |fs| ==>
      (fs[i].ch in {Bare('F').ch, Bare('T').ch, Bare('C').ch} && Numbered(fs[i]))
      || (fs[i].ch == M.CH_M && fs[i].token.Some?)
    ensures var all := fs + Q(q);
      M.Supported(all, Ascii("FTCqOkM")) && M.NumericTokens(all, Ascii("FTC")) && M.ModesPresent(all)
  {
    CharIn("FTCqOkM", 0); CharIn("FTCqOkM", 1); CharIn("FTCqOkM", 2); CharIn("FTCqOkM", 3); CharIn("FTCqOkM", 6);
    NotIn("FTC", 'q'); NotIn("FTC", 'M');
    GoodFlags(fs, q, Ascii("FTCqOkM"), Ascii("FTC"));
  }

  lemma DeleteFlags(fs: seq<M.MetaFlag>, q: bool)
    requires forall i :: 0 <= i < |fs| ==> fs[i].ch == Bare('C').ch && Numbered(fs[i])
    ensures M.ValidDeleteFlags(fs + Q(q))
  {
    CharIn("CqOk", 0); CharIn("CqOk", 1);
    NotIn("C", 'q');
    GoodFlags(fs, q, Ascii("CqOk"), Ascii("C"));
  }

  lemma ArithFlags(fs: seq<M.MetaFlag>, q: bool)
    requires forall i :: 0 <= i < |fs| ==>
      (fs[i].ch in {Bare('D').ch, Bare('J').ch, Bare('N').ch} && Numbered(fs[i]))
      || (fs[i].ch == M.CH_M && fs[i].token.Some?) || fs[i].ch == Bare('v').ch
    ensures var all := fs + Q(q);
      M.Supported(all, Ascii("DJNqOkvcM")) && M.NumericTokens(all, Ascii("DJN")) && M.ModesPresent(all)
  {
    CharIn("DJNqOkvcM", 0); CharIn("DJNqOkvcM", 1); CharIn("DJNqOkvcM", 2); CharIn("DJNqOkvcM", 3);
    CharIn("DJNqOkvcM", 6); CharIn("DJNqOkvcM", 8);
    NotIn("DJN", 'q'); NotIn("DJN", 'M'); NotIn("DJN", 'v');
    GoodFlags(fs, q, Ascii("DJNqOkvcM"), Ascii("DJN"));
  }

  // ----------------------------------------------------- effects without tokens

  /** What a command does to the items, apart from the token it writes. */
  datatype Effect =
    | Keep
    | Write(k: Bytes, v: Option<Bytes>, f: Option<Bytes>, deadline: Option<nat>)
    | Drop(k: Bytes)
    | DropAll
    | Age(dt: nat)

  function Apply(s: State, x: Effect, token: nat): map<Bytes, Item> {
    match x
    case Keep => s.items
    case Write(k, v, f, d) => s.items[k := Item(v, f, token, d)]
    case Drop(k) => s.items - {k}
    case DropAll => map[]
    case Age(dt) => Tick(s, dt).s.items
  }

  /** Does the step's CAS check pass? Decided by comparing token numbers. */
  predicate Accepts(s: State, k: Bytes, token: nat) {
    token == 0 || (k in s.items && s.items[k].cas == token)
  }

  function StoreEffect(s: State, op: StoreOp, k: Bytes, v: Bytes, f: Bytes, exp: nat, ok: bool): Effect {
    if (op.Add? && k in s.items) || (op.Replace? && k !in s.items) || !ok then Keep
    else if Stale(exp, s.now) then Drop(k)
    else Write(k, Some(v), Some(f), Deadline(exp, s.now))
  }

  function CounterEffect(s: State, k: Bytes, delta: nat, decr: bool, init: Bytes, exp: nat): Effect {
    if k !in s.items then
      if exp == NO_CREATE then Keep
      else if Stale(exp, s.now) then Drop(k)
      else Write(k, Some(init), Some(NO_CAS), Deadline(exp, s.now))
    else
      var i := s.items[k];
      var num := if i.v.Some? then ToNumber(i.v.value) else None;
      if num.None? then Keep
      else Write(k, Some(Dec(Arithmetic(num.value, delta, decr))), i.f, i.deadline)
  }

  function TouchEffect(s: State, k: Bytes, exp: nat): Effect {
    if k !in s.items then Keep
    else
      var i := Touched(s.items[k], exp, s.now, 0);
      Write(k, i.v, i.f, i.deadline)
  }

  function EffectOf(s: State, op: Op, ok: bool): Effect {
    match op
    case Put(kind, k, v, f, e) => StoreEffect(s, KindOp(kind), R.MakeRedisKey(k), v, Dec(f), e, true)
    case CasPut(k, v, f, e) => StoreEffect(s, StoreOp.Set, R.MakeRedisKey(k), v, Dec(f), e, ok)
    case Grow(k, d, p) => GrowEffect(s, R.MakeRedisKey(k), d, p, true)
    case CasGrow(k, d, p) => GrowEffect(s, R.MakeRedisKey(k), d, p, ok)
    case Remove(k) => Drop(R.MakeRedisKey(k))
    case CasRemove(k) => if ok then Drop(R.MakeRedisKey(k)) else Keep
    case Arith(k, d, decr) => CounterEffect(s, R.MakeRedisKey(k), d, decr, Dec(0), NO_CREATE)
    case ArithCreate(k, d, decr, i, e) => CounterEffect(s, R.MakeRedisKey(k), d, decr, Dec(i), e)
    case Retime(k, e) => TouchEffect(s, R.MakeRedisKey(k), e)
    case FetchTouch(k, e) => TouchEffect(s, R.MakeRedisKey(k), e)
    case Fetch(_) => Keep
    case Wipe => DropAll
    case Pass(dt) => Age(dt)
  }

  function GrowEffect(s: State, k: Bytes, d: Bytes, p: bool, ok: bool): Effect {
    if k !in s.items || !ok then Keep
    else
      var i := s.items[k];
      Write(k, Some(Extended(i, d, p)), i.f, i.deadline)
  }

  function Time(op: Op): nat { if op.Pass? then op.dt else 0 }

  /** The key a command is about; commands without one get the empty client key. */
  function KeyOf(op: Op): Bytes {
    if op.Wipe? || op.Pass? then R.MakeRedisKey([]) else R.MakeRedisKey(op.k)
  }

  lemma TokenCheck(i: Item, token: nat)
    requires 1 <= i.cas < LUA_EXACT
    ensures CasRejected(i, Dec(token)) <==> token != 0 && i.cas != token
  {
    LuaTextExact(i.cas);
    DecZero(token);
    if Dec(i.cas) == Dec(token) { DecInjective(i.cas, token); }
  }

  lemma DropOverwrite(m: map<Bytes, Item>, k: Bytes, i: Item)
    ensures m[k := i] - {k} == m - {k}
    ensures k !in m ==> m - {k} == m
  {
  }

  /** The canonical script has exactly this effect, writing the next token. */
  lemma CanonEffect(s: State, op: Op, token: nat)
    requires TokenInv(s) && s.counter < LUA_EXACT && (NeedsToken(op) ==> token > 0)
    ensures var o := Step(s, Canon(op, token));
      var x := EffectOf(s, op, Accepts(s, KeyOf(op), token));
      && o.s.items == Apply(s, x, Fresh(s)) && o.s.now == s.now + Time(op)
      && s.counter <= o.s.counter <= s.counter + 1
      && (x.Write? ==> o.s.counter == Fresh(s))
  {
    hide LuaText, Dec, ToNumber, Arithmetic, Deadline, R.MakeRedisKey, CasRejected, TokenInv;
    var k := KeyOf(op);
    var o, x := Step(s, Canon(op, token)), EffectOf(s, op, Accepts(s, KeyOf(op), token));
    TokenFacts(s, k);
    DecZero(0);
    DecZero(token);
    if k in s.items {
      TokenCheck(s.items[k], token);
      TokenCheck(s.items[k], 0);
    }
    match op {
      case Put(_, _, v, f, e) => DropOverwrite(s.items, k, Item(Some(v), Some(Dec(f)), Fresh(s), Deadline(e, s.now)));
      case CasPut(_, v, f, e) => DropOverwrite(s.items, k, Item(Some(v), Some(Dec(f)), Fresh(s), Deadline(e, s.now)));
      case ArithCreate(_, _, _, i, e) =>
        DropOverwrite(s.items, k, Item(Some(Dec(i)), Some(NO_CAS), Fresh(s), Deadline(e, s.now)));
      case Remove(_) => if k !in s.items { assert s.items - {k} == s.items; }
      case Retime(_, _) => assert o.s.items == Apply(s, x, Fresh(s));
      case FetchTouch(_, _) => assert o.s.items == Apply(s, x, Fresh(s));
      case Grow(_, _, _) => assert o.s.items == Apply(s, x, Fresh(s));
      case CasGrow(_, _, _) => assert o.s.items == Apply(s, x, Fresh(s));
      case Arith(_, _, _) => assert o.s.items == Apply(s, x, Fresh(s));
      case CasRemove(_) => assert o.s.items == Apply(s, x, Fresh(s));
      case Wipe => assert o.s.items == Apply(s, x, Fresh(s));
      case Pass(_) => assert o.s.items == Apply(s, x, Fresh(s));
      case Fetch(_) => assert o.s.items == Apply(s, x, Fresh(s));
    }
  }

  lemma TokenFacts(s: State, k: Bytes)
    requires TokenInv(s)
    ensures k in s.items ==> 1 <= s.items[k].cas <= s.counter
  {
  }

  // ------------------------------------------------------------- the simulation

  /** A place where a client-visible token is: on an item, or remembered by the client. */
  datatype Place = OnItem(key: Bytes) | InMemory(key: Bytes)

  predicate IsPlace(c: Client, p: Place) {
    match p case OnItem(k) => k in c.s.items case InMemory(k) => k in c.mem
  }

  function TokenAt(c: Client, p: Place): nat
    requires IsPlace(c, p)
  {
    match p case OnItem(k) => c.s.items[k].cas case InMemory(k) => c.mem[k]
  }

  predicate SameItem(i: Item, j: Item) { i.v == j.v && i.f == j.f && i.deadline == j.deadline }

  /** Same clock, keys, values, flags and deadlines. */
  ghost predicate SameStore(s: State, t: State) {
    && s.now == t.now && s.items.Keys == t.items.Keys
    && forall k :: k in s.items ==> SameItem(s.items[k], t.items[k])
  }

  /** Tokens agree up to an order-preserving renaming. */
  ghost predicate SameOrder(c: Client, d: Client) {
    && (forall p :: IsPlace(c, p) <==> IsPlace(d, p))
    && (forall p, q :: IsPlace(c, p) && IsPlace(c, q) && IsPlace(d, p) && IsPlace(d, q) ==>
          (TokenAt(c, p) < TokenAt(c, q) <==> TokenAt(d, p) < TokenAt(d, q)))
  }

  ghost predicate Sound(c: Client) {
    TokenInv(c.s) && forall p :: IsPlace(c, p) ==> 1 <= TokenAt(c, p) <= c.s.counter
  }

  ghost predicate Similar(c: Client, d: Client) {
    SameStore(c.s, d.s) && SameOrder(c, d) && Sound(c) && Sound(d)
  }

  /** Each place holds what it held, or the new token, which is the largest on its side. */
  ghost predicate Grown(c: Client, d: Client, c': Client, d': Client, p: Place, a: nat, b: nat) {
    && IsPlace(c', p) && IsPlace(d', p)
    && ((IsPlace(c, p) && IsPlace(d, p) && TokenAt(c', p) == TokenAt(c, p) && TokenAt(d', p) == TokenAt(d, p))
        || (TokenAt(c', p) == a && TokenAt(d', p) == b))
  }

  /** Equal effects on both sides keep the stores similar. */
  lemma EffectSimilar(c: Client, d: Client, x: Effect, s: State, t: State)
    requires Similar(c, d)
    requires s.items == Apply(c.s, x, Fresh(c.s)) && t.items == Apply(d.s, x, Fresh(d.s))
    requires s.now == t.now && s.counter >= c.s.counter && t.counter >= d.s.counter
    requires x.Write? ==> s.counter >= Fresh(c.s) && t.counter >= Fresh(d.s)
    requires x.Age? ==> s.now == c.s.now + x.dt
    requires TokenInv(s) && TokenInv(t)
    ensures Similar(Client(s, c.mem), Client(t, d.mem))
  {
    hide TokenInv, Apply, IsPlace, TokenAt;
    var c', d' := Client(s, c.mem), Client(t, d.mem);
    forall p ensures IsPlace(c', p) <==> IsPlace(d', p) { EffectPlaces(c, d, x, s, t, p); }
    forall p | IsPlace(c', p)
      ensures Grown(c, d, c', d', p, Fresh(c.s), Fresh(d.s))
      ensures 1 <= TokenAt(c', p) <= s.counter && 1 <= TokenAt(d', p) <= t.counter
    {
      EffectPlaces(c, d, x, s, t, p);
    }
    EffectStore(c, d, x, s, t);
  }

  lemma EffectPlaces(c: Client, d: Client, x: Effect, s: State, t: State, p: Place)
    requires Similar(c, d)
    requires s.items == Apply(c.s, x, Fresh(c.s)) && t.items == Apply(d.s, x, Fresh(d.s))
    requires s.counter >= c.s.counter && t.counter >= d.s.counter
    requires x.Write? ==> s.counter >= Fresh(c.s) && t.counter >= Fresh(d.s)
    ensures var c', d' := Client(s, c.mem), Client(t, d.mem);
      && (IsPlace(c', p) <==> IsPlace(d', p))
      && (IsPlace(c', p) ==>
            Grown(c, d, c', d', p, Fresh(c.s), Fresh(d.s))
            && 1 <= TokenAt(c', p) <= s.counter && 1 <= TokenAt(d', p) <= t.counter)
  {
    hide TokenInv;
    assert IsPlace(c, p) <==> IsPlace(d, p);
    assert p.OnItem? && p.key in c.s.items ==> SameItem(c.s.items[p.key], d.s.items[p.key]);
  }

  lemma EffectStore(c: Client, d: Client, x: Effect, s: State, t: State)
    requires SameStore(c.s, d.s)
    requires s.items == Apply(c.s, x, Fresh(c.s)) && t.items == Apply(d.s, x, Fresh(d.s)) && s.now == t.now
    ensures SameStore(s, t)
  {
  }

  lemma EffectsAgree(s: State, t: State, op: Op, ok: bool)
    requires SameStore(s, t)
    ensures EffectOf(s, op, ok) == EffectOf(t, op, ok)
  {
    hide ToNumber, Arithmetic, Dec, Deadline, Stale, R.MakeRedisKey;
    var k := KeyOf(op);
    assert k in s.items ==> SameItem(s.items[k], t.items[k]);
  }

  /** The remembered token is current on one side exactly when it is on the other. */
  lemma AcceptsAgree(c: Client, d: Client, op: Op)
    requires Similar(c, d) && (NeedsToken(op) ==> op.k in c.mem)
    ensures NeedsToken(op) ==> op.k in d.mem && Remembered(c, op) > 0 && Remembered(d, op) > 0
    ensures Accepts(c.s, KeyOf(op), Remembered(c, op)) <==> Accepts(d.s, KeyOf(op), Remembered(d, op))
  {
    hide TokenInv, R.MakeRedisKey;
    if NeedsToken(op) {
      var m, i := InMemory(op.k), OnItem(KeyOf(op));
      assert IsPlace(c, m) && IsPlace(d, m);
      assert IsPlace(c, i) <==> IsPlace(d, i);
      if IsPlace(c, i) {
        assert TokenAt(c, m) < TokenAt(c, i) <==> TokenAt(d, m) < TokenAt(d, i);
        assert TokenAt(c, i) < TokenAt(c, m) <==> TokenAt(d, i) < TokenAt(d, m);
      }
    }
  }

  /** A carried command's state, whichever protocol carries it. */
  lemma CarriedEffect(c: Client, op: Op, p: Protocol)
    requires Sound(c) && Expressible(op, p) && Fits(op) && c.s.counter < LUA_EXACT
    requires NeedsToken(op) ==> op.k in c.mem
    ensures var o := Carried(c.s, op, p, Remembered(c, op));
      var x := EffectOf(c.s, op, Accepts(c.s, KeyOf(op), Remembered(c, op)));
      && o.s.items == Apply(c.s, x, Fresh(c.s)) && o.s.now == c.s.now + Time(op)
      && o.s.counter >= c.s.counter && (x.Write? ==> o.s.counter >= Fresh(c.s))
      && TokenInv(o.s)
      && (Reads(op) ==>
            TokenOf(o.r) == if KeyOf(op) in o.s.items then Some(o.s.items[KeyOf(op)].cas) else None)
  {
    hide Step, Canon, EffectOf, Apply, ToBinary, ToClassic, ToMeta, TokenInv, R.MakeRedisKey;
    var token := Remembered(c, op);
    if NeedsToken(op) { assert IsPlace(c, InMemory(op.k)); }
    CanonEffect(c.s, op, token);
    CanonTokens(c.s, op, token);
    if !op.Pass? {
      match p {
        case Binary(q) => BinaryMeans(c.s, op, q, token);
        case ClassicText(q) => ClassicMeans(c.s, op, q, token);
        case MetaText(q) => MetaMeans(c.s, op, q, token);
      }
      CounterOnly(Step(c.s, Canon(op, token)).s, Carried(c.s, op, p, token).s);
    }
  }

  lemma CounterOnly(s: State, t: State)
    requires TokenInv(s) && s.items == t.items && s.counter <= t.counter
    ensures TokenInv(t)
  {
  }

  lemma CanonTokens(s: State, op: Op, token: nat)
    requires TokenInv(s)
    ensures var o := Step(s, Canon(op, token));
      && TokenInv(o.s) && (op.Pass? ==> o == Tick(s, op.dt))
      && (Reads(op) ==> if KeyOf(op) in o.s.items then o.r.Hit? && o.r.cas == o.s.items[KeyOf(op)].cas else o.r.Miss?)
  {
    hide TokenInv, Dec, R.MakeRedisKey;
    StepTokens(s, Canon(op, token));
  }

  /** Remembering a fetched token keeps the clients similar. */
  lemma RememberSimilar(c: Client, d: Client, k: Bytes, key: Bytes)
    requires Similar(c, d) && key in c.s.items && key in d.s.items
    ensures Similar(Client(c.s, c.mem[k := c.s.items[key].cas]), Client(d.s, d.mem[k := d.s.items[key].cas]))
  {
    hide TokenInv, SameStore;
    var c', d' := Client(c.s, c.mem[k := c.s.items[key].cas]), Client(d.s, d.mem[k := d.s.items[key].cas]);
    forall p ensures IsPlace(c', p) <==> IsPlace(d', p) {
      assert IsPlace(c, p) <==> IsPlace(d, p);
    }
    // Each place holds the token of an earlier place, the same on both sides.
    forall p, q | IsPlace(c', p) && IsPlace(c', q) && IsPlace(d', p) && IsPlace(d', q)
      ensures TokenAt(c', p) < TokenAt(c', q) <==> TokenAt(d', p) < TokenAt(d', q)
    {
      var p0 := if p == InMemory(k) then OnItem(key) else p;
      var q0 := if q == InMemory(k) then OnItem(key) else q;
      assert IsPlace(c, p0) && IsPlace(c, q0) && IsPlace(d, p0) && IsPlace(d, q0);
      assert TokenAt(c, p0) < TokenAt(c, q0) <==> TokenAt(d, p0) < TokenAt(d, q0);
    }
    forall p | IsPlace(c', p) ensures 1 <= TokenAt(c', p) <= c'.s.counter {
      assert IsPlace(c, if p == InMemory(k) then OnItem(key) else p);
    }
    forall p | IsPlace(d', p) ensures 1 <= TokenAt(d', p) <= d'.s.counter {
      assert IsPlace(d, if p == InMemory(k) then OnItem(key) else p);
    }
  }

  /** One command, carried by protocol p on one side and by q on the other. */
  lemma SendSimilar(c: Client, d: Client, op: Op, p: Protocol, q: Protocol)
    requires Similar(c, d) && Fits(op) && Expressible(op, p) && Expressible(op, q)
    requires c.s.counter < LUA_EXACT && d.s.counter < LUA_EXACT
    ensures Similar(Send(c, op, p), Send(d, op, q))
  {
    hide Carried, EffectOf, Apply, TokenInv, SameStore, SameOrder, Accepts, R.MakeRedisKey;
    if NeedsToken(op) { SameMemory(c, d, op.k); }
    if NeedsToken(op) && op.k !in c.mem {
    } else {
      AcceptsAgree(c, d, op);
      CarriedEffect(c, op, p);
      CarriedEffect(d, op, q);
      var o, r := Carried(c.s, op, p, Remembered(c, op)), Carried(d.s, op, q, Remembered(d, op));
      var ok := Accepts(c.s, KeyOf(op), Remembered(c, op));
      EffectsAgree(c.s, d.s, op, ok);
      SameNow(c, d);
      AgeTime(c.s, op, ok);
      EffectSimilar(c, d, EffectOf(c.s, op, ok), o.s, r.s);
      var c', d' := Client(o.s, c.mem), Client(r.s, d.mem);
      if Reads(op) {
        SameKeys(c', d', KeyOf(op));
        if KeyOf(op) in o.s.items { RememberSimilar(c', d', op.k, KeyOf(op)); }
      }
    }
  }

  lemma SameMemory(c: Client, d: Client, k: Bytes)
    requires SameOrder(c, d)
    ensures k in c.mem <==> k in d.mem
  {
    assert IsPlace(c, InMemory(k)) <==> IsPlace(d, InMemory(k));
  }

  lemma SameNow(c: Client, d: Client)
    requires SameStore(c.s, d.s)
    ensures c.s.now == d.s.now
  {
  }

  lemma SameKeys(c: Client, d: Client, key: Bytes)
    requires SameStore(c.s, d.s)
    ensures key in c.s.items <==> key in d.s.items
  {
  }

  lemma AgeTime(s: State, op: Op, ok: bool)
    ensures EffectOf(s, op, ok).Age? ==> op.Pass? && EffectOf(s, op, ok).dt == op.dt
  {
  }

  // ----------------------------------------------------------- what replies say

  /** What a script's reply says, tokens apart. */
  datatype Lesson = Fine | Missing | Conflict | Refused | NotANumber | Counted(text: Bytes) | Value(v: Bytes, f: Bytes)

  function Learns(op: Op, r: Reply): Lesson {
    match r
    case Miss => Missing
    case Exists => Conflict
    case NotStored => Refused
    case NonNumeric => NotANumber
    case Number(text, _) => Counted(text)
    case Hit(v, f, _) => if Reads(op) then Value(v, f) else Fine
    case MetaHit(v, f, _, _) => if Reads(op) then Value(v, f) else Fine
    case _ => Fine
  }

  function ReadLesson(i: Item): Lesson { Value(Or(i.v, []), Or(i.f, NO_CAS)) }

  function CounterLesson(s: State, k: Bytes, delta: nat, decr: bool, init: Bytes, exp: nat): Lesson {
    if k !in s.items then (if exp == NO_CREATE then Missing else Counted(init))
    else
      var i := s.items[k];
      var num := if i.v.Some? then ToNumber(i.v.value) else None;
      if num.None? then NotANumber else Counted(Dec(Arithmetic(num.value, delta, decr)))
  }

  /** The answer a command deserves in a state; `ok` says whether its token is current. */
  function LessonOf(s: State, op: Op, ok: bool): Lesson {
    var k := KeyOf(op);
    match op
    case Put(kind, _, _, _, _) =>
      if kind.KindAdd? && k in s.items then Conflict
      else if kind.KindReplace? && k !in s.items then Missing else Fine
    case CasPut(_, _, _, _) => if k !in s.items then Missing else if ok then Fine else Conflict
    case Grow(_, _, _) => if k in s.items then Fine else Refused
    case CasGrow(_, _, _) => if k !in s.items then Refused else if ok then Fine else Conflict
    case Remove(_) => if k in s.items then Fine else Missing
    case CasRemove(_) => if k !in s.items then Missing else if ok then Fine else Conflict
    case Arith(_, d, decr) => CounterLesson(s, k, d, decr, Dec(0), NO_CREATE)
    case ArithCreate(_, d, decr, i, e) => CounterLesson(s, k, d, decr, Dec(i), e)
    case Retime(_, _) => if k in s.items then Fine else Missing
    case FetchTouch(_, e) => if k in s.items then ReadLesson(Touched(s.items[k], e, s.now, 0)) else Missing
    case Fetch(_) => if k in s.items then ReadLesson(s.items[k]) else Missing
    case _ => Fine
  }

  lemma CanonLesson(s: State, op: Op, token: nat)
    requires TokenInv(s) && s.counter < LUA_EXACT && (NeedsToken(op) ==> token > 0)
    ensures Learns(op, Step(s, Canon(op, token)).r) == LessonOf(s, op, Accepts(s, KeyOf(op), token))
  {
    hide LuaText, Dec, ToNumber, Arithmetic, Deadline, R.MakeRedisKey, CasRejected, TokenInv, With, Without;
    var k := KeyOf(op);
    TokenFacts(s, k);
    DecZero(0);
    DecZero(token);
    if k in s.items {
      TokenCheck(s.items[k], token);
      TokenCheck(s.items[k], 0);
    }
  }

  lemma LessonsAgree(s: State, t: State, op: Op, ok: bool)
    requires SameStore(s, t)
    ensures LessonOf(s, op, ok) == LessonOf(t, op, ok)
  {
    hide ToNumber, Arithmetic, Dec, Deadline, Stale, R.MakeRedisKey;
    var k := KeyOf(op);
    assert k in s.items ==> SameItem(s.items[k], t.items[k]);
  }

  lemma CarriedLesson(c: Client, op: Op, p: Protocol)
    requires Sound(c) && Expressible(op, p) && Fits(op) && c.s.counter < LUA_EXACT
    requires NeedsToken(op) ==> op.k in c.mem
    ensures Learns(op, Carried(c.s, op, p, Remembered(c, op)).r)
      == LessonOf(c.s, op, Accepts(c.s, KeyOf(op), Remembered(c, op)))
  {
    hide Step, Canon, LessonOf, ToBinary, ToClassic, ToMeta, TokenInv, R.MakeRedisKey;
    var token := Remembered(c, op);
    if NeedsToken(op) { assert IsPlace(c, InMemory(op.k)); }
    CanonLesson(c.s, op, token);
    CanonTokens(c.s, op, token);
    if !op.Pass? {
      match p {
        case Binary(q) => BinaryMeans(c.s, op, q, token);
        case ClassicText(q) => ClassicMeans(c.s, op, q, token);
        case MetaText(q) => MetaMeans(c.s, op, q, token);
      }
    }
  }

  // -------------------------------------------------------------- whole sessions

  function SendAll(c: Client, ops: seq<Op>, ps: seq<Protocol>): Client
    requires |ps| == |ops|
  {
    if ops == [] then c
    else Send(SendAll(c, ops[..|ops| - 1], ps[..|ops| - 1]), ops[|ops| - 1], ps[|ops| - 1])
  }

  predicate AllExpressible(ops: seq<Op>, ps: seq<Protocol>)
    requires |ps| == |ops|
  {
    forall i :: 0 <= i < |ops| ==> Fits(ops[i]) && Expressible(ops[i], ps[i])
  }

  /** The counter stays below 10^14 on the way. */
  predicate CounterSmall(c: Client, ops: seq<Op>, ps: seq<Protocol>)
    requires |ps| == |ops|
  {
    forall i :: 0 <= i <= |ops| ==> SendAll(c, ops[..i], ps[..i]).s.counter < LUA_EXACT
  }

  /**
   * Three front ends, one store.  The same commands, each carried by any protocol that can
   * express it, loud or quiet, leave the same keys, values, flags and deadlines; the tokens
   * on items and in the client's memory agree up to an order-preserving renaming.
   */
  lemma {:induction false} ThreeFrontEnds(c: Client, d: Client, ops: seq<Op>, ps: seq<Protocol>, qs: seq<Protocol>)
    requires Similar(c, d) && |ps| == |ops| == |qs|
    requires AllExpressible(ops, ps) && AllExpressible(ops, qs)
    requires CounterSmall(c, ops, ps) && CounterSmall(d, ops, qs)
    ensures Similar(SendAll(c, ops, ps), SendAll(d, ops, qs))
  {
    hide Similar, Send, Fits, Expressible;
    if ops != [] {
      var n := |ops| - 1;
      forall i | 0 <= i <= n
        ensures SendAll(c, ops[..n][..i], ps[..n][..i]).s.counter < LUA_EXACT
        ensures SendAll(d, ops[..n][..i], qs[..n][..i]).s.counter < LUA_EXACT
      {
        assert ops[..n][..i] == ops[..i] && ps[..n][..i] == ps[..i] && qs[..n][..i] == qs[..i];
      }
      ThreeFrontEnds(c, d, ops[..n], ps[..n], qs[..n]);
      assert SendAll(c, ops[..n], ps[..n]).s.counter < LUA_EXACT;
      assert SendAll(d, ops[..n], qs[..n]).s.counter < LUA_EXACT;
      SendSimilar(SendAll(c, ops[..n], ps[..n]), SendAll(d, ops[..n], qs[..n]), ops[n], ps[n], qs[n]);
    }
  }

  /**
   * On the way the scripts reply alike on both sides: at every command, the same success or
   * failure, the same value and flags, the same number.  What of it each protocol puts on the
   * wire is in `wire_replies.dfy`.
   */
  lemma SameAnswers(c: Client, d: Client, ops: seq<Op>, ps: seq<Protocol>, qs: seq<Protocol>, i: nat)
    requires Similar(c, d) && |ps| == |ops| == |qs| && i < |ops|
    requires AllExpressible(ops, ps) && AllExpressible(ops, qs)
    requires CounterSmall(c, ops, ps) && CounterSmall(d, ops, qs)
    ensures var x, y := SendAll(c, ops[..i], ps[..i]), SendAll(d, ops[..i], qs[..i]);
      && (NeedsToken(ops[i]) ==> (ops[i].k in x.mem <==> ops[i].k in y.mem))
      && ((NeedsToken(ops[i]) ==> ops[i].k in x.mem) ==>
        Learns(ops[i], Carried(x.s, ops[i], ps[i], Remembered(x, ops[i])).r)
        == Learns(ops[i], Carried(y.s, ops[i], qs[i], Remembered(y, ops[i])).r))
  {
    hide Carried, Learns, LessonOf, TokenInv, SameStore, SameOrder, Sound, Accepts, Remembered, R.MakeRedisKey;
    hide Fits, Expressible;
    var x, y := SendAll(c, ops[..i], ps[..i]), SendAll(d, ops[..i], qs[..i]);
    forall j | 0 <= j <= i
      ensures SendAll(c, ops[..i][..j], ps[..i][..j]).s.counter < LUA_EXACT
      ensures SendAll(d, ops[..i][..j], qs[..i][..j]).s.counter < LUA_EXACT
    {
      assert ops[..i][..j] == ops[..j] && ps[..i][..j] == ps[..j] && qs[..i][..j] == qs[..j];
    }
    ThreeFrontEnds(c, d, ops[..i], ps[..i], qs[..i]);
    var op := ops[i];
    if NeedsToken(op) { SameMemory(x, y, op.k); }
    if NeedsToken(op) ==> op.k in x.mem {
      AcceptsAgree(x, y, op);
      CarriedLesson(x, op, ps[i]);
      CarriedLesson(y, op, qs[i]);
      LessonsAgree(x.s, y.s, op, Accepts(x.s, KeyOf(op), Remembered(x, op)));
    }
  }

  /** Every client is similar to itself, so both sides may start from one store. */
  lemma SimilarReflexive(c: Client)
    requires Sound(c)
    ensures Similar(c, c)
  {
  }
}
