// The meta command handlers over the Redis keyspace, and their replies: a status code,
// words asked for by flags, and for reads a length-delimited block.

module MetaHandlers {
  import opened ByteStrings
  import opened Doubles
  import opened StoreSpec
  import opened RedisScripts
  import opened Hex
  import opened FrontEnds
  import opened MetaCommands
  import T = Retrieval
  import X = TextHandlers

  const CRLF: Bytes := T.CRLF

  // ------------------------------------------------------------------- messages

  /** A reply before printing. */
  datatype Msg = Msg(code: Bytes, words: seq<Bytes>, block: Option<Bytes>)

  const HD: Bytes := Ascii("HD")
  const EN: Bytes := Ascii("EN")
  const NF: Bytes := Ascii("NF")
  const NS: Bytes := Ascii("NS")
  const EX: Bytes := Ascii("EX")
  const VA: Bytes := Ascii("VA")
  const MN: Bytes := Ascii("MN")

  function Spaced(ws: seq<Bytes>): Bytes {
    if ws == [] then [] else Spaced(ws[..|ws| - 1]) + [SPACE] + ws[|ws| - 1]
  }

  /** The words of the reply's first line. */
  function Head(m: Msg): seq<Bytes> {
    [m.code] + (if m.block.Some? then [Dec(|m.block.value|)] else []) + m.words
  }

  function Line(ws: seq<Bytes>): Bytes
    requires ws != []
  {
    ws[0] + Spaced(ws[1..])
  }

  function Render(m: Msg): Bytes {
    Line(Head(m)) + CRLF + if m.block.Some? then m.block.value + CRLF else []
  }

  function Sent(m: Option<Msg>): Bytes { if m.Some? then Render(m.value) else [] }

  const CH_O: byte := 'O' as int as byte
  const CH_K: byte := 'k' as int as byte
  const CH_Q: byte := 'q' as int as byte
  const CH_V: byte := 'v' as int as byte
  const CH_LC: byte := 'c' as int as byte
  const CH_LF: byte := 'f' as int as byte
  const CH_LS: byte := 's' as int as byte
  const CH_LT: byte := 't' as int as byte

  /** `write_meta_flag_echo`: the opaque token and the key. */
  function Echo(fs: seq<MetaFlag>, key: Bytes): seq<Bytes> {
    var o := FlagToken(fs, CH_O);
    (if o.Some? then [[CH_O] + o.value] else []) + (if HasFlag(fs, CH_K) then [[CH_K] + key] else [])
  }

  function If(fs: seq<MetaFlag>, ch: byte, text: Bytes): seq<Bytes> {
    if HasFlag(fs, ch) then [[ch] + text] else []
  }

  function TtlText(ttl: Option<nat>): Bytes { if ttl.Some? then Dec(ttl.value) else Ascii("-1") }

  function Unless(quiet: bool, m: Msg): Option<Msg> { if quiet then None else Some(m) }

  /** Token, flags, size and remaining life, as asked for. */
  function ItemWords(fs: seq<MetaFlag>, c: Bytes, f: Bytes, size: nat, ttl: Option<nat>): seq<Bytes> {
    If(fs, CH_LC, c) + If(fs, CH_LF, f) + If(fs, CH_LS, Dec(size)) + If(fs, CH_LT, TtlText(ttl))
  }

  function GetMsg(key: Bytes, fs: seq<MetaFlag>, r: Reply): Option<Msg> {
    match r
    case MetaHit(v, f, cas, ttl) =>
      var words := ItemWords(fs, LuaText(cas), f, |v|, ttl) + Echo(fs, key);
      Some(if HasFlag(fs, CH_V) then Msg(VA, words, Some(v)) else Msg(HD, words, None))
    case _ => Unless(HasFlag(fs, CH_Q), Msg(EN, Echo(fs, key), None))
  }

  /** The code of a refused `ms`: a conflict is EX with a token or in append and prepend, else NS. */
  function SetMsg(key: Bytes, fs: seq<MetaFlag>, r: Reply): Msg {
    var cas := Arg(fs, CH_C, NO_CAS);
    match r
    case Done(c) =>
      Msg(HD, (if HasFlag(fs, CH_LC) || cas != NO_CAS then [[CH_LC] + LuaText(c)] else []) + Echo(fs, key), None)
    case Miss => Msg(NF, Echo(fs, key), None)
    case NotStored => Msg(NS, Echo(fs, key), None)
    case _ => Msg(if Extends(fs) || cas != NO_CAS then EX else NS, Echo(fs, key), None)
  }

  predicate Extends(fs: seq<MetaFlag>) {
    var mode := Arg(fs, CH_M, Ascii("S"));
    mode == Ascii("A") || mode == Ascii("P")
  }

  function DeleteMsg(key: Bytes, fs: seq<MetaFlag>, r: Reply): Msg {
    Msg(if r.Deleted? then HD else if r.Miss? then NF else EX, Echo(fs, key), None)
  }

  /** None for a value that is not a number, which is answered by an error line. */
  function ArithMsg(key: Bytes, fs: seq<MetaFlag>, r: Reply): Option<Msg> {
    match r
    case Number(text, cas) =>
      var words := If(fs, CH_LC, LuaText(cas)) + Echo(fs, key);
      Some(if HasFlag(fs, CH_V) then Msg(VA, words, Some(text)) else Msg(HD, words, None))
    case Miss => Some(Msg(NF, Echo(fs, key), None))
    case _ => None
  }

  /** What `dispatch_meta_cmd` appends for a command with valid flags. */
  function MetaOutput(cmd: MetaCmd, r: Reply): Bytes {
    match cmd
    case MGet(key, fs) => Sent(GetMsg(key, fs, r))
    case MSet(key, _, fs) => Sent(Unless(HasFlag(fs, CH_Q), SetMsg(key, fs, r)))
    case MDelete(key, fs) => Sent(Unless(HasFlag(fs, CH_Q), DeleteMsg(key, fs, r)))
    case MArithmetic(key, fs) =>
      if HasFlag(fs, CH_Q) then []
      else
        var m := ArithMsg(key, fs, r);
        if m.None? then X.NOT_NUMERIC + CRLF else Render(m.value)
    case MNoop(fs) =>
      var o := FlagToken(fs, CH_O);
      Render(Msg(MN, if o.Some? then [[CH_O] + o.value] else [], None))
    case MDebug(key, fs) => Sent(Unless(HasFlag(fs, CH_Q), Msg(EN, Echo(fs, key), None)))
  }

  const CLIENT_ERROR: Bytes := Ascii("CLIENT_ERROR ")

  /** With invalid flags, the first failed check. */
  function MetaAnswer(cmd: MetaCmd, r: Reply): Bytes {
    var e := FlagsError(cmd);
    if e.Some? then CLIENT_ERROR + e.value + CRLF else MetaOutput(cmd, r)
  }

  // ------------------------------------------------------- printing word by word

  lemma {:induction false} SpacedAppend(a: seq<Bytes>, b: seq<Bytes>)
    ensures Spaced(a + b) == Spaced(a) + Spaced(b)
  {
    if b == [] {
      assert a + b == a;
    } else {
      var n := |b| - 1;
      SpacedAppend(a, b[..n]);
      assert (a + b)[..|a| + n] == a + b[..n];
      assert Spaced(a) + (Spaced(b[..n]) + [SPACE] + b[n]) == (Spaced(a) + Spaced(b[..n])) + [SPACE] + b[n];
    }
  }

  lemma AddWords(out: Bytes, ws: seq<Bytes>, more: seq<Bytes>)
    ensures out + Spaced(ws) + Spaced(more) == out + Spaced(ws + more)
  {
    hide Spaced;
    SpacedAppend(ws, more);
  }

  lemma SpacedOne(w: Bytes)
    ensures Spaced([w]) == [SPACE] + w && Spaced([]) == []
  {
    assert [w][..0] == [] && [] + [SPACE] + w == [SPACE] + w;
  }

  /** A word asked for by a flag. */
  method PutWhen(out: Bytes, asked: bool, ch: byte, text: Bytes) returns (out': Bytes)
    ensures out' == out + Spaced(if asked then [[ch] + text] else [])
  {
    SpacedOne([ch] + text);
    out' := out;
    if asked {
      out' := out' + [SPACE];
      out' := out' + [ch];
      out' := out' + text;
    }
  }

  method WriteMetaFlagEcho(out: Bytes, fs: seq<MetaFlag>, key: Bytes) returns (out': Bytes)
    ensures out' == out + Spaced(Echo(fs, key))
  {
    hide FlagToken, HasFlag, Spaced;
    var o := FlagToken(fs, CH_O);
    out' := PutWhen(out, o.Some?, CH_O, if o.Some? then o.value else []);
    out' := PutWhen(out', HasFlag(fs, CH_K), CH_K, key);
    SpacedAppend(if o.Some? then [[CH_O] + o.value] else [], if HasFlag(fs, CH_K) then [[CH_K] + key] else []);
  }

  /** A code, the echo and the end of the line. */
  method PutStatus(out: Bytes, code: Bytes, fs: seq<MetaFlag>, key: Bytes) returns (out': Bytes)
    ensures out' == out + Render(Msg(code, Echo(fs, key), None))
  {
    hide Echo, Spaced;
    out' := out + code;
    out' := WriteMetaFlagEcho(out', fs, key);
    out' := out' + CRLF;
    PlainLine(code, Echo(fs, key));
  }

  lemma PlainLine(code: Bytes, words: seq<Bytes>)
    ensures Line(Head(Msg(code, words, None))) == code + Spaced(words)
  {
  }

  lemma LineOf(code: Bytes, n: Bytes, words: seq<Bytes>)
    ensures Line([code] + [n] + words) == code + [SPACE] + n + Spaced(words)
  {
    hide Spaced;
    var ws := [n] + words;
    assert ([code] + [n] + words)[1..] == ws && ws[1..] == words;
    SpacedFront(ws);
  }

  lemma BlockLine(code: Bytes, words: seq<Bytes>, v: Bytes)
    ensures Line(Head(Msg(code, words, Some(v)))) == code + [SPACE] + Dec(|v|) + Spaced(words)
  {
    hide Dec, Spaced, Line;
    LineOf(code, Dec(|v|), words);
  }

  lemma SpacedFront(ws: seq<Bytes>)
    requires ws != []
    ensures Spaced(ws) == [SPACE] + ws[0] + Spaced(ws[1..])
  {
    hide Spaced;
    SpacedAppend([ws[0]], ws[1..]);
    SpacedOne(ws[0]);
    assert [ws[0]] + ws[1..] == ws;
  }

  function Reported(withBlock: bool, words: seq<Bytes>, v: Bytes): Msg {
    if withBlock then Msg(VA, words, Some(v)) else Msg(HD, words, None)
  }

  /** The front of a reply with or without a block. */
  method PutFront(out: Bytes, withBlock: bool, v: Bytes) returns (out': Bytes)
    ensures out' == out + if withBlock then VA + [SPACE] + Dec(|v|) else HD
  {
    if withBlock {
      out' := out + VA + [SPACE];
      out' := out' + Dec(|v|);
    } else {
      out' := out + HD;
    }
  }

  /** The end of the line and the block. */
  method PutEnd(out: Bytes, withBlock: bool, v: Bytes) returns (out': Bytes)
    ensures out' == out + CRLF + if withBlock then v + CRLF else []
  {
    out' := out + CRLF;
    if withBlock {
      out' := out' + v;
      out' := out' + CRLF;
    }
  }

  /** Front, words and end make up the message. */
  lemma WholeMessage(out: Bytes, out': Bytes, withBlock: bool, words: seq<Bytes>, v: Bytes)
    requires out' == out + (if withBlock then VA + [SPACE] + Dec(|v|) else HD) + Spaced(words)
                     + CRLF + if withBlock then v + CRLF else []
    ensures out' == out + Render(Reported(withBlock, words, v))
  {
    hide Dec, Spaced, Line, Head;
    if withBlock {
      BlockLine(VA, words, v);
      Regroup(out, VA + [SPACE] + Dec(|v|), Spaced(words), v + CRLF);
    } else {
      PlainLine(HD, words);
      Regroup(out, HD, Spaced(words), []);
    }
  }

  lemma Regroup(out: Bytes, front: Bytes, words: Bytes, end: Bytes)
    ensures out + front + words + CRLF + end == out + (front + words + CRLF + end)
  {
  }

  // ------------------------------------------------------------------- handlers

  /** A numeric token as the script reads it. */
  method ReadNum(text: Bytes) returns (n: nat)
    ensures n == Num(text)
  {
    var p := ParseUint(text, U64_MAX);
    n := if p.Some? then p.value else 0;
  }

  /** `meta_get`: with T a touch first, as a step of its own. */
  method MetaGet(redis: Redis, key: Bytes, fs: seq<MetaFlag>, out: Bytes) returns (out': Bytes)
    requires redis.Valid()
    modifies redis
    ensures redis.Valid() && redis.Foreign == old(redis.Foreign)
    ensures var o := RunAll(old(redis.Abs), MetaGetSteps(MakeRedisKey(key), fs));
      redis.Abs == o.s && out' == out + Sent(GetMsg(key, fs, o.r))
  {
    hide Redis.Valid, Touch, LuaText, HexText, Render, Echo, HasFlag, FlagToken;
    NamespaceIsolated(key, []);
    var rk := MakeRedisKey(key);
    ghost var s := redis.Abs;
    GetRun(s, rk, fs);
    hide RunAll, MakeRedisKey, MetaGetSteps;
    var t := FlagToken(fs, CH_T);
    if t.Some? {
      var e := ReadNum(t.value);
      var r := redis.LuaTouch(rk, e);
    }
    var found, hex, f, c, ttl, size := redis.LuaMetaGet(rk);
    if !found {
      out' := out;
      if !HasFlag(fs, CH_Q) { out' := PutStatus(out, EN, fs, key); }
      return;
    }
    ghost var hit := StoreSpec.MetaGet(redis.Abs, rk).r;
    var value := HexDecode(hex);
    HexRoundTrip(hit.v);
    out' := PutHit(out, key, fs, value, f, c, ttl, size, hit.cas);
  }

  lemma GetRun(s: State, k: Bytes, fs: seq<MetaFlag>)
    ensures var t := FlagToken(fs, CH_T);
      var s' := if t.Some? then Touch(s, k, Num(t.value)).s else s;
      RunAll(s, MetaGetSteps(k, fs)) == StoreSpec.MetaGet(s', k)
  {
    hide Touch, StoreSpec.MetaGet, FlagToken;
    var t := FlagToken(fs, CH_T);
    if t.Some? {
      var es := [ETouch(k, Num(t.value)), EMetaGet(k)];
      assert es[..1] == [es[0]];
      RunOne(s, es[0]);
    } else {
      RunOne(s, EMetaGet(k));
    }
  }

  method PutHit(out: Bytes, key: Bytes, fs: seq<MetaFlag>, v: Bytes, f: Bytes, c: Bytes, ttl: Option<nat>, size: nat,
                ghost cas: nat) returns (out': Bytes)
    requires c == LuaText(cas) && size == |v|
    ensures out' == out + Sent(GetMsg(key, fs, MetaHit(v, f, cas, ttl)))
  {
    hide LuaText, Render, Echo, HasFlag, Spaced, Dec, ItemWords;
    out' := PutFront(out, HasFlag(fs, CH_V), v);
    out' := PutItemWords(out', fs, c, f, size, ttl);
    out' := WriteMetaFlagEcho(out', fs, key);
    out' := PutEnd(out', HasFlag(fs, CH_V), v);
    ghost var words := ItemWords(fs, c, f, size, ttl);
    SpacedAppend(words, Echo(fs, key));
    WholeMessage(out, out', HasFlag(fs, CH_V), words + Echo(fs, key), v);
  }

  method PutItemWords(out: Bytes, fs: seq<MetaFlag>, c: Bytes, f: Bytes, size: nat, ttl: Option<nat>)
    returns (out': Bytes)
    ensures out' == out + Spaced(ItemWords(fs, c, f, size, ttl))
  {
    hide HasFlag, Spaced, Dec, TtlText;
    out' := PutWhen(out, HasFlag(fs, CH_LC), CH_LC, c);
    out' := PutWhen(out', HasFlag(fs, CH_LF), CH_LF, f);
    ghost var w1, w2 := If(fs, CH_LC, c), If(fs, CH_LF, f);
    AddWords(out, w1, w2);
    out' := PutWhen(out', HasFlag(fs, CH_LS), CH_LS, Dec(size));
    ghost var w3 := If(fs, CH_LS, Dec(size));
    AddWords(out, w1 + w2, w3);
    out' := PutWhen(out', HasFlag(fs, CH_LT), CH_LT, TtlText(ttl));
    AddWords(out, w1 + w2 + w3, If(fs, CH_LT, TtlText(ttl)));
  }

  method MetaSet(redis: Redis, key: Bytes, data: Bytes, fs: seq<MetaFlag>, out: Bytes) returns (out': Bytes)
    requires redis.Valid() && ValidSetFlags(fs)
    modifies redis
    ensures redis.Valid() && redis.Foreign == old(redis.Foreign)
    ensures var o := Step(old(redis.Abs), MetaSetStep(MakeRedisKey(key), data, fs));
      redis.Abs == o.s && out' == out + Sent(Unless(HasFlag(fs, CH_Q), SetMsg(key, fs, o.r)))
  {
    hide Redis.Valid, Store, Extend, Render, Echo, HasFlag, FlagToken, LuaText;
    NamespaceIsolated(key, []);
    var rk := MakeRedisKey(key);
    hide MakeRedisKey;
    var mode := Arg(fs, CH_M, Ascii("S"));
    var cas := Arg(fs, CH_C, NO_CAS);
    var r;
    if mode == Ascii("A") || mode == Ascii("P") {
      r := redis.LuaExtend(rk, data, cas, mode == Ascii("P"));
    } else {
      var exp := ReadNum(Arg(fs, CH_T, NO_CAS));
      var op := if mode == Ascii("E") then Add else if mode == Ascii("R") then Replace else StoreOp.Set;
      r := redis.LuaStore(op, rk, data, Arg(fs, CH_F, NO_CAS), cas, exp);
    }
    out' := out;
    if !HasFlag(fs, CH_Q) { out' := PutSet(out, key, fs, r); }
  }

  method PutSet(out: Bytes, key: Bytes, fs: seq<MetaFlag>, r: Reply) returns (out': Bytes)
    ensures out' == out + Render(SetMsg(key, fs, r))
  {
    hide Render, Echo, HasFlag, FlagToken, LuaText, Spaced;
    var cas := Arg(fs, CH_C, NO_CAS);
    match r
    case Done(c) =>
      out' := PutFront(out, false, []);
      out' := PutWhen(out', HasFlag(fs, CH_LC) || cas != NO_CAS, CH_LC, LuaText(c));
      out' := WriteMetaFlagEcho(out', fs, key);
      out' := PutEnd(out', false, []);
      ghost var w := if HasFlag(fs, CH_LC) || cas != NO_CAS then [[CH_LC] + LuaText(c)] else [];
      SpacedAppend(w, Echo(fs, key));
      WholeMessage(out, out', false, w + Echo(fs, key), []);
    case Miss => out' := PutStatus(out, NF, fs, key);
    case NotStored => out' := PutStatus(out, NS, fs, key);
    case _ =>
      var mode := Arg(fs, CH_M, Ascii("S"));
      if mode == Ascii("A") || mode == Ascii("P") || cas != NO_CAS {
        out' := PutStatus(out, EX, fs, key);
      } else {
        out' := PutStatus(out, NS, fs, key);
      }
  }

  /** Without C, or with C0, the direct DEL. */
  method MetaDelete(redis: Redis, key: Bytes, fs: seq<MetaFlag>, out: Bytes) returns (out': Bytes)
    requires redis.Valid()
    modifies redis
    ensures redis.Valid() && redis.Foreign == old(redis.Foreign)
    ensures var o := Delete(old(redis.Abs), MakeRedisKey(key), Arg(fs, CH_C, NO_CAS));
      redis.Abs == o.s && out' == out + Sent(Unless(HasFlag(fs, CH_Q), DeleteMsg(key, fs, o.r)))
  {
    hide Redis.Valid, Delete, Render, Echo, HasFlag, FlagToken;
    NamespaceIsolated(key, []);
    var rk := MakeRedisKey(key);
    hide MakeRedisKey;
    var cas := Arg(fs, CH_C, NO_CAS);
    var r;
    if cas == NO_CAS { r := redis.DirectDelete(rk); } else { r := redis.LuaDelete(rk, cas); }
    out' := out;
    if !HasFlag(fs, CH_Q) {
      out' := PutStatus(out, if r.Deleted? then HD else if r.Miss? then NF else EX, fs, key);
    }
  }

  method MetaArithmetic(redis: Redis, key: Bytes, fs: seq<MetaFlag>, out: Bytes) returns (out': Bytes)
    requires redis.Valid()
    modifies redis
    ensures redis.Valid() && redis.Foreign == old(redis.Foreign)
    ensures var o := Step(old(redis.Abs), MetaArithStep(MakeRedisKey(key), fs));
      redis.Abs == o.s && out' == out + MetaOutput(MArithmetic(key, fs), o.r)
  {
    hide Redis.Valid, Counter, Render, Echo, HasFlag, FlagToken, LuaText, Dec, Arg, Num, ParseUint, ArithMsg;
    NamespaceIsolated(key, []);
    var rk := MakeRedisKey(key);
    hide MakeRedisKey;
    var delta := ReadNum(Arg(fs, CH_D, Dec(1)));
    var decr := Arg(fs, CH_M, Ascii("I")) == Ascii("D");
    var n := FlagToken(fs, CH_N);
    var exp := NO_CREATE;
    if n.Some? { exp := ReadNum(n.value); }
    var r := redis.LuaCounter(rk, delta, decr, Arg(fs, CH_J, NO_CAS), exp);
    out' := out;
    if HasFlag(fs, CH_Q) { return; }
    out' := PutArith(out, key, fs, r);
  }

  method PutArith(out: Bytes, key: Bytes, fs: seq<MetaFlag>, r: Reply) returns (out': Bytes)
    ensures var m := ArithMsg(key, fs, r);
      out' == out + if m.None? then X.NOT_NUMERIC + CRLF else Render(m.value)
  {
    hide Render, Echo, HasFlag, FlagToken, LuaText;
    match r
    case Number(text, cas) => out' := PutNumber(out, key, fs, text, cas);
    case Miss => out' := PutStatus(out, NF, fs, key);
    case _ => out' := out + X.NOT_NUMERIC + CRLF;
  }

  method PutNumber(out: Bytes, key: Bytes, fs: seq<MetaFlag>, text: Bytes, cas: nat) returns (out': Bytes)
    ensures out' == out + Render(ArithMsg(key, fs, Number(text, cas)).value)
  {
    hide LuaText, Render, Echo, HasFlag, Spaced, Dec;
    out' := PutFront(out, HasFlag(fs, CH_V), text);
    out' := PutWhen(out', HasFlag(fs, CH_LC), CH_LC, LuaText(cas));
    out' := WriteMetaFlagEcho(out', fs, key);
    out' := PutEnd(out', HasFlag(fs, CH_V), text);
    SpacedAppend(If(fs, CH_LC, LuaText(cas)), Echo(fs, key));
    WholeMessage(out, out', HasFlag(fs, CH_V), If(fs, CH_LC, LuaText(cas)) + Echo(fs, key), text);
  }

  /**
   * `dispatch_meta_cmd`: invalid flags change nothing and are answered by the first failed
   * check; otherwise the scripts of `MetaSteps` and their output.
   */
  method DispatchMeta(redis: Redis, cmd: MetaCmd, data: Bytes, out: Bytes) returns (out': Bytes)
    requires redis.Valid()
    modifies redis
    ensures redis.Valid() && redis.Foreign == old(redis.Foreign)
    ensures var o := RunAll(old(redis.Abs), MetaSteps(cmd, data));
      redis.Abs == o.s && out' == out + MetaAnswer(cmd, o.r)
  {
    hide Redis.Valid, Render, Echo, HasFlag, FlagToken, MetaSetStep, MetaArithStep, MetaGetSteps, Delete;
    hide SetMsg, GetMsg, FlagsError;
    ghost var s, es := redis.Abs, MetaSteps(cmd, data);
    if |es| == 1 { assert es == [es[0]]; RunOne(s, es[0]); }
    if |es| == 0 { X.EmptyRun(s); }
    hide RunAll;
    var e := ValidateFlags(cmd);
    if e.Some? {
      out' := out + CLIENT_ERROR + e.value + CRLF;
      return;
    }
    match cmd
    case MGet(key, fs) => out' := MetaGet(redis, key, fs, out);
    case MSet(key, _, fs) => out' := MetaSet(redis, key, data, fs, out);
    case MDelete(key, fs) => out' := MetaDelete(redis, key, fs, out);
    case MArithmetic(key, fs) => out' := MetaArithmetic(redis, key, fs, out);
    case MNoop(fs) => out' := MetaNoop(fs, out);
    case MDebug(key, fs) =>
      out' := out;
      if !HasFlag(fs, CH_Q) { out' := PutStatus(out, EN, fs, key); }
  }

  method MetaNoop(fs: seq<MetaFlag>, out: Bytes) returns (out': Bytes)
    ensures out' == out + MetaOutput(MNoop(fs), Elapsed)
  {
    hide FlagToken, Spaced;
    out' := out + MN;
    var o := FlagToken(fs, CH_O);
    out' := PutWhen(out', o.Some?, CH_O, if o.Some? then o.value else []);
    out' := out' + CRLF;
    PlainLine(MN, if o.Some? then [[CH_O] + o.value] else []);
  }

  // -------------------------------------------------------------------- reading

  /** A line split at its spaces. */
  function Split(line: Bytes): (ws: seq<Bytes>)
    ensures ws != []
    decreases |line|
  {
    match T.ReadField(line, SPACE)
    case None => [line]
    case Some((w, rest)) => [w] + Split(rest)
  }

  lemma {:induction false} NoField(w: Bytes, c: byte)
    requires c !in w
    ensures T.ReadField(w, c).None?
  {
    if w != [] { NoField(w[1..], c); }
  }

  predicate AllFields(ws: seq<Bytes>) { forall i :: 0 <= i < |ws| ==> T.Field(ws[i]) }

  lemma {:induction false} SplitBack(w: Bytes, ws: seq<Bytes>)
    requires T.Field(w) && AllFields(ws)
    ensures Split(w + Spaced(ws)) == [w] + ws
    decreases |ws|
  {
    hide T.ReadField;
    if ws == [] {
      NoField(w, SPACE);
      assert w + [] == w;
    } else {
      var rest := ws[0] + Spaced(ws[1..]);
      SpacedFront(ws);
      assert w + Spaced(ws) == w + [SPACE] + rest;
      hide Spaced;
      T.ReadFieldBack(w, SPACE, rest);
      SplitBack(ws[0], ws[1..]);
      assert ws == [ws[0]] + ws[1..];
    }
  }

  /** A client's reader: a line of words and, after VA, exactly the announced bytes. */
  function ReadMsg(b: Bytes): Option<(Msg, Bytes)> {
    match T.ReadField(b, CR)
    case None => None
    case Some((line, rest)) =>
      if rest == [] || rest[0] != LF then None
      else if Split(line)[0] != VA then Some((Msg(Split(line)[0], Split(line)[1..], None), rest[1..]))
      else ReadBlock(Split(line), rest[1..])
  }

  function ReadBlock(ws: seq<Bytes>, b: Bytes): Option<(Msg, Bytes)>
    requires ws != []
  {
    if |ws| < 2 then None
    else
      var n := T.Length(ws[1]);
      if n.None? || |b| < n.value + 2 || b[n.value..n.value + 2] != CRLF then None
      else Some((Msg(ws[0], ws[2..], Some(b[..n.value])), b[n.value + 2..]))
  }

  predicate Readable(m: Msg) {
    T.Field(m.code) && AllFields(m.words) && (m.block.Some? <==> m.code == VA)
  }

  lemma {:induction false} SpacedFields(ws: seq<Bytes>)
    requires AllFields(ws)
    ensures CR !in Spaced(ws)
  {
    if ws != [] {
      var n := |ws| - 1;
      SpacedFields(ws[..n]);
    }
  }

  /** A printed reply followed by anything reads back, whatever bytes its block holds. */
  lemma MsgReadsBack(m: Msg, rest: Bytes)
    requires Readable(m)
    ensures ReadMsg(Render(m) + rest) == Some((m, rest))
  {
    hide T.ReadField, Spaced, Dec, T.Length, Split;
    var ws := Head(m);
    if m.block.Some? {
      T.DigitsAreField(|m.block.value|);
      T.LengthBack(|m.block.value|);
    }
    assert AllFields(ws);
    SpacedFields(ws[1..]);
    SplitBack(ws[0], ws[1..]);
    var block := if m.block.Some? then m.block.value + CRLF else [];
    assert Render(m) + rest == Line(ws) + [CR] + ([LF] + block + rest);
    T.ReadFieldBack(Line(ws), CR, [LF] + block + rest);
    assert ([LF] + block + rest)[1..] == block + rest;
    HeadWords(m);
    if m.block.Some? { BlockBack(m.block.value, rest); } else { assert block + rest == rest; }
  }

  lemma HeadWords(m: Msg)
    ensures [Head(m)[0]] + Head(m)[1..] == Head(m)
    ensures m.block.Some? ==> |Head(m)| >= 2 && Head(m)[1] == Dec(|m.block.value|) && Head(m)[2..] == m.words
    ensures m.block.None? ==> Head(m)[1..] == m.words
  {
  }

  lemma BlockBack(v: Bytes, rest: Bytes)
    ensures var b := v + CRLF + rest;
      b[..|v|] == v && b[|v|..|v| + 2] == CRLF && b[|v| + 2..] == rest
  {
  }

  /** Keys and opaque tokens hold no blanks: they were words of a command line. */
  predicate CleanEcho(key: Bytes, fs: seq<MetaFlag>) {
    T.Field(key) && (FlagToken(fs, CH_O).Some? ==> T.Field(FlagToken(fs, CH_O).value))
  }

  lemma EchoFields(key: Bytes, fs: seq<MetaFlag>)
    requires CleanEcho(key, fs)
    ensures AllFields(Echo(fs, key))
  {
  }

  lemma CodesDiffer()
    ensures VA !in {HD, EN, NF, NS, EX, MN} && HD !in {EN, NF, NS, EX} && NF !in {NS, EX, EN} && NS !in {EX, EN}
    ensures EX != EN
    ensures T.Field(HD) && T.Field(EN) && T.Field(NF) && T.Field(NS) && T.Field(EX) && T.Field(VA) && T.Field(MN)
  {
    assert VA[0] as int == 'V' as int && HD[0] as int == 'H' as int && EN[0] as int == 'E' as int;
    assert NF[0] as int == 'N' as int && NF[1] as int == 'F' as int && NS[1] as int == 'S' as int;
    assert NS[0] as int == 'N' as int && EX[0] as int == 'E' as int && MN[0] as int == 'M' as int;
    assert EX[1] as int == 'X' as int && EN[1] as int == 'N' as int;
  }

  /**
   * The reply to `mg` decodes to the words asked for and exactly the stored bytes, even when
   * the value holds line breaks or text that looks like a reply.
   */
  lemma GetDecodes(key: Bytes, fs: seq<MetaFlag>, v: Bytes, f: Bytes, cas: nat, ttl: Option<nat>, rest: Bytes)
    requires CleanEcho(key, fs) && T.Field(f)
    ensures var r := MetaHit(v, f, cas, ttl);
      var m := GetMsg(key, fs, r).value;
      && ReadMsg(MetaOutput(MGet(key, fs), r) + rest) == Some((m, rest))
      && (HasFlag(fs, CH_V) ==> m.block == Some(v))
      && (HasFlag(fs, CH_LC) ==> [CH_LC] + LuaText(cas) in m.words)
      && (HasFlag(fs, CH_LF) ==> [CH_LF] + f in m.words)
      && (HasFlag(fs, CH_LS) ==> [CH_LS] + Dec(|v|) in m.words)
      && (HasFlag(fs, CH_LT) ==> [CH_LT] + TtlText(ttl) in m.words)
      && (HasFlag(fs, CH_K) ==> [CH_K] + key in m.words)
      && (FlagToken(fs, CH_O).Some? ==> [CH_O] + FlagToken(fs, CH_O).value in m.words)
  {
    hide HasFlag, FlagToken, Echo, LuaText, Dec, ReadMsg, Render, ItemWords, TtlText, AllFields, CleanEcho, Readable;
    var m := GetMsg(key, fs, MetaHit(v, f, cas, ttl)).value;
    GetReadable(key, fs, v, f, cas, ttl);
    ItemHolds(fs, LuaText(cas), f, |v|, ttl);
    EchoHolds(key, fs);
    InEither(ItemWords(fs, LuaText(cas), f, |v|, ttl), Echo(fs, key));
    MsgReadsBack(m, rest);
  }

  lemma InEither(a: seq<Bytes>, b: seq<Bytes>)
    ensures forall w :: w in a || w in b ==> w in a + b
  {
  }

  lemma GetReadable(key: Bytes, fs: seq<MetaFlag>, v: Bytes, f: Bytes, cas: nat, ttl: Option<nat>)
    requires CleanEcho(key, fs) && T.Field(f)
    ensures Readable(GetMsg(key, fs, MetaHit(v, f, cas, ttl)).value)
  {
    hide HasFlag, FlagToken, Echo, LuaText, Dec;
    T.LuaTextField(cas);
    EchoFields(key, fs);
    CodesDiffer();
    T.DigitsAreField(|v|);
    if ttl.Some? { T.DigitsAreField(ttl.value); }
    assert T.Field(Ascii("-1"));
    WordsFields(fs, CH_LC, LuaText(cas));
    WordsFields(fs, CH_LF, f);
    WordsFields(fs, CH_LS, Dec(|v|));
    WordsFields(fs, CH_LT, TtlText(ttl));
  }

  lemma ItemHolds(fs: seq<MetaFlag>, c: Bytes, f: Bytes, size: nat, ttl: Option<nat>)
    ensures var ws := ItemWords(fs, c, f, size, ttl);
      && (HasFlag(fs, CH_LC) ==> [CH_LC] + c in ws) && (HasFlag(fs, CH_LF) ==> [CH_LF] + f in ws)
      && (HasFlag(fs, CH_LS) ==> [CH_LS] + Dec(size) in ws) && (HasFlag(fs, CH_LT) ==> [CH_LT] + TtlText(ttl) in ws)
  {
    hide HasFlag, Dec, TtlText;
    var c', f', s', t' := If(fs, CH_LC, c), If(fs, CH_LF, f), If(fs, CH_LS, Dec(size)), If(fs, CH_LT, TtlText(ttl));
    InEither(c', f');
    InEither(c' + f', s');
    InEither(c' + f' + s', t');
  }

  lemma EchoHolds(key: Bytes, fs: seq<MetaFlag>)
    ensures HasFlag(fs, CH_K) ==> [CH_K] + key in Echo(fs, key)
    ensures FlagToken(fs, CH_O).Some? ==> [CH_O] + FlagToken(fs, CH_O).value in Echo(fs, key)
  {
    hide HasFlag, FlagToken;
  }

  /** So does the number `ma` answers with, when asked for. */
  lemma ArithDecodes(key: Bytes, fs: seq<MetaFlag>, text: Bytes, cas: nat, rest: Bytes)
    requires CleanEcho(key, fs) && !HasFlag(fs, CH_Q)
    ensures var r := Number(text, cas);
      var m := ArithMsg(key, fs, r).value;
      && ReadMsg(MetaOutput(MArithmetic(key, fs), r) + rest) == Some((m, rest))
      && m.block == (if HasFlag(fs, CH_V) then Some(text) else None)
      && (HasFlag(fs, CH_LC) ==> [CH_LC] + LuaText(cas) in m.words)
  {
    hide HasFlag, FlagToken, Echo, LuaText, ReadMsg, Render;
    T.LuaTextField(cas);
    EchoFields(key, fs);
    CodesDiffer();
    var m := ArithMsg(key, fs, Number(text, cas)).value;
    WordsFields(fs, CH_LC, LuaText(cas));
    assert AllFields(m.words);
    MsgReadsBack(m, rest);
  }

  lemma WordsFields(fs: seq<MetaFlag>, ch: byte, text: Bytes)
    requires ch > SPACE && T.Field(text)
    ensures AllFields(If(fs, ch, text)) && (HasFlag(fs, ch) ==> [ch] + text in If(fs, ch, text))
  {
  }

  /** What a status code says. */
  function CodeTells(m: Msg): Lesson {
    if m.code == NF || m.code == EN then Missing
    else if m.code == NS then Refused
    else if m.code == EX then Conflict
    else Fine
  }

  /** `ms` in the storing modes reports a conflict without a token as NS. */
  function MergedMeta(cmd: MetaCmd, x: Lesson): Lesson {
    if cmd.MSet? && x == Conflict && !Extends(cmd.flags) && Arg(cmd.flags, CH_C, NO_CAS) == NO_CAS then Refused else x
  }

  /** A status message whose code says x. */
  predicate Says(m: Msg, x: Lesson) {
    m.code in {HD, NF, NS, EX} && m.block.None? && CodeTells(m) == x && AllFields(m.words)
  }

  lemma SetSays(key: Bytes, datalen: nat, fs: seq<MetaFlag>, r: Reply)
    requires CleanEcho(key, fs) && (r.Done? || r.Miss? || r.NotStored? || r.Exists?)
    ensures Says(SetMsg(key, fs, r), MergedMeta(MSet(key, datalen, fs), X.Heard(r)))
  {
    hide FlagToken, HasFlag, Echo, LuaText, Arg, Extends;
    EchoFields(key, fs);
    CodesDiffer();
    if r.Done? { T.LuaTextField(r.cas); }
  }

  lemma DeleteSays(key: Bytes, fs: seq<MetaFlag>, r: Reply)
    requires CleanEcho(key, fs) && (r.Deleted? || r.Miss? || r.Exists?)
    ensures Says(DeleteMsg(key, fs, r), X.Heard(r))
  {
    hide FlagToken, HasFlag, Echo;
    EchoFields(key, fs);
    CodesDiffer();
  }

  /** A loud `ms` or `md` reads back as one message whose code is what the script replied. */
  lemma MetaTells(s: State, cmd: MetaCmd, data: Bytes, rest: Bytes)
    requires ValidFlags(cmd) && (cmd.MSet? || cmd.MDelete?) && !HasFlag(cmd.flags, CH_Q)
    requires CleanEcho(cmd.key, cmd.flags)
    ensures var r := RunAll(s, MetaSteps(cmd, data)).r;
      var b := ReadMsg(MetaOutput(cmd, r) + rest);
      b.Some? && b.value.1 == rest && Says(b.value.0, MergedMeta(cmd, X.Heard(r)))
  {
    hide ValidFlags, HasFlag, FlagToken, Echo, LuaText, ReadMsg, Render, Step, MakeRedisKey, Num, Arg;
    var es := MetaSteps(cmd, data);
    assert es == [es[0]];
    RunOne(s, es[0]);
    X.B.StepReply(s, es[0]);
    hide RunAll, MetaSteps, CleanEcho, CodeTells, MergedMeta, X.Heard, SetMsg, DeleteMsg;
    var r := Step(s, es[0]).r;
    var m := if cmd.MSet? then SetMsg(cmd.key, cmd.flags, r) else DeleteMsg(cmd.key, cmd.flags, r);
    if cmd.MSet? { SetSays(cmd.key, cmd.datalen, cmd.flags, r); } else { DeleteSays(cmd.key, cmd.flags, r); }
    assert Says(m, MergedMeta(cmd, X.Heard(r))) by { NotMerged(cmd, X.Heard(r)); }
    CodesDiffer();
    MsgReadsBack(m, rest);
  }

  lemma NotMerged(cmd: MetaCmd, x: Lesson)
    ensures !cmd.MSet? ==> MergedMeta(cmd, x) == x
  {
  }
}
