// Commands as bytes: what a client sends over each protocol, and what the sessions of the
// three front ends make of it.

module Wire {
  import opened ByteStrings
  import opened StoreSpec
  import opened FrontEnds
  import opened TextTokens
  import A = AsciiCommands
  import M = MetaCommands
  import B = BinaryDispatch
  import F = Frames
  import X = TextHandlers
  import H = MetaHandlers
  import S = TextSession
  import Sizes = BinarySizes
  import BinaryConn
  import TextConn

  const CRLF: Bytes := X.CRLF

  // ------------------------------------------------------------------- the bytes

  function Line(line: Bytes, block: Option<Bytes>): Bytes {
    line + CRLF + if block.Some? then block.value + CRLF else []
  }

  function BlockOf(op: Op): Option<Bytes> {
    if op.Put? || op.CasPut? || op.Grow? || op.CasGrow? then Some(DataOf(op)) else None
  }

  predicate Sendable(op: Op, p: Protocol, token: nat) {
    Expressible(op, p) && Fits(op) && token <= U64_MAX && !op.Pass?
  }

  /** What a client sends. */
  function Encoding(op: Op, p: Protocol, token: nat): Bytes
    requires Sendable(op, p, token)
  {
    match p
    case Binary(q) =>
      var r := ToBinary(op, q, token).value.1;
      F.Frame(r.hdr.opcode, 0, r.hdr.cas, r.extras, r.key, r.value)
    case ClassicText(q) => Line(A.Print(ToClassic(op, q, token).value.0), BlockOf(op))
    case MetaText(q) => Line(M.PrintMeta(ToMeta(op, q, token).value.0), BlockOf(op))
  }

  /** What the session appends to its output for it. */
  function Output(s: State, op: Op, p: Protocol, token: nat, texts: S.Texts): Bytes
    requires Sendable(op, p, token)
  {
    match p
    case Binary(q) => F.EncodeAll(B.Responses(s, ToBinary(op, q, token).value.1, texts.stats))
    case ClassicText(q) =>
      var w := ToClassic(op, q, token).value;
      X.ClassicOutput(s, w.0, w.1, texts.stats)
    case MetaText(q) =>
      var w := ToMeta(op, q, token).value;
      H.MetaAnswer(w.0, RunAll(s, MetaSteps(w.0, w.1)).r)
  }

  // -------------------------------------------------------------- binary sessions

  lemma BinaryFrame(op: Op, q: bool, token: nat, rest: Bytes)
    requires Sendable(op, Binary(q), token)
    ensures var w, b := ToBinary(op, q, token).value, Encoding(op, Binary(q), token);
      F.TryParse(b + rest) == F.Parsed(w.1, |b|) && B.ParseOpcode(w.1.hdr.opcode) == Some(w.0)
      && B.Base(w.0) != B.OpQuit
  {
    hide B.ParseOpcode, B.Code, F.TryParse, F.Frame, ToBinary, Carries, Fits;
    var (code, r) := ToBinary(op, q, token).value;
    F.Widths();
    B.CodeRoundTrip(code);
    BinaryFields(op, q, token);
    F.ParseBuilt(r.hdr.opcode, 0, r.hdr.cas, r.extras, r.key, r.value, rest);
    FrameLength(r);
  }

  lemma FrameLength(r: F.Request)
    ensures |F.Frame(r.hdr.opcode, 0, r.hdr.cas, r.extras, r.key, r.value)|
      == F.HEADER_LEN + |r.extras| + |r.key| + |r.value|
  {
    hide F.Header24;
  }

  /** An encoded request's header describes its fields, and they are within their limits. */
  lemma BinaryFields(op: Op, q: bool, token: nat)
    requires Sendable(op, Binary(q), token)
    ensures var (code, r) := ToBinary(op, q, token).value;
      && r.hdr == F.Header(B.Code(code), |r.key|, |r.extras|, |r.extras| + |r.key| + |r.value|, 0, r.hdr.cas)
      && |r.extras| <= 20 && r.hdr.cas <= U64_MAX && |r.key| <= F.MAX_KEY_LEN
      && |r.extras| + |r.key| + |r.value| <= F.MAX_BODY_LEN && B.Base(code) != B.OpQuit
  {
    hide B.Code, BigEndian;
  }

  /** The frame is parsed, handled as that command, and answered; the session goes on. */
  lemma BinaryServed(s: State, op: Op, q: bool, token: nat, rest: Bytes, texts: S.Texts)
    requires Sendable(op, Binary(q), token)
    ensures var h := B.Handler(texts.stats);
      var b, after := Encoding(op, Binary(q), token), Carried(s, op, Binary(q), token).s;
      BinaryConn.Serve(h, s, b + rest)
      == BinaryConn.Then(
           BinaryConn.Session(after, [BinaryConn.Handled(ToBinary(op, q, token).value.1)],
                              Output(s, op, Binary(q), token, texts), BinaryConn.End, rest),
           BinaryConn.Serve(h, after, rest))
  {
    BinaryFrame(op, q, token, rest);
    hide F.TryParse, F.EncodeAll, B.Responses, B.Execute, B.ParseOpcode, ToBinary, F.Frame, BinaryConn.Serve, B.Base;
    var b := Encoding(op, Binary(q), token);
    BinaryConn.ServeParsed(B.Handler(texts.stats), s, b + rest);
    assert (b + rest)[|b|..] == rest;
  }

  // ---------------------------------------------------------------- text sessions

  lemma {:induction false} JoinLength(ts: seq<Bytes>)
    requires forall i :: 0 <= i < |ts| ==> |ts[i]| <= 251
    ensures |Join(ts)| <= 252 * |ts|
  {
    if |ts| > 1 { JoinLength(ts[1..]); }
  }

  lemma {:induction false} FindCrlf(line: Bytes, i: nat)
    requires LF !in line && (line == [] || line[|line| - 1] != CR) && i <= |line|
    ensures TextConn.FindFrom(line + CRLF, i) == Some((|line|, |line| + 2))
    decreases |line| - i
  {
    var b := line + CRLF;
    if i < |line| {
      FindCrlf(line, i + 1);
    } else {
      assert b[i] == CR && b[i + 1] == LF && |b| == i + 2;
      assert TextConn.FindFrom(b, i + 1) == Some((i, i + 2));
    }
  }

  /** A printed line with its block is the item at the front of the stream. */
  lemma PrintedItem(ts: seq<Bytes>, block: Option<Bytes>, rest: Bytes)
    requires ts != [] && AllWords(ts) && |Join(ts)| <= TextConn.MAX_LINE_LEN
    ensures var line := Join(ts);
      TextConn.FrontOf(Line(line, block) + rest)
      == TextConn.ItemOf(TextConn.Classify(line), (if block.Some? then block.value + CRLF else []) + rest, |line| + 2)
  {
    hide Join, TextConn.Classify, TextConn.ItemOf, TextConn.FrontOf;
    var line := Join(ts);
    JoinAscii(ts);
    JoinLast(ts);
    FindCrlf(line, 0);
    var more := (if block.Some? then block.value + CRLF else []) + rest;
    TextConn.LineAtFront(line + CRLF, more);
    assert (line + CRLF)[..|line|] == line && (line + CRLF)[|line| + 2..] == [];
    assert [] + more == more;
    assert Line(line, block) + rest == (line + CRLF) + more;
  }

  /** The block of a command that announced its length. */
  lemma BlockItem(cmd: TextConn.TextCmd, data: Bytes, quiet: bool, rest: Bytes, skip: nat)
    requires |data| <= TextConn.MAX_BODY_LEN
    ensures TextConn.ItemOf(TextConn.WithData(cmd, |data|, quiet), data + CRLF + rest, skip)
      == TextConn.Item(Some(TextConn.Ran(cmd, Some(data))), skip + |data| + 2)
  {
    var b := data + CRLF + rest;
    assert b[|data|] == CR && b[|data| + 1] == LF && b[..|data|] == data;
  }

  lemma ClassicSayable(op: Op, q: bool, token: nat)
    requires Sendable(op, ClassicText(q), token)
    ensures A.Sayable(ToClassic(op, q, token).value.0)
    ensures |A.Print(ToClassic(op, q, token).value.0)| <= TextConn.MAX_LINE_LEN
  {
    hide IsWord, Dec, Join, A.Text;
    var cmd := ToClassic(op, q, token).value.0;
    var ts := [A.Text(A.VerbOf(cmd))] + A.ArgsOf(cmd);
    Numerals();
    VerbLength(A.VerbOf(cmd));
    assert |ts| <= 7 && forall i :: 0 <= i < |ts| ==> |ts[i]| <= 251;
    JoinLength(ts);
  }

  lemma Numerals()
    ensures forall n: nat :: n <= U64_MAX ==> |Dec(n)| <= 24
    ensures |Dec(0)| == 1
  {
    forall n: nat | n <= U64_MAX ensures |Dec(n)| <= 24 { Sizes.InitialLength(n); }
  }

  lemma VerbLength(v: A.Verb)
    ensures |A.Text(v)| <= 9 && |A.NOREPLY| == 7
  {
  }

  /** The classic command as an item of the stream. */
  lemma ClassicItem(op: Op, q: bool, token: nat, rest: Bytes)
    requires Sendable(op, ClassicText(q), token)
    ensures var b := Encoding(op, ClassicText(q), token);
      var d := TextConn.Ran(TextConn.Classic(ToClassic(op, q, token).value.0), BlockOf(op));
      TextConn.FrontOf(b + rest) == TextConn.Item(Some(d), |b|)
  {
    hide A.Print, TextConn.Classify, TextConn.FrontOf, A.Text, A.Sayable, IsWord, Dec, TextConn.Block, A.PrintableKey;
    var (cmd, data) := ToClassic(op, q, token).value;
    ClassicSayable(op, q, token);
    TextConn.PrintedRoutes(TextConn.Classic(cmd));
    ClassicFront(cmd, BlockOf(op), rest);
    if BlockOf(op).Some? { BlockItem(TextConn.Classic(cmd), data, q, rest, |A.Print(cmd)| + 2); }
  }

  lemma ClassicFront(cmd: A.AsciiCmd, block: Option<Bytes>, rest: Bytes)
    requires A.Sayable(cmd) && |A.Print(cmd)| <= TextConn.MAX_LINE_LEN
    ensures var line := A.Print(cmd);
      TextConn.FrontOf(Line(line, block) + rest)
      == TextConn.ItemOf(TextConn.Classify(line), (if block.Some? then block.value + CRLF else []) + rest, |line| + 2)
  {
    hide TextConn.FrontOf, TextConn.Classify, TextConn.ItemOf, A.Sayable, A.ArgsOf, A.Text, Join, Line;
    A.VerbIsWord(A.VerbOf(cmd));
    A.ArgsAreWords(cmd);
    PrintedItem([A.Text(A.VerbOf(cmd))] + A.ArgsOf(cmd), block, rest);
  }

  /** A classic command is parsed, run and answered; the session goes on. */
  lemma ClassicServed(s: State, op: Op, q: bool, token: nat, rest: Bytes, texts: S.Texts)
    requires Sendable(op, ClassicText(q), token)
    ensures var h := S.Handler(texts);
      var b, after := Encoding(op, ClassicText(q), token), Carried(s, op, ClassicText(q), token).s;
      var d := TextConn.Ran(TextConn.Classic(ToClassic(op, q, token).value.0), BlockOf(op));
      TextConn.Serve(h, s, b + rest)
      == TextConn.Then(
           TextConn.Session(after, [d], Output(s, op, ClassicText(q), token, texts), TextConn.EndOfLines),
           TextConn.Serve(h, after, rest))
  {
    ClassicItem(op, q, token, rest);
    hide TextConn.FrontOf, X.ClassicOutput, RunAll, ClassicSteps, A.Print, TextConn.Serve, Carries, A.PrintableKey;
    var b := Encoding(op, ClassicText(q), token);
    TextConn.ServeItem(S.Handler(texts), s, b + rest);
    assert (b + rest)[|b|..] == rest;
  }

  lemma MetaSayable(op: Op, q: bool, token: nat)
    requires Sendable(op, MetaText(q), token)
    ensures var cmd := ToMeta(op, q, token).value.0;
      && M.SayableMeta(cmd) && |M.PrintMeta(cmd)| <= TextConn.MAX_LINE_LEN && M.MetaTokens(cmd) != []
  {
    hide Dec, Join, M.MetaTokens;
    var cmd := ToMeta(op, q, token).value.0;
    MetaFlagsSayable(op, q, token);
    TokensShort(cmd);
    JoinLength(M.MetaTokens(cmd));
  }

  lemma TokensShort(cmd: M.MetaCmd)
    requires !cmd.MNoop? ==> |cmd.key| <= 250
    requires |cmd.flags| <= 5 || (|cmd.flags| <= 6 && !cmd.MSet?)
    requires forall i :: 0 <= i < |cmd.flags| ==> |M.FlagText(cmd.flags[i])| <= 251
    requires cmd.MSet? ==> cmd.datalen <= U64_MAX
    ensures M.MetaTokens(cmd) != [] && |M.MetaTokens(cmd)| <= 8
    ensures forall i :: 0 <= i < |M.MetaTokens(cmd)| ==> |M.MetaTokens(cmd)[i]| <= 251
  {
    hide Dec, M.FlagText;
    Numerals();
  }

  /** Flags of an encoding are printable, few and short. */
  lemma MetaFlagsSayable(op: Op, q: bool, token: nat)
    requires Sendable(op, MetaText(q), token)
    ensures var fs := FlagsOf(op, token) + Q(q);
      && M.SayableFlags(fs) && (|fs| <= 5 || (|fs| <= 6 && (op.Arith? || op.ArithCreate?)))
      && forall i :: 0 <= i < |fs| ==> |M.FlagText(fs[i])| <= 251
  {
    hide Dec;
    Numerals();
    forall n: nat ensures IsWord(Dec(n)) { DecIsWord(n); }
    AsciiWord("S"); AsciiWord("E"); AsciiWord("R"); AsciiWord("A"); AsciiWord("P"); AsciiWord("I"); AsciiWord("D");
    hide IsWord;
  }

  lemma MetaItem(op: Op, q: bool, token: nat, rest: Bytes)
    requires Sendable(op, MetaText(q), token)
    ensures var b := Encoding(op, MetaText(q), token);
      var d := TextConn.Ran(TextConn.Meta(ToMeta(op, q, token).value.0), BlockOf(op));
      TextConn.FrontOf(b + rest) == TextConn.Item(Some(d), |b|)
  {
    hide M.PrintMeta, TextConn.Classify, TextConn.FrontOf, M.SayableMeta, IsWord, Dec, TextConn.Block, M.MetaTokens;
    hide FlagsOf, A.PrintableKey;
    var (cmd, data) := ToMeta(op, q, token).value;
    MetaSayable(op, q, token);
    TextConn.PrintedRoutes(TextConn.Meta(cmd));
    MetaFront(cmd, BlockOf(op), rest);
    if BlockOf(op).Some? { BlockItem(TextConn.Meta(cmd), data, false, rest, |M.PrintMeta(cmd)| + 2); }
  }

  lemma MetaFront(cmd: M.MetaCmd, block: Option<Bytes>, rest: Bytes)
    requires M.SayableMeta(cmd) && |M.PrintMeta(cmd)| <= TextConn.MAX_LINE_LEN && M.MetaTokens(cmd) != []
    ensures var line := M.PrintMeta(cmd);
      TextConn.FrontOf(Line(line, block) + rest)
      == TextConn.ItemOf(TextConn.Classify(line), (if block.Some? then block.value + CRLF else []) + rest, |line| + 2)
  {
    hide TextConn.FrontOf, TextConn.Classify, TextConn.ItemOf, M.SayableMeta, M.MetaTokens, Join, Line;
    M.MetaTokensAreWords(cmd);
    PrintedItem(M.MetaTokens(cmd), block, rest);
  }

  /** A meta command likewise. */
  lemma MetaServed(s: State, op: Op, q: bool, token: nat, rest: Bytes, texts: S.Texts)
    requires Sendable(op, MetaText(q), token)
    ensures var h := S.Handler(texts);
      var b, after := Encoding(op, MetaText(q), token), Carried(s, op, MetaText(q), token).s;
      var d := TextConn.Ran(TextConn.Meta(ToMeta(op, q, token).value.0), BlockOf(op));
      TextConn.Serve(h, s, b + rest)
      == TextConn.Then(
           TextConn.Session(after, [d], Output(s, op, MetaText(q), token, texts), TextConn.EndOfLines),
           TextConn.Serve(h, after, rest))
  {
    MetaItem(op, q, token, rest);
    hide TextConn.FrontOf, H.MetaAnswer, RunAll, MetaSteps, M.PrintMeta, TextConn.Serve, FlagsOf, Carries;
    hide A.PrintableKey;
    var b := Encoding(op, MetaText(q), token);
    TextConn.ServeItem(S.Handler(texts), s, b + rest);
    assert (b + rest)[|b|..] == rest;
  }
}
