// Classic text commands, said with the words and lines of the protocol as literals.

module TextLaws {
  import opened ByteStrings
  import opened StoreSpec
  import opened FrontEnds
  import opened TextTokens
  import A = AsciiCommands
  import S = TextSession
  import T = Retrieval
  import X = TextHandlers
  import H = MetaHandlers
  import TextConn

  // The protocol's words and lines.

  const SET: Bytes := Ascii("set")
  const ADD: Bytes := Ascii("add")
  const REPLACE: Bytes := Ascii("replace")
  const CAS: Bytes := Ascii("cas")
  const APPEND: Bytes := Ascii("append")
  const PREPEND: Bytes := Ascii("prepend")
  const GET: Bytes := Ascii("get")
  const GETS: Bytes := Ascii("gets")
  const GAT: Bytes := Ascii("gat")
  const GATS: Bytes := Ascii("gats")
  const DELETE: Bytes := Ascii("delete")
  const INCR: Bytes := Ascii("incr")
  const DECR: Bytes := Ascii("decr")
  const TOUCH: Bytes := Ascii("touch")
  const FLUSH_ALL: Bytes := Ascii("flush_all")
  const VERSION: Bytes := Ascii("version")
  const STATS: Bytes := Ascii("stats")
  const VERBOSITY: Bytes := Ascii("verbosity")
  const QUIT: Bytes := Ascii("quit")
  const NOREPLY: Bytes := Ascii("noreply")

  const STORED_LINE: Bytes := Ascii("STORED\r\n")
  const NOT_STORED_LINE: Bytes := Ascii("NOT_STORED\r\n")
  const NOT_FOUND_LINE: Bytes := Ascii("NOT_FOUND\r\n")
  const EXISTS_LINE: Bytes := Ascii("EXISTS\r\n")
  const DELETED_LINE: Bytes := Ascii("DELETED\r\n")
  const TOUCHED_LINE: Bytes := Ascii("TOUCHED\r\n")
  const OK_LINE: Bytes := Ascii("OK\r\n")
  const VERSION_LINE: Bytes := Ascii("VERSION RedCouch 0.1.0\r\n")
  const NON_NUMERIC_TAIL: Bytes := Ascii(" decrement non-numeric value\r\n")
  const TOO_LARGE_LINE: Bytes := Ascii("CLIENT_ERROR object too large for cache\r\n")
  const BAD_CHUNK_LINE: Bytes := Ascii("CLIENT_ERROR bad data chunk\r\n")
  const ERROR_LINE: Bytes := Ascii("ERROR\r\n")
  const TOO_LONG_LINE: Bytes := Ascii("CLIENT_ERROR line too long\r\n")
  const END_LINE: Bytes := Ascii("END\r\n")
  const NON_NUMERIC_HEAD: Bytes := Ascii("CLIENT_ERROR cannot increment or")
  const CLIENT_ERROR: Bytes := Ascii("CLIENT_ERROR ")
  const STAT: Bytes := Ascii("STAT ")
  const BLANK: Bytes := Ascii(" ")
  const CRLF: Bytes := Ascii("\r\n")

  // ---------------------------------------------------------------------- lines

  /** The verb of a command. */
  function VerbFor(cmd: A.AsciiCmd): A.Verb {
    match cmd
    case Store(kind, _, _, _, _, _) =>
      (match kind case KindSet => A.VSet case KindAdd => A.VAdd case KindReplace => A.VReplace)
    case Cas(_, _, _, _, _, _) => A.VCas
    case AppendPrepend(p, _, _, _) => if p then A.VPrepend else A.VAppend
    case Retrieval(withCas, e, _) =>
      if e.None? then (if withCas then A.VGets else A.VGet) else (if withCas then A.VGats else A.VGat)
    case Delete(_, _) => A.VDelete
    case Counter(decr, _, _, _) => if decr then A.VDecr else A.VIncr
    case Touch(_, _, _) => A.VTouch
    case FlushAll(_, _) => A.VFlushAll
    case Version => A.VVersion
    case Stats(_) => A.VStats
    case Verbosity(_) => A.VVerbosity
    case Quit => A.VQuit
  }

  /** The words of the nineteen verbs. */
  function VerbText(v: A.Verb): Bytes {
    match v
    case VSet => SET case VAdd => ADD case VReplace => REPLACE case VCas => CAS case VAppend => APPEND
    case VPrepend => PREPEND case VGet => GET case VGets => GETS case VGat => GAT case VGats => GATS
    case VDelete => DELETE case VIncr => INCR case VDecr => DECR case VTouch => TOUCH case VFlushAll => FLUSH_ALL
    case VVersion => VERSION case VStats => STATS case VVerbosity => VERBOSITY case VQuit => QUIT
  }

  function Silent(noreply: bool): seq<Bytes> { if noreply then [NOREPLY] else [] }

  /** The other words. */
  function LaterWords(cmd: A.AsciiCmd): seq<Bytes> {
    match cmd
    case Store(_, k, f, e, n, nr) => [k, Dec(f), Dec(e), Dec(n)] + Silent(nr)
    case Cas(k, f, e, n, c, nr) => [k, Dec(f), Dec(e), Dec(n), Dec(c)] + Silent(nr)
    case AppendPrepend(_, k, n, nr) => [k, Dec(n)] + Silent(nr)
    case Retrieval(_, e, keys) => (if e.Some? then [Dec(e.value)] else []) + keys
    case Delete(k, nr) => [k] + Silent(nr)
    case Counter(_, k, d, nr) => [k, Dec(d)] + Silent(nr)
    case Touch(k, e, nr) => [k, Dec(e)] + Silent(nr)
    case FlushAll(d, nr) => [Dec(d)] + Silent(nr)
    case Stats(args) => if args.Some? then Tokens(args.value) else []
    case Verbosity(nr) => Silent(nr)
    case _ => []
  }

  function WordsOf(cmd: A.AsciiCmd): seq<Bytes> { [VerbText(VerbFor(cmd))] + LaterWords(cmd) }

  /** Each line of words is parsed as its command. */
  lemma CommandLines(cmd: A.AsciiCmd)
    requires A.Sayable(cmd)
    ensures A.ParseCommandLine(Join(WordsOf(cmd))) == A.CmdOk(cmd)
  {
    A.PrintParse(cmd);
    SameWords(cmd);
    hide A.ParseCommandLine, A.Sayable, Join, WordsOf, A.ArgsOf, A.Text;
  }

  lemma SameWords(cmd: A.AsciiCmd)
    ensures WordsOf(cmd) == [A.Text(A.VerbOf(cmd))] + A.ArgsOf(cmd)
  {
    hide LaterWords, VerbText, A.ArgsOf, A.Text;
    VerbTexts(A.VerbOf(cmd));
    SameLater(cmd);
  }

  lemma SameLater(cmd: A.AsciiCmd)
    ensures LaterWords(cmd) == A.ArgsOf(cmd)
  {
    assert NOREPLY == A.NOREPLY;
    hide Ascii, Dec, Tokens;
  }

  lemma VerbTexts(v: A.Verb)
    ensures A.Text(v) == VerbText(v)
  {
    hide Ascii;
  }

  const BARE_FLUSH: Bytes := Ascii("flush_all")
  const QUIET_FLUSH: Bytes := Ascii("flush_all noreply")

  /** `flush_all` alone, its usual form, and with noreply: at once. */
  lemma BareFlush()
    ensures A.ParseCommandLine(BARE_FLUSH) == A.CmdOk(A.FlushAll(0, false))
    ensures A.ParseCommandLine(QUIET_FLUSH) == A.CmdOk(A.FlushAll(0, true))
  {
    hide A.ParseCommandLine;
    FlushTexts();
    FlushArgs([]);
    FlushArgs([NOREPLY]);
    hide Ascii, Join;
    assert [FLUSH_ALL] + [] == [FLUSH_ALL] && [FLUSH_ALL] + [NOREPLY] == [FLUSH_ALL, NOREPLY];
    FlushParses();
  }

  lemma FlushParses()
    ensures A.ParseFlush([]) == A.CmdOk(A.FlushAll(0, false))
    ensures A.ParseFlush([NOREPLY]) == A.CmdOk(A.FlushAll(0, true))
  {
    assert NOREPLY == A.NOREPLY;
    hide Ascii;
    assert [NOREPLY][..0] == [];
  }

  lemma FlushTexts()
    ensures Join([FLUSH_ALL]) == BARE_FLUSH && Join([FLUSH_ALL, NOREPLY]) == QUIET_FLUSH
    ensures IsWord(FLUSH_ALL) && IsWord(NOREPLY)
  {
    AsciiWord("flush_all");
    AsciiWord("noreply");
    assert [FLUSH_ALL, NOREPLY][1..] == [NOREPLY];
    assert QUIET_FLUSH == FLUSH_ALL + [SPACE] + NOREPLY;
  }

  /** A line with the verb flush_all is parsed by its own parser. */
  lemma FlushArgs(args: seq<Bytes>)
    requires IsWord(FLUSH_ALL) && AllWords(args)
    ensures A.ParseCommandLine(Join([FLUSH_ALL] + args)) == A.ParseFlush(args)
  {
    var ts := [FLUSH_ALL] + args;
    PrintedLine(ts);
    VerbTexts(A.VFlushAll);
    A.VerbRoundTrip(A.VFlushAll);
    hide Tokens, IsUtf8, Join, A.ParseVerb, A.Text, Ascii, A.ParseFlush;
    assert ts[1..] == args;
  }

  // -------------------------------------------------------------------- answers

  /** The answers to loud commands, byte for byte. */
  function AnswerTo(cmd: A.AsciiCmd, r: Reply): Bytes {
    match cmd
    case Store(_, _, _, _, _, _) => if r.Done? then STORED_LINE else NOT_STORED_LINE
    case Cas(_, _, _, _, c, _) =>
      if r.Done? then STORED_LINE else if c == 0 then NOT_STORED_LINE
      else if r.Miss? then NOT_FOUND_LINE else EXISTS_LINE
    case AppendPrepend(_, _, _, _) => if r.Done? then STORED_LINE else NOT_STORED_LINE
    case Delete(_, _) => if r.Deleted? then DELETED_LINE else NOT_FOUND_LINE
    case Counter(_, _, _, _) =>
      if r.Number? then r.text + CRLF else if r.Miss? then NOT_FOUND_LINE
      else NON_NUMERIC_HEAD + NON_NUMERIC_TAIL
    case Touch(_, _, _) => if r.Done? then TOUCHED_LINE else NOT_FOUND_LINE
    case Version => VERSION_LINE
    case _ => OK_LINE
  }

  lemma Crlf(line: string, text: Bytes)
    requires forall i :: 0 <= i < |line| ==> line[i] as int < 128
    requires |text| == |line| + 2 && text[|line|] == CR && text[|line| + 1] == LF
    requires forall i :: 0 <= i < |line| ==> text[i] as int == line[i] as int
    ensures text == Ascii(line) + X.CRLF
  {
  }

  /** A loud mutation, version or verbosity is answered by its literal line. */
  lemma LoudAnswers(s: State, cmd: A.AsciiCmd, data: Bytes, stats: X.Stats)
    requires X.Mutation(cmd) || cmd.Verbosity? || cmd.Version?
    requires cmd.Version? || !cmd.noreply
    ensures X.ClassicOutput(s, cmd, data, stats) == AnswerTo(cmd, RunAll(s, ClassicSteps(cmd, data)).r)
  {
    hide RunAll, ClassicSteps, Ascii;
    AnswerTexts();
  }

  lemma AnswerTexts()
    ensures STORED_LINE == X.STORED + X.CRLF && NOT_STORED_LINE == X.NOT_STORED + X.CRLF
    ensures NOT_FOUND_LINE == X.NOT_FOUND + X.CRLF && EXISTS_LINE == X.EXISTS + X.CRLF
    ensures DELETED_LINE == X.DELETED + X.CRLF && TOUCHED_LINE == X.TOUCHED + X.CRLF && OK_LINE == X.OK + X.CRLF
    ensures VERSION_LINE == X.VERSION_LINE + X.CRLF && CRLF == X.CRLF
    ensures NON_NUMERIC_HEAD + NON_NUMERIC_TAIL == X.NOT_NUMERIC + X.CRLF
  {
    StoreTexts();
    KeyTexts();
    NumberTexts();
  }

  lemma StoreTexts()
    ensures STORED_LINE == X.STORED + X.CRLF && NOT_STORED_LINE == X.NOT_STORED + X.CRLF
    ensures NOT_FOUND_LINE == X.NOT_FOUND + X.CRLF && EXISTS_LINE == X.EXISTS + X.CRLF
  {
    Crlf("STORED", STORED_LINE);
    Crlf("NOT_STORED", NOT_STORED_LINE);
    Crlf("NOT_FOUND", NOT_FOUND_LINE);
    Crlf("EXISTS", EXISTS_LINE);
  }

  lemma KeyTexts()
    ensures DELETED_LINE == X.DELETED + X.CRLF && TOUCHED_LINE == X.TOUCHED + X.CRLF && OK_LINE == X.OK + X.CRLF
    ensures CRLF == X.CRLF
  {
    Crlf("DELETED", DELETED_LINE);
    Crlf("TOUCHED", TOUCHED_LINE);
    Crlf("OK", OK_LINE);
  }

  lemma NumberTexts()
    ensures VERSION_LINE == X.VERSION_LINE + X.CRLF
    ensures NON_NUMERIC_HEAD + NON_NUMERIC_TAIL == X.NOT_NUMERIC + X.CRLF
  {
    Crlf("VERSION RedCouch 0.1.0", VERSION_LINE);
    Crlf(" decrement non-numeric value", NON_NUMERIC_TAIL);
    assert X.NOT_NUMERIC + X.CRLF == NON_NUMERIC_HEAD + (X.NOT_NUMERIC[|NON_NUMERIC_HEAD|..] + X.CRLF);
  }

  /** With noreply nothing at all is sent, whatever happened. */
  lemma NoreplyIsSilent(s: State, cmd: A.AsciiCmd, data: Bytes, stats: X.Stats)
    requires (X.Mutation(cmd) || cmd.Verbosity?) && cmd.noreply
    ensures X.ClassicOutput(s, cmd, data, stats) == []
  {
    hide RunAll, ClassicSteps;
  }

  /** `get` and `gets` over the wire: the present keys in request order, and the store as it was. */
  lemma GetLaw(s: State, keys: seq<Bytes>, withCas: bool, stats: X.Stats, rest: Bytes)
    requires T.PlainFlags(s) && forall i :: 0 <= i < |keys| ==> ValidKey(keys[i])
    ensures var cmd := A.Retrieval(withCas, None, keys);
      && T.Decode(X.ClassicOutput(s, cmd, [], stats) + rest, withCas) == Some((T.Present(s, keys, withCas), rest))
      && RunAll(s, ClassicSteps(cmd, [])).s == s
  {
    T.GetDecodes(s, keys, withCas, rest);
    T.GetHits(s, keys, withCas);
    X.VisitIsRun(s, None, keys);
    hide RunAll, T.Visit, T.Hits, T.Decode, T.Reply, KeySteps;
  }

  /** `gat` and `gats` over the wire. */
  lemma GatLaw(s: State, exp: nat, keys: seq<Bytes>, withCas: bool, stats: X.Stats, rest: Bytes)
    requires T.PlainFlags(s) && forall i :: 0 <= i < |keys| ==> ValidKey(keys[i])
    ensures T.Decode(X.ClassicOutput(s, A.Retrieval(withCas, Some(exp), keys), [], stats) + rest, withCas)
      == Some((T.PresentTouched(s, exp, keys, withCas), rest))
  {
    T.GatDecodes(s, exp, keys, withCas, rest);
  }

  lemma StatTexts()
    ensures STAT == X.STAT && BLANK == [SPACE] && CRLF == X.CRLF && END_LINE == T.END
  {
    assert T.END == Ascii("END") + X.CRLF;
    Crlf("END", END_LINE);
  }

  /** Statistics: one line each, name and value, in order, then END. */
  lemma StatsLaw(s: State, stats: X.Stats)
    ensures X.ClassicOutput(s, A.Stats(None), [], stats) == StatsFrom(stats, 0) + END_LINE
  {
    StatTexts();
    hide Ascii;
    StatsSplit(stats, 0);
  }

  function StatsFrom(stats: X.Stats, i: nat): Bytes
    requires i <= |stats|
    decreases |stats| - i
  {
    if i == |stats| then []
    else (STAT + stats[i].0 + BLANK + stats[i].1 + CRLF) + StatsFrom(stats, i + 1)
  }

  lemma {:induction false} StatsSplit(stats: X.Stats, i: nat)
    requires i <= |stats|
    ensures X.StatLines(stats) == X.StatLines(stats[..i]) + StatsFrom(stats, i)
    decreases |stats| - i
  {
    if i == |stats| {
      assert stats[..i] == stats;
    } else {
      StatTexts();
      hide Ascii;
      StatsSplit(stats, i + 1);
      assert stats[..i + 1][..i] == stats[..i];
      var line := STAT + stats[i].0 + BLANK + stats[i].1 + CRLF;
      assert X.StatLines(stats[..i + 1]) == X.StatLines(stats[..i]) + line;
    }
  }

  // ---------------------------------------------------------- lines and blocks

  /** A line ends at its first line feed, with or without a carriage return. */
  lemma LineLaw(line: Bytes, rest: Bytes)
    requires LF !in line
    ensures TextConn.FindLine(line + [LF] + rest)
      == Some((if line != [] && line[|line| - 1] == CR then |line| - 1 else |line|, |line| + 1))
  {
    LineFrom(line, rest, 0);
  }

  lemma {:induction false} LineFrom(line: Bytes, rest: Bytes, i: nat)
    requires LF !in line && i <= |line|
    ensures TextConn.FindFrom(line + [LF] + rest, i)
      == Some((if line != [] && line[|line| - 1] == CR then |line| - 1 else |line|, |line| + 1))
    decreases |line| - i
  {
    var b := line + [LF] + rest;
    if i < |line| {
      assert b[i] == line[i];
      LineFrom(line, rest, i + 1);
    } else {
      assert b[i] == LF && (i > 0 ==> b[i - 1] == line[i - 1]);
    }
  }

  /** A data block ends with a line feed, alone or after a carriage return; else it is refused. */
  lemma BlockLaw(data: Bytes, a: byte, b: byte, rest: Bytes)
    ensures TextConn.Block(data + [a, b] + rest, |data|)
      == if a == LF then (Some(data), |data| + 1)
         else if a == CR && b == LF then (Some(data), |data| + 2)
         else (None, |data| + 2)
  {
    var x := data + [a, b] + rest;
    assert x[|data|] == a && x[|data| + 1] == b && x[..|data|] == data;
  }

  /** A line of blanks is skipped. */
  lemma BlankLine(line: Bytes, rest: Bytes)
    requires |line| <= 2048 && forall i :: 0 <= i < |line| ==> line[i] == 0x20 || line[i] == 0x09 || line[i] == CR
    ensures TextConn.FrontOf(line + [LF] + rest) == TextConn.Item(None, |line| + 1)
  {
    LineLaw(line, rest);
    var b := line + [LF] + rest;
    var end := TextConn.FindLine(b).value.0;
    assert b[..end] == line[..end];
  }

  const VERBS: set<Bytes> :=
    {SET, ADD, REPLACE, CAS, APPEND, PREPEND, GET,
     GETS, GAT, GATS, DELETE, INCR, DECR, TOUCH,
     FLUSH_ALL, VERSION, STATS, VERBOSITY, QUIT}

  /** A command is unknown exactly when its first word is none of the nineteen verbs. */
  lemma UnknownExactly(ts: seq<Bytes>)
    requires ts != [] && AllWords(ts)
    ensures A.ParseCommandLine(Join(ts)) == A.UnknownCommand <==> ts[0] !in VERBS
  {
    PrintedLine(ts);
    KnownVerbs(ts[0]);
    hide Join, Tokens, IsUtf8, A.ParseVerb, Ascii;
    if A.ParseVerb(ts[0]).Some? { NeverUnknown(A.ParseVerb(ts[0]).value, ts[1..], ts, Join(ts)); }
  }

  lemma KnownVerbs(t: Bytes)
    ensures A.ParseVerb(t).Some? <==> t in VERBS
  {
    hide Ascii;
  }

  lemma NeverUnknown(v: A.Verb, args: seq<Bytes>, tokens: seq<Bytes>, line: Bytes)
    ensures A.ParseArgs(v, args, tokens, line) != A.UnknownCommand
  {
    hide ParseUint, ValidKey, Trim, A.FirstSpace, A.ValidKeys, A.NoReply;
    if v.VFlushAll? { FlushKnown(args); }
  }

  lemma {:induction false} FlushKnown(args: seq<Bytes>)
    ensures A.ParseFlush(args) != A.UnknownCommand
  {
    hide ParseUint;
    if args != [] { FlushKnown(args[..|args| - 1]); }
  }

  lemma BlockTexts()
    ensures TOO_LARGE_LINE == S.TOO_LARGE + X.CRLF && BAD_CHUNK_LINE == S.BAD_CHUNK + X.CRLF
  {
    Crlf("CLIENT_ERROR object too large for cache", TOO_LARGE_LINE);
    Crlf("CLIENT_ERROR bad data chunk", BAD_CHUNK_LINE);
  }

  lemma ItemTexts()
    ensures TOO_LARGE_LINE == S.TOO_LARGE + X.CRLF && BAD_CHUNK_LINE == S.BAD_CHUNK + X.CRLF
    ensures ERROR_LINE == S.ERROR + X.CRLF && TOO_LONG_LINE == S.TOO_LONG + X.CRLF
    ensures CLIENT_ERROR == H.CLIENT_ERROR && CRLF == X.CRLF
  {
    BlockTexts();
    Crlf("ERROR", ERROR_LINE);
    Crlf("CLIENT_ERROR line too long", TOO_LONG_LINE);
  }

  /** What is sent for everything that is not a command. */
  lemma OtherItems(s: State, cmd: TextConn.TextCmd, quiet: bool, line: Bytes, texts: S.Texts)
    ensures S.Handle(s, TextConn.TooLarge(cmd, quiet), texts)
      == TextConn.Answer(s, if quiet then [] else TOO_LARGE_LINE, true)
    ensures S.Handle(s, TextConn.BadChunk(cmd, quiet), texts)
      == TextConn.Answer(s, if quiet then [] else BAD_CHUNK_LINE, true)
    ensures S.Handle(s, TextConn.NoCommand, texts) == TextConn.Answer(s, ERROR_LINE, true)
    ensures S.Handle(s, TextConn.LineTooLong, texts) == TextConn.Answer(s, TOO_LONG_LINE, true)
    ensures S.Handle(s, TextConn.NotParsed(line), texts)
      == TextConn.Answer(s, CLIENT_ERROR + texts.badLine(line) + CRLF, true)
  {
    hide Ascii;
    ItemTexts();
  }

  /** A line over 2048 bytes is refused as a whole, and only it. */
  lemma LongLine(line: Bytes, rest: Bytes)
    requires LF !in line && |line| > 2048 && line[|line| - 1] != CR
    ensures TextConn.FrontOf(line + [LF] + rest) == TextConn.Item(Some(TextConn.LineTooLong), |line| + 1)
  {
    LineLaw(line, rest);
  }

  /** A block over 20 MiB is skipped with its terminator, whatever that is, and only they. */
  lemma LargeBlock(cmd: TextConn.TextCmd, n: nat, quiet: bool, block: Bytes, rest: Bytes, skip: nat)
    requires n > 20_971_520 && |block| == n + 2
    ensures TextConn.ItemOf(TextConn.WithData(cmd, n, quiet), block + rest, skip)
      == TextConn.Item(Some(TextConn.TooLarge(cmd, quiet)), skip + |block|)
  {
  }

  /** A block with a wrong terminator is skipped with the two bytes in its place. */
  lemma BadBlock(cmd: TextConn.TextCmd, data: Bytes, quiet: bool, a: byte, b: byte, rest: Bytes, skip: nat)
    requires |data| <= 20_971_520 && a != LF && !(a == CR && b == LF)
    ensures TextConn.ItemOf(TextConn.WithData(cmd, |data|, quiet), data + [a, b] + rest, skip)
      == TextConn.Item(Some(TextConn.BadChunk(cmd, quiet)), skip + |data| + 2)
  {
    BlockLaw(data, a, b, rest);
    hide TextConn.Block;
  }

  const WIDE_SPACES: set<Bytes> :=
    {[0xE1, 0x9A, 0x80], [0xE2, 0x80, 0x80], [0xE2, 0x80, 0x81], [0xE2, 0x80, 0x82], [0xE2, 0x80, 0x83],
     [0xE2, 0x80, 0x84], [0xE2, 0x80, 0x85], [0xE2, 0x80, 0x86], [0xE2, 0x80, 0x87], [0xE2, 0x80, 0x88],
     [0xE2, 0x80, 0x89], [0xE2, 0x80, 0x8A], [0xE2, 0x80, 0xA8], [0xE2, 0x80, 0xA9], [0xE2, 0x80, 0xAF],
     [0xE2, 0x81, 0x9F], [0xE3, 0x80, 0x80]}

  /** The white space that separates words, with the length of its UTF-8 form. */
  lemma SpaceTable(b: Bytes)
    ensures SpaceLen(b) == 1 <==> b != [] && (9 <= b[0] <= 13 || b[0] == 32)
    ensures SpaceLen(b) == 2 <==> |b| >= 2 && b[0] == 0xC2 && (b[1] == 0x85 || b[1] == 0xA0)
    ensures SpaceLen(b) == 3 <==> |b| >= 3 && b[..3] in WIDE_SPACES
  {
    if |b| >= 3 {
      assert b[..3] == [b[0], b[1], b[2]];
    }
  }
}
