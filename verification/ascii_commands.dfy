// The classic text commands: parsing a command line and printing a command.

module AsciiCommands {
  import opened ByteStrings
  import opened TextTokens

  datatype StoreKind = KindSet | KindAdd | KindReplace

  datatype AsciiCmd =
    | Store(kind: StoreKind, key: Bytes, flags: nat, exptime: nat, bytes: nat, noreply: bool)
    | Cas(key: Bytes, flags: nat, exptime: nat, bytes: nat, casUnique: nat, noreply: bool)
    | AppendPrepend(isPrepend: bool, key: Bytes, bytes: nat, noreply: bool)
    | Retrieval(withCas: bool, exptimeOpt: Option<nat>, keys: seq<Bytes>)
    | Delete(key: Bytes, noreply: bool)
    | Counter(isDecr: bool, key: Bytes, value: nat, noreply: bool)
    | Touch(key: Bytes, exptime: nat, noreply: bool)
    | FlushAll(delay: nat, noreply: bool)
    | Version
    | Stats(args: Option<Bytes>)
    | Verbosity(noreply: bool)
    | Quit

  datatype CmdResult = CmdOk(cmd: AsciiCmd) | UnknownCommand | ClientError

  // --------------------------------------------------------------------- verbs

  datatype Verb =
    | VSet | VAdd | VReplace | VCas | VAppend | VPrepend | VGet | VGets | VGat | VGats | VDelete
    | VIncr | VDecr | VTouch | VFlushAll | VVersion | VStats | VVerbosity | VQuit

  function Word(v: Verb): (s: string)
    ensures s != "" && forall i :: 0 <= i < |s| ==> 0x21 <= s[i] as int <= 0x7E
  {
    match v
    case VSet => "set" case VAdd => "add" case VReplace => "replace" case VCas => "cas"
    case VAppend => "append" case VPrepend => "prepend" case VGet => "get" case VGets => "gets"
    case VGat => "gat" case VGats => "gats" case VDelete => "delete" case VIncr => "incr"
    case VDecr => "decr" case VTouch => "touch" case VFlushAll => "flush_all"
    case VVersion => "version" case VStats => "stats" case VVerbosity => "verbosity"
    case VQuit => "quit"
  }

  function Text(v: Verb): Bytes { Ascii(Word(v)) }

  function ParseVerb(t: Bytes): Option<Verb> {
    if t == Text(VSet) then Some(VSet) else if t == Text(VAdd) then Some(VAdd)
    else if t == Text(VReplace) then Some(VReplace) else if t == Text(VCas) then Some(VCas)
    else if t == Text(VAppend) then Some(VAppend) else if t == Text(VPrepend) then Some(VPrepend)
    else if t == Text(VGet) then Some(VGet) else if t == Text(VGets) then Some(VGets)
    else if t == Text(VGat) then Some(VGat) else if t == Text(VGats) then Some(VGats)
    else if t == Text(VDelete) then Some(VDelete) else if t == Text(VIncr) then Some(VIncr)
    else if t == Text(VDecr) then Some(VDecr) else if t == Text(VTouch) then Some(VTouch)
    else if t == Text(VFlushAll) then Some(VFlushAll) else if t == Text(VVersion) then Some(VVersion)
    else if t == Text(VStats) then Some(VStats) else if t == Text(VVerbosity) then Some(VVerbosity)
    else if t == Text(VQuit) then Some(VQuit) else None
  }

  lemma WordsDiffer(u: Verb, v: Verb)
    requires Word(u) == Word(v)
    ensures u == v
  {
  }

  lemma TextsDiffer(u: Verb, v: Verb)
    requires Text(u) == Text(v)
    ensures u == v
  {
    hide Word;
    AsciiInjective(Word(u), Word(v));
    WordsDiffer(u, v);
  }

  lemma ParsedVerb(t: Bytes)
    ensures ParseVerb(t).Some? ==> Text(ParseVerb(t).value) == t
  {
  }

  lemma KnownVerb(v: Verb)
    ensures ParseVerb(Text(v)).Some?
  {
  }

  lemma VerbRoundTrip(v: Verb)
    ensures ParseVerb(Text(v)) == Some(v)
  {
    hide Text, ParseVerb;
    KnownVerb(v);
    ParsedVerb(Text(v));
    TextsDiffer(ParseVerb(Text(v)).value, v);
  }

  // ------------------------------------------------------------------- parsers

  const NOREPLY: Bytes := Ascii("noreply")

  /** The optional last argument: absent, `noreply`, or an error. */
  function NoReply(args: seq<Bytes>, n: nat): Option<bool> {
    if |args| == n then Some(false)
    else if |args| == n + 1 && args[n] == NOREPLY then Some(true)
    else None
  }

  function ParseStore(kind: StoreKind, args: seq<Bytes>): CmdResult {
    var nr := NoReply(args, 4);
    if nr.None? || !ValidKey(args[0]) then ClientError
    else
      var f, e, b := ParseUint(args[1], U32_MAX), ParseUint(args[2], U32_MAX), ParseUint(args[3], U32_MAX);
      if f.None? || e.None? || b.None? then ClientError
      else CmdOk(Store(kind, args[0], f.value, e.value, b.value, nr.value))
  }

  function ParseCas(args: seq<Bytes>): CmdResult {
    var nr := NoReply(args, 5);
    if nr.None? || !ValidKey(args[0]) then ClientError
    else
      var f, e, b := ParseUint(args[1], U32_MAX), ParseUint(args[2], U32_MAX), ParseUint(args[3], U32_MAX);
      var c := ParseUint(args[4], U64_MAX);
      if f.None? || e.None? || b.None? || c.None? then ClientError
      else CmdOk(Cas(args[0], f.value, e.value, b.value, c.value, nr.value))
  }

  function ParseAppend(isPrepend: bool, args: seq<Bytes>): CmdResult {
    var nr := NoReply(args, 2);
    if nr.None? || !ValidKey(args[0]) then ClientError
    else
      var b := ParseUint(args[1], U32_MAX);
      if b.None? then ClientError else CmdOk(AppendPrepend(isPrepend, args[0], b.value, nr.value))
  }

  predicate ValidKeys(keys: seq<Bytes>) { forall i :: 0 <= i < |keys| ==> ValidKey(keys[i]) }

  function ParseGet(withCas: bool, args: seq<Bytes>): CmdResult {
    if args == [] || !ValidKeys(args) then ClientError else CmdOk(Retrieval(withCas, None, args))
  }

  function ParseGat(withCas: bool, args: seq<Bytes>): CmdResult {
    if |args| < 2 then ClientError
    else
      var e := ParseUint(args[0], U32_MAX);
      if e.None? || !ValidKeys(args[1..]) then ClientError
      else CmdOk(Retrieval(withCas, Some(e.value), args[1..]))
  }

  function ParseDelete(args: seq<Bytes>): CmdResult {
    var nr := NoReply(args, 1);
    if nr.None? || !ValidKey(args[0]) then ClientError else CmdOk(Delete(args[0], nr.value))
  }

  function ParseCounter(isDecr: bool, args: seq<Bytes>): CmdResult {
    var nr := NoReply(args, 2);
    if nr.None? || !ValidKey(args[0]) then ClientError
    else
      var d := ParseUint(args[1], U64_MAX);
      if d.None? then ClientError else CmdOk(Counter(isDecr, args[0], d.value, nr.value))
  }

  function ParseTouch(args: seq<Bytes>): CmdResult {
    var nr := NoReply(args, 2);
    if nr.None? || !ValidKey(args[0]) then ClientError
    else
      var e := ParseUint(args[1], U32_MAX);
      if e.None? then ClientError else CmdOk(Touch(args[0], e.value, nr.value))
  }

  /** flush_all takes its delay and `noreply` in any order; the last delay counts. */
  function ParseFlush(args: seq<Bytes>): CmdResult {
    if args == [] then CmdOk(FlushAll(0, false))
    else
      var n := |args| - 1;
      var r := ParseFlush(args[..n]);
      if !r.CmdOk? || !r.cmd.FlushAll? then ClientError
      else if args[n] == NOREPLY then CmdOk(r.cmd.(noreply := true))
      else
        var d := ParseUint(args[n], U32_MAX);
        if d.None? then ClientError else CmdOk(r.cmd.(delay := d.value))
  }

  /** Position of the first white-space character. */
  function FirstSpace(line: Bytes): (n: nat)
    ensures n <= |line|
  {
    WordLen(line)
  }

  function ParseStats(tokens: seq<Bytes>, line: Bytes): CmdResult {
    var rest := Trim(line[FirstSpace(line)..]);
    CmdOk(Stats(if |tokens| > 1 && rest != [] then Some(rest) else None))
  }

  function ParseArgs(v: Verb, args: seq<Bytes>, tokens: seq<Bytes>, line: Bytes): CmdResult {
    match v
    case VSet => ParseStore(KindSet, args)
    case VAdd => ParseStore(KindAdd, args)
    case VReplace => ParseStore(KindReplace, args)
    case VCas => ParseCas(args)
    case VAppend => ParseAppend(false, args)
    case VPrepend => ParseAppend(true, args)
    case VGet => ParseGet(false, args)
    case VGets => ParseGet(true, args)
    case VGat => ParseGat(false, args)
    case VGats => ParseGat(true, args)
    case VDelete => ParseDelete(args)
    case VIncr => ParseCounter(false, args)
    case VDecr => ParseCounter(true, args)
    case VTouch => ParseTouch(args)
    case VFlushAll => ParseFlush(args)
    case VVersion => CmdOk(Version)
    case VStats => ParseStats(tokens, line)
    case VVerbosity => CmdOk(Verbosity(tokens != [] && tokens[|tokens| - 1] == NOREPLY))
    case VQuit => CmdOk(Quit)
  }

  /** `parse_command_line`. */
  function ParseCommandLine(line: Bytes): CmdResult {
    if !IsUtf8(line) then ClientError
    else
      var tokens := Tokens(line);
      if tokens == [] then UnknownCommand
      else
        var v := ParseVerb(tokens[0]);
        if v.None? then UnknownCommand else ParseArgs(v.value, tokens[1..], tokens, line)
  }

  // The loops of the multi-key and flush parsers.

  method ParseKeys(args: seq<Bytes>) returns (keys: Option<seq<Bytes>>)
    ensures keys == if ValidKeys(args) then Some(args) else None
  {
    var ks: seq<Bytes> := [];
    for i := 0 to |args|
      invariant ks == args[..i] && ValidKeys(args[..i])
    {
      var ok := ValidateKey(args[i]);
      if !ok { return None; }
      ks := ks + [args[i]];
    }
    assert args[..|args|] == args;
    return Some(ks);
  }

  method ParseFlushLoop(args: seq<Bytes>) returns (r: CmdResult)
    ensures r == ParseFlush(args)
  {
    var delay, noreply := 0, false;
    for i := 0 to |args|
      invariant ParseFlush(args[..i]) == CmdOk(FlushAll(delay, noreply))
    {
      assert args[..i + 1][..i] == args[..i];
      if args[i] == NOREPLY {
        noreply := true;
      } else {
        var d := ParseUint(args[i], U32_MAX);
        if d.None? {
          FlushError(args, i + 1);
          return ClientError;
        }
        delay := d.value;
      }
    }
    assert args[..|args|] == args;
    return CmdOk(FlushAll(delay, noreply));
  }

  /** An error in a prefix of the arguments stays an error. */
  lemma {:induction false} FlushError(args: seq<Bytes>, i: nat)
    requires i <= |args| && ParseFlush(args[..i]) == ClientError
    ensures ParseFlush(args) == ClientError
    decreases |args| - i
  {
    if i == |args| {
      assert args[..i] == args;
    } else {
      assert args[..i + 1][..i] == args[..i];
      FlushError(args, i + 1);
    }
  }

  // ------------------------------------------------------------------ printing

  function Opt(noreply: bool): seq<Bytes> { if noreply then [NOREPLY] else [] }

  function VerbOf(cmd: AsciiCmd): Verb {
    match cmd
    case Store(kind, _, _, _, _, _) =>
      (match kind case KindSet => VSet case KindAdd => VAdd case KindReplace => VReplace)
    case Cas(_, _, _, _, _, _) => VCas
    case AppendPrepend(p, _, _, _) => if p then VPrepend else VAppend
    case Retrieval(c, e, _) => if e.Some? then (if c then VGats else VGat) else if c then VGets else VGet
    case Delete(_, _) => VDelete
    case Counter(d, _, _, _) => if d then VDecr else VIncr
    case Touch(_, _, _) => VTouch
    case FlushAll(_, _) => VFlushAll
    case Version => VVersion
    case Stats(_) => VStats
    case Verbosity(_) => VVerbosity
    case Quit => VQuit
  }

  function ArgsOf(cmd: AsciiCmd): seq<Bytes> {
    match cmd
    case Store(_, k, f, e, b, nr) => [k, Dec(f), Dec(e), Dec(b)] + Opt(nr)
    case Cas(k, f, e, b, c, nr) => [k, Dec(f), Dec(e), Dec(b), Dec(c)] + Opt(nr)
    case AppendPrepend(_, k, b, nr) => [k, Dec(b)] + Opt(nr)
    case Retrieval(_, e, keys) => (if e.Some? then [Dec(e.value)] else []) + keys
    case Delete(k, nr) => [k] + Opt(nr)
    case Counter(_, k, d, nr) => [k, Dec(d)] + Opt(nr)
    case Touch(k, e, nr) => [k, Dec(e)] + Opt(nr)
    case FlushAll(d, nr) => [Dec(d)] + Opt(nr)
    case Stats(args) => if args.Some? then Tokens(args.value) else []
    case Verbosity(nr) => Opt(nr)
    case _ => []
  }

  function Print(cmd: AsciiCmd): Bytes { Join([Text(VerbOf(cmd))] + ArgsOf(cmd)) }

  predicate PrintableKey(k: Bytes) { IsWord(k) && |k| <= 250 }

  /** Commands a client can mean: printable keys, fields within their types. */
  predicate Sayable(cmd: AsciiCmd) {
    match cmd
    case Store(_, k, f, e, b, _) => PrintableKey(k) && f <= U32_MAX && e <= U32_MAX && b <= U32_MAX
    case Cas(k, f, e, b, c, _) =>
      PrintableKey(k) && f <= U32_MAX && e <= U32_MAX && b <= U32_MAX && c <= U64_MAX
    case AppendPrepend(_, k, b, _) => PrintableKey(k) && b <= U32_MAX
    case Retrieval(_, e, keys) =>
      keys != [] && (e.Some? ==> e.value <= U32_MAX) && forall i :: 0 <= i < |keys| ==> PrintableKey(keys[i])
    case Delete(k, _) => PrintableKey(k)
    case Counter(_, k, d, _) => PrintableKey(k) && d <= U64_MAX
    case Touch(k, e, _) => PrintableKey(k) && e <= U32_MAX
    case FlushAll(d, _) => d <= U32_MAX
    case Stats(args) =>
      args.Some? ==> Tokens(args.value) != [] && AllWords(Tokens(args.value)) && Join(Tokens(args.value)) == args.value
    case _ => true
  }

  lemma NoReplyWord()
    ensures IsWord(NOREPLY)
  {
  }

  lemma ArgsAreWords(cmd: AsciiCmd)
    requires Sayable(cmd)
    ensures AllWords(ArgsOf(cmd))
  {
    hide IsWord, Dec;
    NoReplyWord();
    forall n: nat ensures IsWord(Dec(n)) { DecIsWord(n); }
  }

  lemma NumberIsNotNoReply(n: nat)
    ensures Dec(n) != NOREPLY
  {
    assert IsDigit(Dec(n)[0]);
    assert NOREPLY[0] as int == 'n' as int;
  }

  lemma ParsesBack(cmd: AsciiCmd, tokens: seq<Bytes>, line: Bytes)
    requires Sayable(cmd) && tokens == [Text(VerbOf(cmd))] + ArgsOf(cmd) && line == Join(tokens)
    requires !cmd.Stats?
    ensures ParseArgs(VerbOf(cmd), ArgsOf(cmd), tokens, line) == CmdOk(cmd)
  {
    hide Dec, ParseUint, Text, IsUtf8, Tokens, Join, ParseArgs;
    if cmd.Store? || cmd.Cas? || cmd.AppendPrepend? {
      StoresParseBack(cmd, tokens, line);
    } else {
      OthersParseBack(cmd, tokens, line);
    }
  }

  lemma RetrievalParsesBack(cmd: AsciiCmd)
    requires Sayable(cmd) && cmd.Retrieval?
    ensures ParseArgs(VerbOf(cmd), ArgsOf(cmd), [], []) == CmdOk(cmd)
  {
    hide Dec, ParseUint, Text, Tokens, Join;
    if cmd.exptimeOpt.Some? {
      ParseDec(cmd.exptimeOpt.value, U32_MAX);
      assert ([Dec(cmd.exptimeOpt.value)] + cmd.keys)[1..] == cmd.keys;
    } else {
      assert [] + cmd.keys == cmd.keys;
    }
  }

  lemma StoresParseBack(cmd: AsciiCmd, tokens: seq<Bytes>, line: Bytes)
    requires Sayable(cmd) && (cmd.Store? || cmd.Cas? || cmd.AppendPrepend?)
    ensures ParseArgs(VerbOf(cmd), ArgsOf(cmd), tokens, line) == CmdOk(cmd)
  {
    hide Dec, ParseUint, Text, IsUtf8, Tokens, Join;
    forall n: nat, limit: nat ensures ParseUint(Dec(n), limit) == if n <= limit then Some(n) else None {
      ParseDec(n, limit);
    }
  }

  lemma OthersParseBack(cmd: AsciiCmd, tokens: seq<Bytes>, line: Bytes)
    requires Sayable(cmd) && tokens == [Text(VerbOf(cmd))] + ArgsOf(cmd) && line == Join(tokens)
    requires !cmd.Stats? && !cmd.Store? && !cmd.Cas? && !cmd.AppendPrepend?
    ensures ParseArgs(VerbOf(cmd), ArgsOf(cmd), tokens, line) == CmdOk(cmd)
  {
    hide Dec, ParseUint, Text, IsUtf8, Tokens, Join;
    forall n: nat, limit: nat ensures ParseUint(Dec(n), limit) == if n <= limit then Some(n) else None {
      ParseDec(n, limit);
    }
    match cmd
    case Retrieval(_, e, keys) =>
      RetrievalParsesBack(cmd);
    case FlushAll(d, nr) =>
      FlushParsesBack(d, nr);
    case Verbosity(nr) =>
      if !nr { VerbosityWord(); }
    case _ =>
  }

  lemma FlushParsesBack(d: nat, nr: bool)
    requires d <= U32_MAX
    ensures ParseFlush([Dec(d)] + Opt(nr)) == CmdOk(FlushAll(d, nr))
  {
    hide Dec, ParseUint;
    ParseDec(d, U32_MAX);
    NumberIsNotNoReply(d);
    assert [Dec(d)][..0] == [];
    assert ParseFlush([Dec(d)]) == CmdOk(FlushAll(d, false));
    if nr {
      var args := [Dec(d)] + Opt(nr);
      assert args[..1] == [Dec(d)] && args[1] == NOREPLY;
    } else {
      assert [Dec(d)] + Opt(nr) == [Dec(d)];
    }
  }

  lemma VerbosityWord()
    ensures Text(VVerbosity) != NOREPLY
  {
  }

  /** Printing any command and parsing the line gives the command back. */
  lemma PrintParse(cmd: AsciiCmd)
    requires Sayable(cmd)
    ensures ParseCommandLine(Print(cmd)) == CmdOk(cmd)
  {
    hide Text, ParseArgs, ParseVerb, IsUtf8, Tokens, ArgsOf, Sayable;
    var tokens := [Text(VerbOf(cmd))] + ArgsOf(cmd);
    VerbIsWord(VerbOf(cmd));
    ArgsAreWords(cmd);
    PrintedLine(tokens);
    VerbRoundTrip(VerbOf(cmd));
    assert tokens[1..] == ArgsOf(cmd);
    if cmd.Stats? {
      StatsParsesBack(cmd, tokens);
    } else {
      ParsesBack(cmd, tokens, Print(cmd));
    }
  }

  lemma VerbIsWord(v: Verb)
    ensures IsWord(Text(v))
  {
  }

  lemma StatsParsesBack(cmd: AsciiCmd, tokens: seq<Bytes>)
    requires Sayable(cmd) && cmd.Stats? && tokens == [Text(VStats)] + ArgsOf(cmd)
    ensures ParseArgs(VStats, ArgsOf(cmd), tokens, Join(tokens)) == CmdOk(cmd)
  {
    hide Text, Trim, WordLen, Tokens;
    VerbIsWord(VStats);
    if cmd.args.Some? {
      var a := cmd.args.value;
      var ts := Tokens(a);
      assert tokens[1..] == ts;
      assert Join(tokens) == Text(VStats) + ([SPACE] + Join(ts));
      hide Join;
      WordLenWord(Text(VStats), [SPACE] + Join(ts));
      assert Join(tokens)[|Text(VStats)|..] == [SPACE] + a;
      TrimPrinted(ts);
      JoinLast(ts);
    }
  }

  /** Conversely, whatever line parses, the command's fields are within their limits. */
  predicate WithinLimits(cmd: AsciiCmd) {
    match cmd
    case Store(_, k, f, e, b, _) => ValidKey(k) && f <= U32_MAX && e <= U32_MAX && b <= U32_MAX
    case Cas(k, f, e, b, c, _) => ValidKey(k) && f <= U32_MAX && e <= U32_MAX && b <= U32_MAX && c <= U64_MAX
    case AppendPrepend(_, k, b, _) => ValidKey(k) && b <= U32_MAX
    case Retrieval(_, e, keys) => keys != [] && ValidKeys(keys) && (e.Some? ==> e.value <= U32_MAX)
    case Delete(k, _) => ValidKey(k)
    case Counter(_, k, d, _) => ValidKey(k) && d <= U64_MAX
    case Touch(k, e, _) => ValidKey(k) && e <= U32_MAX
    case FlushAll(d, _) => d <= U32_MAX
    case _ => true
  }

  lemma {:induction false} FlushWithin(args: seq<Bytes>)
    ensures ParseFlush(args).CmdOk? ==> ParseFlush(args).cmd.FlushAll? && WithinLimits(ParseFlush(args).cmd)
  {
    if args != [] { FlushWithin(args[..|args| - 1]); }
  }

  lemma ParsedWithinLimits(line: Bytes)
    requires ParseCommandLine(line).CmdOk?
    ensures WithinLimits(ParseCommandLine(line).cmd)
  {
    hide Tokens, IsUtf8, ParseVerb, ParseArgs, WithinLimits;
    var tokens := Tokens(line);
    ArgsWithin(ParseVerb(tokens[0]).value, tokens[1..], tokens, line);
  }

  lemma ArgsWithin(v: Verb, args: seq<Bytes>, tokens: seq<Bytes>, line: Bytes)
    requires ParseArgs(v, args, tokens, line).CmdOk?
    ensures WithinLimits(ParseArgs(v, args, tokens, line).cmd)
  {
    hide Trim, WordLen, AllDigits, DigitsValue, ValidKey, NoReply, ParseFlush;
    FlushWithin(args);
    if v in {VSet, VAdd, VReplace, VCas, VAppend, VPrepend, VDelete, VIncr, VDecr, VTouch} { KeyFirst(args); }
  }

  lemma KeyFirst(args: seq<Bytes>)
    ensures forall n: nat :: NoReply(args, n).Some? ==> |args| >= n
  {
  }
}
