// The meta commands: flags, their validation, parsing and printing.

module MetaCommands {
  import opened ByteStrings
  import opened TextTokens

  datatype MetaFlag = MetaFlag(ch: byte, token: Option<Bytes>)

  datatype MetaCmd =
    | MGet(key: Bytes, flags: seq<MetaFlag>)
    | MSet(key: Bytes, datalen: nat, flags: seq<MetaFlag>)
    | MDelete(key: Bytes, flags: seq<MetaFlag>)
    | MArithmetic(key: Bytes, flags: seq<MetaFlag>)
    | MNoop(flags: seq<MetaFlag>)
    | MDebug(key: Bytes, flags: seq<MetaFlag>)

  datatype MetaResult = MetaOk(cmd: MetaCmd) | NeedData(cmd: MetaCmd, len: nat) | MetaError

  // --------------------------------------------------------------------- flags

  /** `parse_meta_flags`: a character, and the rest of the word as its token. */
  function ParseFlags(tokens: seq<Bytes>): Option<seq<MetaFlag>> {
    if tokens == [] then Some([])
    else
      var n := |tokens| - 1;
      var t, fs := tokens[n], ParseFlags(tokens[..n]);
      if fs.None? then None
      else if t == [] then fs
      else if |t| > 1 && !IsUtf8(t[1..]) then None
      else Some(fs.value + [MetaFlag(t[0], if |t| > 1 then Some(t[1..]) else None)])
  }

  method ParseMetaFlags(tokens: seq<Bytes>) returns (r: Option<seq<MetaFlag>>)
    ensures r == ParseFlags(tokens)
  {
    var flags: seq<MetaFlag> := [];
    for i := 0 to |tokens|
      invariant ParseFlags(tokens[..i]) == Some(flags)
    {
      assert tokens[..i + 1][..i] == tokens[..i];
      var tok := tokens[i];
      if tok != [] {
        if |tok| > 1 && !IsUtf8(tok[1..]) {
          FlagError(tokens, i + 1);
          return None;
        }
        flags := flags + [MetaFlag(tok[0], if |tok| > 1 then Some(tok[1..]) else None)];
      }
    }
    assert tokens[..|tokens|] == tokens;
    return Some(flags);
  }

  lemma {:induction false} FlagError(tokens: seq<Bytes>, i: nat)
    requires i <= |tokens| && ParseFlags(tokens[..i]).None?
    ensures ParseFlags(tokens).None?
    decreases |tokens| - i
  {
    if i == |tokens| {
      assert tokens[..i] == tokens;
    } else {
      assert tokens[..i + 1][..i] == tokens[..i];
      FlagError(tokens, i + 1);
    }
  }

  predicate HasFlag(flags: seq<MetaFlag>, ch: byte) {
    exists i :: 0 <= i < |flags| && flags[i].ch == ch
  }

  /** The token of the first flag ch. */
  function FlagToken(flags: seq<MetaFlag>, ch: byte): Option<Bytes> {
    if flags == [] then None
    else if flags[0].ch == ch then flags[0].token
    else FlagToken(flags[1..], ch)
  }

  // ---------------------------------------------------------------- validation

  const IGNORED: Bytes := Ascii("PL")

  predicate Supported(flags: seq<MetaFlag>, supported: Bytes) {
    forall i :: 0 <= i < |flags| ==> flags[i].ch in supported || flags[i].ch in IGNORED
  }

  /** Numeric flags need a token that parses as u64. */
  predicate NumericTokens(flags: seq<MetaFlag>, numeric: Bytes) {
    forall i :: 0 <= i < |flags| && flags[i].ch in numeric ==>
      flags[i].token.Some? && ParseUint(flags[i].token.value, U64_MAX).Some?
  }

  /** `M` needs a token. */
  predicate ModesPresent(flags: seq<MetaFlag>) {
    forall i :: 0 <= i < |flags| && flags[i].ch == 'M' as int as byte ==> flags[i].token.Some?
  }

  const CH_M: byte := 'M' as int as byte
  const CH_F: byte := 'F' as int as byte
  const CH_T: byte := 'T' as int as byte

  predicate ValidGetFlags(fs: seq<MetaFlag>) {
    Supported(fs, Ascii("vcfksOqtT")) && NumericTokens(fs, Ascii("T"))
  }

  predicate ValidSetFlags(fs: seq<MetaFlag>) {
    && Supported(fs, Ascii("FTCqOkM")) && ModesPresent(fs)
    && (var m := FlagToken(fs, CH_M);
        m.Some? ==>
          && m.value in {Ascii("S"), Ascii("E"), Ascii("A"), Ascii("P"), Ascii("R")}
          && (m.value in {Ascii("A"), Ascii("P")} ==> !HasFlag(fs, CH_F) && !HasFlag(fs, CH_T)))
    && NumericTokens(fs, Ascii("FTC"))
  }

  predicate ValidDeleteFlags(fs: seq<MetaFlag>) {
    Supported(fs, Ascii("CqOk")) && NumericTokens(fs, Ascii("C"))
  }

  predicate ValidArithmeticFlags(fs: seq<MetaFlag>) {
    && Supported(fs, Ascii("DJNqOkvcM")) && ModesPresent(fs)
    && (var m := FlagToken(fs, CH_M); m.Some? ==> m.value in {Ascii("I"), Ascii("D")})
    && NumericTokens(fs, Ascii("DJN"))
  }

  predicate ValidFlags(cmd: MetaCmd) {
    match cmd
    case MGet(_, fs) => ValidGetFlags(fs)
    case MSet(_, _, fs) => ValidSetFlags(fs)
    case MDelete(_, fs) => ValidDeleteFlags(fs)
    case MArithmetic(_, fs) => ValidArithmeticFlags(fs)
    case MNoop(fs) => Supported(fs, Ascii("O"))
    case MDebug(_, fs) => Supported(fs, Ascii("Okq"))
  }

  // The same checks with the text of the first failure, in the order they are made.

  /** A flag character as text: bytes from 128 on become two-byte characters. */
  function CharText(ch: byte): Bytes {
    if ch < 0x80 then [ch] else [0xC0 + ch / 64, 0x80 + ch % 64]
  }

  const QUOTE: Bytes := Ascii("'")

  function UnsupportedError(fs: seq<MetaFlag>, supported: Bytes, i: nat): Option<Bytes>
    requires i <= |fs|
    decreases |fs| - i
  {
    if i == |fs| then None
    else if fs[i].ch in supported || fs[i].ch in IGNORED then UnsupportedError(fs, supported, i + 1)
    else Some(Ascii("unsupported meta flag '") + CharText(fs[i].ch) + QUOTE)
  }

  function NumericError(fs: seq<MetaFlag>, numeric: Bytes, i: nat): Option<Bytes>
    requires i <= |fs|
    decreases |fs| - i
  {
    if i == |fs| then None
    else if fs[i].ch !in numeric then NumericError(fs, numeric, i + 1)
    else
      match fs[i].token
      case None => Some(Ascii("flag '") + CharText(fs[i].ch) + Ascii("' requires a numeric token"))
      case Some(tok) =>
        if ParseUint(tok, U64_MAX).Some? then NumericError(fs, numeric, i + 1)
        else Some(Ascii("bad numeric value '") + tok + Ascii("' for flag '") + CharText(fs[i].ch) + QUOTE)
  }

  function BareModeError(fs: seq<MetaFlag>, i: nat): Option<Bytes>
    requires i <= |fs|
    decreases |fs| - i
  {
    if i == |fs| then None
    else if fs[i].ch == CH_M && fs[i].token.None? then Some(Ascii("flag 'M' requires a mode token"))
    else BareModeError(fs, i + 1)
  }

  function SetModeError(fs: seq<MetaFlag>): Option<Bytes> {
    match FlagToken(fs, CH_M)
    case None => None
    case Some(m) =>
      if m !in {Ascii("S"), Ascii("E"), Ascii("A"), Ascii("P"), Ascii("R")} then
        Some(Ascii("unsupported ms mode '") + m + QUOTE)
      else if m in {Ascii("A"), Ascii("P")} && (HasFlag(fs, CH_F) || HasFlag(fs, CH_T)) then
        Some(Ascii("flags F/T not supported with ms mode '") + m + QUOTE)
      else None
  }

  function ArithmeticModeError(fs: seq<MetaFlag>): Option<Bytes> {
    match FlagToken(fs, CH_M)
    case None => None
    case Some(m) =>
      if m in {Ascii("I"), Ascii("D")} then None else Some(Ascii("unsupported ma mode '") + m + QUOTE)
  }

  function FirstError(a: Option<Bytes>, b: Option<Bytes>): Option<Bytes> { if a.Some? then a else b }

  /** `validate_*_flags`: the text of the first check that fails. */
  function FlagsError(cmd: MetaCmd): Option<Bytes> {
    match cmd
    case MGet(_, fs) => FirstError(UnsupportedError(fs, Ascii("vcfksOqtT"), 0), NumericError(fs, Ascii("T"), 0))
    case MSet(_, _, fs) =>
      FirstError(UnsupportedError(fs, Ascii("FTCqOkM"), 0),
                 FirstError(BareModeError(fs, 0), FirstError(SetModeError(fs), NumericError(fs, Ascii("FTC"), 0))))
    case MDelete(_, fs) => FirstError(UnsupportedError(fs, Ascii("CqOk"), 0), NumericError(fs, Ascii("C"), 0))
    case MArithmetic(_, fs) =>
      FirstError(UnsupportedError(fs, Ascii("DJNqOkvcM"), 0),
                 FirstError(BareModeError(fs, 0),
                            FirstError(ArithmeticModeError(fs), NumericError(fs, Ascii("DJN"), 0))))
    case MNoop(fs) => UnsupportedError(fs, Ascii("O"), 0)
    case MDebug(_, fs) => UnsupportedError(fs, Ascii("Okq"), 0)
  }

  lemma {:induction false} UnsupportedExactly(fs: seq<MetaFlag>, supported: Bytes, i: nat)
    requires i <= |fs|
    ensures UnsupportedError(fs, supported, i).None?
      <==> forall m :: i <= m < |fs| ==> fs[m].ch in supported || fs[m].ch in IGNORED
    decreases |fs| - i
  {
    if i < |fs| { UnsupportedExactly(fs, supported, i + 1); }
  }

  lemma {:induction false} NumericExactly(fs: seq<MetaFlag>, numeric: Bytes, i: nat)
    requires i <= |fs|
    ensures NumericError(fs, numeric, i).None?
      <==> forall m :: i <= m < |fs| && fs[m].ch in numeric ==>
             fs[m].token.Some? && ParseUint(fs[m].token.value, U64_MAX).Some?
    decreases |fs| - i
  {
    hide ParseUint;
    if i < |fs| { NumericExactly(fs, numeric, i + 1); }
  }

  lemma {:induction false} BareModeExactly(fs: seq<MetaFlag>, i: nat)
    requires i <= |fs|
    ensures BareModeError(fs, i).None? <==> forall m :: i <= m < |fs| && fs[m].ch == CH_M ==> fs[m].token.Some?
    decreases |fs| - i
  {
    if i < |fs| { BareModeExactly(fs, i + 1); }
  }

  /** There is no error text exactly when all the checks of the command hold. */
  lemma FlagsErrorExactly(cmd: MetaCmd)
    ensures FlagsError(cmd).None? <==> ValidFlags(cmd)
  {
    hide UnsupportedError, NumericError, BareModeError, ParseUint, FlagToken, HasFlag, Ascii;
    forall supported: Bytes
      ensures UnsupportedError(cmd.flags, supported, 0).None? <==> Supported(cmd.flags, supported)
    {
      UnsupportedExactly(cmd.flags, supported, 0);
    }
    forall numeric: Bytes ensures NumericError(cmd.flags, numeric, 0).None? <==> NumericTokens(cmd.flags, numeric) {
      NumericExactly(cmd.flags, numeric, 0);
    }
    BareModeExactly(cmd.flags, 0);
  }

  method CheckSupported(fs: seq<MetaFlag>, supported: Bytes) returns (e: Option<Bytes>)
    ensures e == UnsupportedError(fs, supported, 0)
  {
    for i := 0 to |fs|
      invariant UnsupportedError(fs, supported, 0) == UnsupportedError(fs, supported, i)
    {
      if !(fs[i].ch in supported || fs[i].ch in IGNORED) {
        return Some(Ascii("unsupported meta flag '") + CharText(fs[i].ch) + QUOTE);
      }
    }
    return None;
  }

  method ValidateNumericTokens(fs: seq<MetaFlag>, numeric: Bytes) returns (e: Option<Bytes>)
    ensures e == NumericError(fs, numeric, 0)
  {
    for i := 0 to |fs|
      invariant NumericError(fs, numeric, 0) == NumericError(fs, numeric, i)
    {
      if fs[i].ch in numeric {
        match fs[i].token
        case None => return Some(Ascii("flag '") + CharText(fs[i].ch) + Ascii("' requires a numeric token"));
        case Some(tok) =>
          if ParseUint(tok, U64_MAX).None? {
            return Some(Ascii("bad numeric value '") + tok + Ascii("' for flag '") + CharText(fs[i].ch) + QUOTE);
          }
      }
    }
    return None;
  }

  method ValidateModeTokenPresent(fs: seq<MetaFlag>) returns (e: Option<Bytes>)
    ensures e == BareModeError(fs, 0)
  {
    for i := 0 to |fs|
      invariant BareModeError(fs, 0) == BareModeError(fs, i)
    {
      if fs[i].ch == CH_M && fs[i].token.None? { return Some(Ascii("flag 'M' requires a mode token")); }
    }
    return None;
  }

  /** `validate_mg_flags` and its five siblings; None means the flags are valid. */
  method ValidateFlags(cmd: MetaCmd) returns (e: Option<Bytes>)
    ensures e == FlagsError(cmd)
    ensures e.None? <==> ValidFlags(cmd)
  {
    FlagsErrorExactly(cmd);
    hide UnsupportedError, NumericError, BareModeError, FlagToken, HasFlag, Ascii, ValidFlags;
    match cmd
    case MGet(_, fs) =>
      e := CheckSupported(fs, Ascii("vcfksOqtT"));
      if e.None? { e := ValidateNumericTokens(fs, Ascii("T")); }
    case MSet(_, _, fs) =>
      e := CheckSupported(fs, Ascii("FTCqOkM"));
      if e.None? { e := ValidateModeTokenPresent(fs); }
      if e.None? { e := SetModeError(fs); }
      if e.None? { e := ValidateNumericTokens(fs, Ascii("FTC")); }
    case MDelete(_, fs) =>
      e := CheckSupported(fs, Ascii("CqOk"));
      if e.None? { e := ValidateNumericTokens(fs, Ascii("C")); }
    case MArithmetic(_, fs) =>
      e := CheckSupported(fs, Ascii("DJNqOkvcM"));
      if e.None? { e := ValidateModeTokenPresent(fs); }
      if e.None? { e := ArithmeticModeError(fs); }
      if e.None? { e := ValidateNumericTokens(fs, Ascii("DJN")); }
    case MNoop(fs) => e := CheckSupported(fs, Ascii("O"));
    case MDebug(_, fs) => e := CheckSupported(fs, Ascii("Okq"));
  }

  // ------------------------------------------------------------------- parsing

  function ParseMeta(line: Bytes): MetaResult {
    if !IsUtf8(line) then MetaError
    else
      var tokens := Tokens(line);
      if tokens == [] then MetaError
      else ParseMetaTokens(tokens)
  }

  function ParseMetaTokens(tokens: seq<Bytes>): MetaResult
    requires tokens != []
  {
    if tokens[0] == Ascii("mn") then
      var fs := ParseFlags(tokens[1..]);
      if fs.None? then MetaError else MetaOk(MNoop(fs.value))
    else if tokens[0] == Ascii("ms") then ParseMetaSet(tokens)
    else if !(tokens[0] == Ascii("mg") || tokens[0] == Ascii("me") || tokens[0] == Ascii("md")
              || tokens[0] == Ascii("ma")) then MetaError
    else if |tokens| < 2 || !ValidKey(tokens[1]) then MetaError
    else
      var fs := ParseFlags(tokens[2..]);
      if fs.None? then MetaError
      else if tokens[0] == Ascii("mg") then MetaOk(MGet(tokens[1], fs.value))
      else if tokens[0] == Ascii("me") then MetaOk(MDebug(tokens[1], fs.value))
      else if tokens[0] == Ascii("md") then MetaOk(MDelete(tokens[1], fs.value))
      else MetaOk(MArithmetic(tokens[1], fs.value))
  }

  function ParseMetaSet(tokens: seq<Bytes>): MetaResult {
    if |tokens| < 3 || !ValidKey(tokens[1]) then MetaError
    else
      var n, fs := ParseUint(tokens[2], U32_MAX), ParseFlags(tokens[3..]);
      if n.None? || fs.None? then MetaError
      else NeedData(MSet(tokens[1], n.value, fs.value), n.value)
  }

  /** `is_meta_command`: one of six two-letter prefixes, then a blank or the end of the line. */
  predicate IsMetaCommand(line: Bytes) {
    && |line| >= 2
    && line[..2] in {Ascii("mg"), Ascii("ms"), Ascii("md"), Ascii("ma"), Ascii("mn"), Ascii("me")}
    && (|line| == 2 || line[2] == SPACE || line[2] == 0x09)
  }

  // ------------------------------------------------------------------ printing

  function FlagText(f: MetaFlag): Bytes { [f.ch] + if f.token.Some? then f.token.value else [] }

  function FlagTexts(fs: seq<MetaFlag>): (ts: seq<Bytes>)
    ensures |ts| == |fs| && forall i :: 0 <= i < |fs| ==> ts[i] == FlagText(fs[i])
  {
    seq(|fs|, i requires 0 <= i < |fs| => FlagText(fs[i]))
  }

  /** Printable flag characters; tokens, when present, are words. */
  predicate SayableFlags(fs: seq<MetaFlag>) {
    forall i :: 0 <= i < |fs| ==>
      0x21 <= fs[i].ch <= 0x7E && (fs[i].token.Some? ==> IsWord(fs[i].token.value))
  }

  predicate SayableMeta(cmd: MetaCmd) {
    && SayableFlags(cmd.flags)
    && (!cmd.MNoop? ==> IsWord(cmd.key) && |cmd.key| <= 250)
    && (cmd.MSet? ==> cmd.datalen <= U32_MAX)
  }

  function MetaTokens(cmd: MetaCmd): seq<Bytes> {
    match cmd
    case MGet(k, fs) => [Ascii("mg"), k] + FlagTexts(fs)
    case MSet(k, n, fs) => [Ascii("ms"), k, Dec(n)] + FlagTexts(fs)
    case MDelete(k, fs) => [Ascii("md"), k] + FlagTexts(fs)
    case MArithmetic(k, fs) => [Ascii("ma"), k] + FlagTexts(fs)
    case MNoop(fs) => [Ascii("mn")] + FlagTexts(fs)
    case MDebug(k, fs) => [Ascii("me"), k] + FlagTexts(fs)
  }

  function PrintMeta(cmd: MetaCmd): Bytes { Join(MetaTokens(cmd)) }

  /** What parsing a printed command must give: `ms` announces its data block. */
  function Announced(cmd: MetaCmd): MetaResult {
    if cmd.MSet? then NeedData(cmd, cmd.datalen) else MetaOk(cmd)
  }

  lemma {:induction false} FlagsRoundTrip(fs: seq<MetaFlag>)
    requires SayableFlags(fs)
    ensures AllWords(FlagTexts(fs)) && ParseFlags(FlagTexts(fs)) == Some(fs)
  {
    hide IsUtf8, FlagText, IsWord;
    if fs != [] {
      var n := |fs| - 1;
      FlagsRoundTrip(fs[..n]);
      var ts := FlagTexts(fs);
      assert ts[..n] == FlagTexts(fs[..n]);
      assert ts == ts[..n] + [FlagText(fs[n])];
      OneFlag(fs[n]);
      assert fs == fs[..n] + [fs[n]];
    }
  }

  lemma OneFlag(f: MetaFlag)
    requires 0x21 <= f.ch <= 0x7E && (f.token.Some? ==> IsWord(f.token.value))
    ensures var t := FlagText(f);
      && t != [] && IsWord(t) && (|t| > 1 ==> IsUtf8(t[1..]))
      && MetaFlag(t[0], if |t| > 1 then Some(t[1..]) else None) == f
  {
    hide IsUtf8;
    var t := FlagText(f);
    if f.token.Some? {
      assert t[1..] == f.token.value;
      AsciiIsUtf8(t[1..]);
    }
  }

  lemma MetaWords()
    ensures Ascii("mg") != Ascii("ms") && Ascii("mg") != Ascii("md") && Ascii("mg") != Ascii("ma")
    ensures Ascii("mg") != Ascii("mn") && Ascii("mg") != Ascii("me") && Ascii("ms") != Ascii("md")
    ensures Ascii("ms") != Ascii("ma") && Ascii("ms") != Ascii("mn") && Ascii("ms") != Ascii("me")
    ensures Ascii("md") != Ascii("ma") && Ascii("md") != Ascii("mn") && Ascii("md") != Ascii("me")
    ensures Ascii("ma") != Ascii("mn") && Ascii("ma") != Ascii("me") && Ascii("mn") != Ascii("me")
  {
    assert Ascii("mg")[1] as int == 'g' as int && Ascii("ms")[1] as int == 's' as int;
    assert Ascii("md")[1] as int == 'd' as int && Ascii("ma")[1] as int == 'a' as int;
    assert Ascii("mn")[1] as int == 'n' as int && Ascii("me")[1] as int == 'e' as int;
  }

  /** Printing any meta command and parsing the line gives the command back. */
  lemma MetaPrintParse(cmd: MetaCmd)
    requires SayableMeta(cmd)
    ensures ParseMeta(PrintMeta(cmd)) == Announced(cmd)
    ensures IsMetaCommand(PrintMeta(cmd))
  {
    hide IsUtf8, Tokens, ParseMetaTokens, IsMetaCommand;
    var ts := MetaTokens(cmd);
    MetaTokensAreWords(cmd);
    PrintedLine(ts);
    MetaTokensParse(cmd);
    MetaRouted(cmd);
  }

  lemma MetaTokensAreWords(cmd: MetaCmd)
    requires SayableMeta(cmd)
    ensures AllWords(MetaTokens(cmd))
  {
    hide IsWord;
    FlagsRoundTrip(cmd.flags);
    AsciiWord("mg"); AsciiWord("ms"); AsciiWord("md"); AsciiWord("ma"); AsciiWord("mn"); AsciiWord("me");
    if cmd.MSet? { DecIsWord(cmd.datalen); }
  }

  lemma MetaTokensParse(cmd: MetaCmd)
    requires SayableMeta(cmd)
    ensures ParseMetaTokens(MetaTokens(cmd)) == Announced(cmd)
  {
    hide ParseFlags, ParseUint, Dec;
    MetaWords();
    FlagsRoundTrip(cmd.flags);
    var ts := MetaTokens(cmd);
    match cmd {
      case MSet(k, n, fs) =>
        assert ts[3..] == FlagTexts(fs);
        ParseDec(n, U32_MAX);
      case MNoop(fs) =>
        assert ts[1..] == FlagTexts(fs);
      case _ =>
        assert ts[2..] == FlagTexts(cmd.flags);
    }
  }

  lemma MetaRouted(cmd: MetaCmd)
    requires SayableMeta(cmd)
    ensures IsMetaCommand(PrintMeta(cmd))
  {
    var ts := MetaTokens(cmd);
    var line := PrintMeta(cmd);
    if |ts| == 1 {
      assert line == ts[0] && line[..2] == line;
    } else {
      assert line == ts[0] + [SPACE] + Join(ts[1..]);
      assert line[..2] == ts[0] && line[2] == SPACE;
    }
  }
}
