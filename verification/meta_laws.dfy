// Meta commands, said without the defaults and tables that implement them: what each does when
// flags are left out, what its words mean, and when it is silent.

module MetaLaws {
  import opened ByteStrings
  import opened Doubles
  import opened StoreSpec
  import opened FrontEnds
  import opened MetaCommands
  import opened MetaHandlers
  import Counters
  import T = Retrieval

  // Flag letters.
  const FLAG_T: byte := 84
  const FLAG_F: byte := 70
  const FLAG_C: byte := 67
  const FLAG_D: byte := 68
  const FLAG_J: byte := 74
  const FLAG_M: byte := 77
  const FLAG_N: byte := 78
  const FLAG_O: byte := 79
  const LETTER_C: byte := 99
  const LETTER_F: byte := 102
  const LETTER_K: byte := 107
  const LETTER_Q: byte := 113
  const LETTER_S: byte := 115
  const LETTER_T: byte := 116
  const LETTER_V: byte := 118

  const ZERO_TEXT: Bytes := Ascii("0")

  function ItemKey(client: Bytes): Bytes { Ascii("rc:") + client }

  predicate Absent(fs: seq<MetaFlag>, ch: byte) { FlagToken(fs, ch).None? }

  // ------------------------------------------------------------------- `ma` defaults

  /** `ma` without M, D and N adds one to a present counter, and nothing else happens. */
  lemma BareArithmetic(s: State, key: Bytes, fs: seq<MetaFlag>, x: nat)
    requires ValidFlags(MArithmetic(key, fs)) && Absent(fs, FLAG_M) && Absent(fs, FLAG_D) && Absent(fs, FLAG_N)
    requires ItemKey(key) in s.items && s.items[ItemKey(key)].v == Some(Dec(x)) && x + 1 <= TWO53
    ensures var i := s.items[ItemKey(key)].(v := Some(Dec(x + 1)), cas := s.counter + 1);
      RunAll(s, MetaSteps(MArithmetic(key, fs), []))
      == Outcome(s.(items := s.items[ItemKey(key) := i], counter := s.counter + 1), Number(Dec(x + 1), s.counter + 1))
  {
    hide Dec, ToDouble, ToNumber, ParseUint, ValidFlags;
    OneIsOne();
    ModeWords();
    RunOne(s, MetaSteps(MArithmetic(key, fs), [])[0]);
    assert MetaSteps(MArithmetic(key, fs), []) == [MetaSteps(MArithmetic(key, fs), [])[0]];
    Counters.ReadsDecimal(x);
    Counters.SmallArithmetic(x, 1, false);
  }

  lemma OneIsOne()
    ensures Num(Dec(1)) == 1 && Num(Dec(0)) == 0
  {
    ParseDec(1, U64_MAX);
    ParseDec(0, U64_MAX);
  }

  /** Without N it creates nothing: a missing key changes nothing and is a miss. */
  lemma BareArithmeticMiss(s: State, key: Bytes, fs: seq<MetaFlag>)
    requires ValidFlags(MArithmetic(key, fs)) && Absent(fs, FLAG_N) && ItemKey(key) !in s.items
    ensures RunAll(s, MetaSteps(MArithmetic(key, fs), [])) == Outcome(s, Miss)
  {
    hide Dec, ParseUint, ValidFlags, FlagToken;
    var es := MetaSteps(MArithmetic(key, fs), []);
    assert es == [es[0]];
    RunOne(s, es[0]);
  }

  /** With N and without J it creates the counter "0", with flags "0" and the life N says. */
  lemma CreatingArithmetic(s: State, key: Bytes, fs: seq<MetaFlag>, n: nat)
    requires ValidFlags(MArithmetic(key, fs)) && FlagToken(fs, FLAG_N) == Some(Dec(n)) && Absent(fs, FLAG_J)
    requires n < U32_MAX && !Stale(n, s.now) && ItemKey(key) !in s.items
    ensures var d := if n == 0 then None else if n <= 2_592_000 then Some(s.now + n) else Some(n);
      RunAll(s, MetaSteps(MArithmetic(key, fs), []))
      == Outcome(s.(items := s.items[ItemKey(key) := Item(Some(ZERO_TEXT), Some(ZERO_TEXT), s.counter + 1, d)],
                    counter := s.counter + 1), Number(ZERO_TEXT, s.counter + 1))
  {
    ParseDec(n, U64_MAX);
    hide Dec, ParseUint, ValidFlags;
    var es := MetaSteps(MArithmetic(key, fs), []);
    assert es == [es[0]];
    RunOne(s, es[0]);
  }

  // ------------------------------------------------------- `ms` and `md` defaults

  /** `ms` without M, C, F and T is an unconditional set with flags "0" and no deadline. */
  lemma BareSet(s: State, key: Bytes, n: nat, data: Bytes, fs: seq<MetaFlag>)
    requires ValidFlags(MSet(key, n, fs))
    requires Absent(fs, FLAG_M) && Absent(fs, FLAG_C) && Absent(fs, FLAG_F) && Absent(fs, FLAG_T)
    ensures var i := Item(Some(data), Some(ZERO_TEXT), s.counter + 1, None);
      RunAll(s, MetaSteps(MSet(key, n, fs), data))
      == Outcome(s.(items := s.items[ItemKey(key) := i], counter := s.counter + 1), Done(s.counter + 1))
  {
    OneIsOne();
    ModeWords();
    assert Dec(0) == NO_CAS by { DecZero(0); }
    hide Dec, ParseUint, ValidFlags;
    var es := MetaSteps(MSet(key, n, fs), data);
    assert es == [es[0]];
    RunOne(s, es[0]);
  }

  /** `md` without C removes the item, whatever its token. */
  lemma BareDelete(s: State, key: Bytes, fs: seq<MetaFlag>)
    requires ValidFlags(MDelete(key, fs)) && Absent(fs, FLAG_C)
    ensures RunAll(s, MetaSteps(MDelete(key, fs), []))
      == if ItemKey(key) in s.items then Outcome(s.(items := s.items - {ItemKey(key)}), Deleted) else Outcome(s, Miss)
  {
    hide ValidFlags;
    var es := MetaSteps(MDelete(key, fs), []);
    assert es == [es[0]];
    RunOne(s, es[0]);
  }

  /** `mg` without T only reads. */
  lemma BareGet(s: State, key: Bytes, fs: seq<MetaFlag>)
    requires ValidFlags(MGet(key, fs)) && Absent(fs, FLAG_T)
    ensures var o := RunAll(s, MetaSteps(MGet(key, fs), []));
      && o.s == s && (o.r.MetaHit? <==> ItemKey(key) in s.items)
      && (o.r.MetaHit? ==> var i := s.items[ItemKey(key)];
                           o.r.v == Or(i.v, []) && o.r.f == Or(i.f, ZERO_TEXT) && o.r.cas == i.cas)
  {
    hide ValidFlags;
    RunOne(s, EMetaGet(ItemKey(key)));
  }

  // ------------------------------------------------------------------------ words

  /** Every reply carries the opaque token and, if asked for, the key. */
  lemma EchoLaw(fs: seq<MetaFlag>, key: Bytes)
    ensures Echo(fs, key)
      == (if FlagToken(fs, FLAG_O).Some? then [[FLAG_O] + FlagToken(fs, FLAG_O).value] else [])
         + (if HasFlag(fs, LETTER_K) then [[LETTER_K] + key] else [])
  {
    hide FlagToken, HasFlag;
  }

  predicate EndsWith(ws: seq<Bytes>, end: seq<Bytes>) { |end| <= |ws| && ws[|ws| - |end|..] == end }

  lemma EveryReplyEchoes(fs: seq<MetaFlag>, key: Bytes, r: Reply)
    ensures GetMsg(key, fs, r).Some? ==> EndsWith(GetMsg(key, fs, r).value.words, Echo(fs, key))
    ensures EndsWith(SetMsg(key, fs, r).words, Echo(fs, key))
    ensures EndsWith(DeleteMsg(key, fs, r).words, Echo(fs, key))
    ensures ArithMsg(key, fs, r).Some? ==> EndsWith(ArithMsg(key, fs, r).value.words, Echo(fs, key))
  {
    hide FlagToken, HasFlag, Echo, LuaText, Dec;
  }

  /** The words of a hit: token, flags, size and remaining life, each exactly when asked for. */
  lemma HitWords(fs: seq<MetaFlag>, key: Bytes, v: Bytes, f: Bytes, cas: nat, ttl: Option<nat>)
    ensures GetMsg(key, fs, MetaHit(v, f, cas, ttl)).Some?
    ensures GetMsg(key, fs, MetaHit(v, f, cas, ttl)).value.words
      == (if HasFlag(fs, LETTER_C) then [[LETTER_C] + LuaText(cas)] else [])
         + (if HasFlag(fs, LETTER_F) then [[LETTER_F] + f] else [])
         + (if HasFlag(fs, LETTER_S) then [[LETTER_S] + Dec(|v|)] else [])
         + (if HasFlag(fs, LETTER_T) then [[LETTER_T] + if ttl.Some? then Dec(ttl.value) else Ascii("-1")] else [])
         + Echo(fs, key)
    ensures GetMsg(key, fs, MetaHit(v, f, cas, ttl)).value.block == if HasFlag(fs, LETTER_V) then Some(v) else None
  {
    hide FlagToken, HasFlag, Echo, LuaText, Dec;
  }

  // ------------------------------------------------------------------------ codes

  const HD_LINE: Bytes := Ascii("HD\r\n")
  const NF_LINE: Bytes := Ascii("NF\r\n")
  const NS_LINE: Bytes := Ascii("NS\r\n")
  const EX_LINE: Bytes := Ascii("EX\r\n")
  const EN_LINE: Bytes := Ascii("EN\r\n")
  const MN_LINE: Bytes := Ascii("MN\r\n")

  lemma CodeLines()
    ensures Render(Msg(HD, [], None)) == HD_LINE && Render(Msg(NF, [], None)) == NF_LINE
    ensures Render(Msg(NS, [], None)) == NS_LINE && Render(Msg(EX, [], None)) == EX_LINE
    ensures Render(Msg(EN, [], None)) == EN_LINE && Render(Msg(MN, [], None)) == MN_LINE
  {
    PlainLine(HD, []);
    PlainLine(NF, []);
    PlainLine(NS, []);
    PlainLine(EX, []);
    PlainLine(EN, []);
    PlainLine(MN, []);
    hide Line, Head;
  }

  /** Without O and k, the loud status replies byte for byte. */
  lemma StatusLines(key: Bytes, n: nat, fs: seq<MetaFlag>, r: Reply)
    requires Absent(fs, FLAG_O) && !HasFlag(fs, LETTER_K) && !HasFlag(fs, LETTER_Q)
    ensures MetaOutput(MDelete(key, fs), r)
      == if r.Deleted? then HD_LINE else if r.Miss? then NF_LINE else EX_LINE
    ensures r.Miss? ==> MetaOutput(MGet(key, fs), r) == EN_LINE
    ensures r.Miss? ==> MetaOutput(MArithmetic(key, fs), r) == NF_LINE && MetaOutput(MSet(key, n, fs), r) == NF_LINE
    ensures r.NotStored? ==> MetaOutput(MSet(key, n, fs), r) == NS_LINE
    ensures MetaOutput(MNoop(fs), r) == MN_LINE && MetaOutput(MDebug(key, fs), r) == EN_LINE
  {
    hide Render, FlagToken, HasFlag;
    CodeLines();
    assert Echo(fs, key) == [];
  }

  const VA_START: Bytes := Ascii("VA ")

  /** `ma` with v answers the number as a block. */
  lemma NumberLines(key: Bytes, fs: seq<MetaFlag>, text: Bytes, cas: nat)
    requires Absent(fs, FLAG_O) && !HasFlag(fs, LETTER_K) && !HasFlag(fs, LETTER_Q) && !HasFlag(fs, LETTER_C)
    requires HasFlag(fs, LETTER_V)
    ensures MetaOutput(MArithmetic(key, fs), Number(text, cas)) == VA_START + Dec(|text|) + CRLF + (text + CRLF)
  {
    hide ArithMsg, Render, Dec, HasFlag, FlagToken, Ascii, MetaOutput;
    NumberMsg(key, fs, text, cas);
    BlockText(text);
    NumberOutput(key, fs, Number(text, cas));
  }

  lemma NumberOutput(key: Bytes, fs: seq<MetaFlag>, r: Reply)
    requires !HasFlag(fs, LETTER_Q) && ArithMsg(key, fs, r).Some?
    ensures MetaOutput(MArithmetic(key, fs), r) == Render(ArithMsg(key, fs, r).value)
  {
    hide ArithMsg, Render, HasFlag, Ascii;
  }

  lemma NumberMsg(key: Bytes, fs: seq<MetaFlag>, text: Bytes, cas: nat)
    requires Absent(fs, FLAG_O) && !HasFlag(fs, LETTER_K) && !HasFlag(fs, LETTER_C) && HasFlag(fs, LETTER_V)
    ensures ArithMsg(key, fs, Number(text, cas)) == Some(Msg(VA, [], Some(text)))
  {
    hide FlagToken, HasFlag, LuaText, Ascii;
    assert Echo(fs, key) == [];
  }

  lemma BlockText(text: Bytes)
    ensures Render(Msg(VA, [], Some(text))) == VA_START + Dec(|text|) + CRLF + (text + CRLF)
  {
    hide Line, Head, Dec, Ascii;
    FirstLine(text);
  }

  lemma FirstLine(text: Bytes)
    ensures Line(Head(Msg(VA, [], Some(text)))) == VA_START + Dec(|text|)
  {
    hide Line, Head, Dec, Ascii, Spaced;
    BlockLine(VA, [], text);
    NoWords();
    Start(Dec(|text|));
  }

  lemma NoWords()
    ensures Spaced([]) == []
  {
  }

  lemma Start(d: Bytes)
    ensures VA + [SPACE] + d + [] == VA_START + d
  {
    assert VA_START == VA + [SPACE];
  }

  // ---------------------------------------------------------------------- silence

  /** With q, `ms`, `md`, `ma` and `me` send nothing, and `mg` nothing for a miss. */
  lemma QuietIsSilent(key: Bytes, n: nat, fs: seq<MetaFlag>, r: Reply)
    requires HasFlag(fs, LETTER_Q)
    ensures MetaOutput(MSet(key, n, fs), r) == [] && MetaOutput(MDelete(key, fs), r) == []
    ensures MetaOutput(MArithmetic(key, fs), r) == [] && MetaOutput(MDebug(key, fs), r) == []
    ensures r.Miss? ==> MetaOutput(MGet(key, fs), r) == []
  {
  }

  // ----------------------------------------------------------------------- tokens

  /**
   * A successful conditional `ms` says its new token, and presenting that token next succeeds,
   * as long as the item is there at all.
   */
  lemma SetTokenWorks(s: State, key: Bytes, n: nat, data: Bytes, fs: seq<MetaFlag>, w: Bytes, f: Bytes, exp: nat)
    requires ValidFlags(MSet(key, n, fs)) && FlagToken(fs, FLAG_C).Some? && FlagToken(fs, FLAG_C).value != ZERO_TEXT
    requires RunAll(s, MetaSteps(MSet(key, n, fs), data)).r.Done?
    ensures var o := RunAll(s, MetaSteps(MSet(key, n, fs), data));
      var words := SetMsg(key, fs, o.r).words;
      && words != [] && words[0] != [] && words[0][0] == LETTER_C
      && (ItemKey(key) in o.s.items ==> Store(o.s, StoreOp.Set, ItemKey(key), w, f, words[0][1..], exp).r.Done?)
  {
    hide ValidFlags, LuaText, Dec, ParseUint, Deadline;
    var es := MetaSteps(MSet(key, n, fs), data);
    assert es == [es[0]];
    RunOne(s, es[0]);
    hide RunAll;
    var o := Step(s, es[0]);
    assert SetMsg(key, fs, o.r).words[0][1..] == LuaText(o.r.cas);
  }

  // ------------------------------------------------------------------- error texts

  /** The texts of refused flags; an ASCII flag character stands for itself. */
  lemma ErrorTexts(ch: byte, tok: Bytes, supported: Bytes, numeric: Bytes)
    requires ch < 0x80
    ensures ch !in supported && ch !in Ascii("PL") ==>
      UnsupportedError([MetaFlag(ch, None)], supported, 0) == Some(Ascii("unsupported meta flag '") + [ch] + Ascii("'"))
    ensures ch in numeric ==>
      NumericError([MetaFlag(ch, None)], numeric, 0)
      == Some(Ascii("flag '") + [ch] + Ascii("' requires a numeric token"))
    ensures ch in numeric && ParseUint(tok, U64_MAX).None? ==>
      NumericError([MetaFlag(ch, Some(tok))], numeric, 0)
      == Some(Ascii("bad numeric value '") + tok + Ascii("' for flag '") + [ch] + Ascii("'"))
  {
    hide ParseUint, Ascii;
  }

  lemma ModeErrorTexts(m: Bytes, fs: seq<MetaFlag>)
    ensures BareModeError([MetaFlag(FLAG_M, None)], 0) == Some(Ascii("flag 'M' requires a mode token"))
    ensures FlagToken(fs, FLAG_M) == Some(m) && m !in {Ascii("I"), Ascii("D")} ==>
      ArithmeticModeError(fs) == Some(Ascii("unsupported ma mode '") + m + Ascii("'"))
    ensures FlagToken(fs, FLAG_M) == Some(m) && m !in {Ascii("S"), Ascii("E"), Ascii("R"), Ascii("A"), Ascii("P")} ==>
      SetModeError(fs) == Some(Ascii("unsupported ms mode '") + m + Ascii("'"))
    ensures FlagToken(fs, FLAG_M) == Some(m) && m in {Ascii("A"), Ascii("P")}
            && (HasFlag(fs, FLAG_F) || HasFlag(fs, FLAG_T)) ==>
      SetModeError(fs) == Some(Ascii("flags F/T not supported with ms mode '") + m + Ascii("'"))
  {
    hide Ascii, HasFlag, FlagToken;
  }
}
