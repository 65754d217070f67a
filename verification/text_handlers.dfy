// The text command handlers over the Redis keyspace: the scripts each runs, the line it
// answers with, and what a client can read off that line.

module TextHandlers {
  import opened ByteStrings
  import opened StoreSpec
  import opened RedisScripts
  import opened FrontEnds
  import A = AsciiCommands
  import T = Retrieval
  import B = BinaryDispatch

  const CRLF: Bytes := T.CRLF

  // ------------------------------------------------------------ classic answers

  const STORED: Bytes := Ascii("STORED")
  const NOT_STORED: Bytes := Ascii("NOT_STORED")
  const EXISTS: Bytes := Ascii("EXISTS")
  const NOT_FOUND: Bytes := Ascii("NOT_FOUND")
  const DELETED: Bytes := Ascii("DELETED")
  const TOUCHED: Bytes := Ascii("TOUCHED")
  const OK: Bytes := Ascii("OK")
  const VERSION_LINE: Bytes := Ascii("VERSION RedCouch 0.1.0")
  const NOT_NUMERIC: Bytes := Ascii("CLIENT_ERROR cannot increment or") + Ascii(" decrement non-numeric value")

  function StoreLine(cas: nat, r: Reply): Bytes {
    match r
    case Done(_) => STORED
    case Miss => if cas != 0 then NOT_FOUND else NOT_STORED
    case _ => if cas != 0 then EXISTS else NOT_STORED
  }

  /** The line that answers a classic command other than get, stats and quit. */
  function ClassicLine(cmd: A.AsciiCmd, r: Reply): Bytes {
    match cmd
    case Store(_, _, _, _, _, _) => StoreLine(0, r)
    case Cas(_, _, _, _, c, _) => StoreLine(c, r)
    case AppendPrepend(_, _, _, _) => if r.Done? then STORED else NOT_STORED
    case Delete(_, _) => if r.Deleted? then DELETED else NOT_FOUND
    case Counter(_, _, _, _) =>
      if r.Number? then r.text else if r.Miss? then NOT_FOUND else NOT_NUMERIC
    case Touch(_, _, _) => if r.Done? then TOUCHED else NOT_FOUND
    case Version => VERSION_LINE
    case _ => OK
  }

  predicate NoReplyOf(cmd: A.AsciiCmd) {
    match cmd
    case Store(_, _, _, _, _, nr) => nr
    case Cas(_, _, _, _, _, nr) => nr
    case AppendPrepend(_, _, _, nr) => nr
    case Delete(_, nr) => nr
    case Counter(_, _, _, nr) => nr
    case Touch(_, _, nr) => nr
    case FlushAll(_, nr) => nr
    case Verbosity(nr) => nr
    case _ => false
  }

  function Say(quiet: bool, line: Bytes): Bytes { if quiet then [] else line + CRLF }

  type Stats = seq<(Bytes, Bytes)>

  const STAT: Bytes := Ascii("STAT ")

  function StatLines(stats: Stats): Bytes {
    if stats == [] then []
    else
      var n := |stats| - 1;
      StatLines(stats[..n]) + (STAT + stats[n].0 + [SPACE] + stats[n].1 + CRLF)
  }

  /** Without a group, or with an empty one, all statistics; other groups are empty. */
  function StatsOutput(args: Option<Bytes>, stats: Stats): Bytes {
    (if args.None? || args.value == [] then StatLines(stats) else []) + T.END
  }

  /** What `dispatch_cmd` appends to the output; `stats` are the general statistics. */
  function ClassicOutput(s: State, cmd: A.AsciiCmd, data: Bytes, stats: Stats): Bytes {
    match cmd
    case Retrieval(withCas, e, keys) => T.Reply(T.Hits(s, e, keys), withCas)
    case Stats(args) => StatsOutput(args, stats)
    case Quit => []
    case _ => Say(NoReplyOf(cmd), ClassicLine(cmd, RunAll(s, ClassicSteps(cmd, data)).r))
  }

  // ----------------------------------------------------------- classic handlers

  method AsciiStore(redis: Redis, op: StoreOp, key: Bytes, value: Bytes, flags: nat, exptime: nat, cas: nat,
                    noreply: bool, out: Bytes) returns (out': Bytes)
    requires redis.Valid()
    modifies redis
    ensures redis.Valid() && redis.Foreign == old(redis.Foreign)
    ensures var o := Store(old(redis.Abs), op, MakeRedisKey(key), value, Dec(flags), Dec(cas), exptime);
      redis.Abs == o.s && out' == out + Say(noreply, StoreLine(cas, o.r))
  {
    hide Redis.Valid, Store;
    NamespaceIsolated(key, []);
    var r := redis.LuaStore(op, MakeRedisKey(key), value, Dec(flags), Dec(cas), exptime);
    out' := out;
    if !noreply {
      match r
      case Done(_) => out' := out + STORED + CRLF;
      case Miss => out' := out + (if cas != 0 then NOT_FOUND else NOT_STORED) + CRLF;
      case _ => out' := out + (if cas != 0 then EXISTS else NOT_STORED) + CRLF;
    }
  }

  method AsciiAppendPrepend(redis: Redis, prepend: bool, key: Bytes, value: Bytes, noreply: bool, out: Bytes)
    returns (out': Bytes)
    requires redis.Valid()
    modifies redis
    ensures redis.Valid() && redis.Foreign == old(redis.Foreign)
    ensures var o := Extend(old(redis.Abs), MakeRedisKey(key), value, NO_CAS, prepend);
      redis.Abs == o.s && out' == out + Say(noreply, if o.r.Done? then STORED else NOT_STORED)
  {
    hide Redis.Valid, Extend;
    NamespaceIsolated(key, []);
    var r := redis.LuaExtend(MakeRedisKey(key), value, NO_CAS, prepend);
    out' := out;
    if !noreply { out' := out + (if r.Done? then STORED else NOT_STORED) + CRLF; }
  }

  /** Always the direct DEL. */
  method AsciiDelete(redis: Redis, key: Bytes, noreply: bool, out: Bytes) returns (out': Bytes)
    requires redis.Valid()
    modifies redis
    ensures redis.Valid() && redis.Foreign == old(redis.Foreign)
    ensures var o := Delete(old(redis.Abs), MakeRedisKey(key), NO_CAS);
      redis.Abs == o.s && out' == out + Say(noreply, if o.r.Deleted? then DELETED else NOT_FOUND)
  {
    hide Redis.Valid, Delete;
    NamespaceIsolated(key, []);
    var r := redis.DirectDelete(MakeRedisKey(key));
    out' := out;
    if !noreply { out' := out + (if r.Deleted? then DELETED else NOT_FOUND) + CRLF; }
  }

  method AsciiCounter(redis: Redis, decr: bool, key: Bytes, delta: nat, noreply: bool, out: Bytes)
    returns (out': Bytes)
    requires redis.Valid()
    modifies redis
    ensures redis.Valid() && redis.Foreign == old(redis.Foreign)
    ensures var o := Counter(old(redis.Abs), MakeRedisKey(key), delta, decr, NO_CAS, NO_CREATE);
      && redis.Abs == o.s
      && out' == out + Say(noreply, if o.r.Number? then o.r.text else if o.r.Miss? then NOT_FOUND else NOT_NUMERIC)
  {
    hide Redis.Valid, Counter;
    NamespaceIsolated(key, []);
    var r := redis.LuaCounter(MakeRedisKey(key), delta, decr, NO_CAS, NO_CREATE);
    out' := out;
    if !noreply {
      match r
      case Number(text, _) => out' := out + text + CRLF;
      case Miss => out' := out + NOT_FOUND + CRLF;
      case _ => out' := out + NOT_NUMERIC + CRLF;
    }
  }

  method AsciiTouch(redis: Redis, key: Bytes, exptime: nat, noreply: bool, out: Bytes) returns (out': Bytes)
    requires redis.Valid()
    modifies redis
    ensures redis.Valid() && redis.Foreign == old(redis.Foreign)
    ensures var o := Touch(old(redis.Abs), MakeRedisKey(key), exptime);
      redis.Abs == o.s && out' == out + Say(noreply, if o.r.Done? then TOUCHED else NOT_FOUND)
  {
    hide Redis.Valid, Touch;
    NamespaceIsolated(key, []);
    var r := redis.LuaTouch(MakeRedisKey(key), exptime);
    out' := out;
    if !noreply { out' := out + (if r.Done? then TOUCHED else NOT_FOUND) + CRLF; }
  }

  method AsciiFlush(redis: Redis, batches: seq<seq<Bytes>>, noreply: bool, out: Bytes) returns (out': Bytes)
    requires redis.Valid() && AllItemKeys(Flat(batches)) && redis.Abs.items.Keys <= KeySet(Flat(batches))
    modifies redis
    ensures redis.Valid() && redis.Foreign == old(redis.Foreign)
    ensures redis.Abs == StoreSpec.Flush(old(redis.Abs)).s && out' == out + Say(noreply, OK)
  {
    hide Redis.Valid, StoreSpec.Flush;
    var n := redis.LuaFlush(batches);
    out' := out;
    if !noreply { out' := out + OK + CRLF; }
  }

  method AsciiStats(args: Option<Bytes>, stats: Stats, out: Bytes) returns (out': Bytes)
    ensures out' == out + StatsOutput(args, stats)
  {
    out' := out;
    if args.None? || args.value == [] {
      for i := 0 to |stats|
        invariant out' == out + StatLines(stats[..i])
      {
        assert stats[..i + 1][..i] == stats[..i];
        ghost var line := STAT + stats[i].0 + [SPACE] + stats[i].1 + CRLF;
        out' := out' + STAT + stats[i].0 + [SPACE] + stats[i].1 + CRLF;
        assert out' == out + (StatLines(stats[..i]) + line);
      }
      assert stats[..|stats|] == stats;
    }
    out' := out' + T.END;
  }

  /** A multi-key retrieval visits the keys in order, one script each. */
  lemma {:induction false} VisitIsRun(s: State, exp: Option<nat>, keys: seq<Bytes>)
    ensures RunAll(s, KeySteps(keys, exp)).s == T.Visit(s, exp, keys)
  {
    hide Step;
    if keys != [] {
      var n := |keys| - 1;
      VisitIsRun(s, exp, keys[..n]);
      var es := KeySteps(keys, exp);
      assert es[..n] == KeySteps(keys[..n], exp);
      assert es[n] == T.StepFor(exp, keys[n]);
    }
  }

  /** The commands that store, change or remove one key. */
  predicate OneKey(cmd: A.AsciiCmd) {
    cmd.Store? || cmd.Cas? || cmd.AppendPrepend? || cmd.Delete? || cmd.Counter? || cmd.Touch?
  }

  method DispatchOneKey(redis: Redis, cmd: A.AsciiCmd, data: Bytes, out: Bytes, ghost stats: Stats)
    returns (out': Bytes)
    requires redis.Valid() && OneKey(cmd)
    modifies redis
    ensures redis.Valid() && redis.Foreign == old(redis.Foreign)
    ensures redis.Abs == RunAll(old(redis.Abs), ClassicSteps(cmd, data)).s
    ensures out' == out + ClassicOutput(old(redis.Abs), cmd, data, stats)
  {
    hide Redis.Valid, Store, Extend, Delete, Counter, Touch, StoreLine, MakeRedisKey, Dec, Say;
    ghost var s, es := redis.Abs, ClassicSteps(cmd, data);
    assert es == [es[0]];
    RunOne(s, es[0]);
    hide RunAll;
    assert Dec(0) == NO_CAS by { DecZero(0); }
    match cmd {
      case Store(kind, k, f, e, _, nr) => out' := AsciiStore(redis, KindOp(kind), k, data, f, e, 0, nr, out);
      case Cas(k, f, e, _, c, nr) => out' := AsciiStore(redis, StoreOp.Set, k, data, f, e, c, nr, out);
      case AppendPrepend(p, k, _, nr) => out' := AsciiAppendPrepend(redis, p, k, data, nr, out);
      case Delete(k, nr) => out' := AsciiDelete(redis, k, nr, out);
      case Counter(d, k, delta, nr) => out' := AsciiCounter(redis, d, k, delta, nr, out);
      case Touch(k, e, nr) => out' := AsciiTouch(redis, k, e, nr, out);
    }
  }

  /** `dispatch_cmd`: the scripts of `ClassicSteps`, the output of `ClassicOutput`; quit ends it. */
  method DispatchClassic(redis: Redis, cmd: A.AsciiCmd, data: Bytes, batches: seq<seq<Bytes>>, stats: Stats, out: Bytes)
    returns (out': Bytes, ok: bool)
    requires redis.Valid() && AllItemKeys(Flat(batches)) && redis.Abs.items.Keys <= KeySet(Flat(batches))
    modifies redis
    ensures redis.Valid() && redis.Foreign == old(redis.Foreign)
    ensures redis.Abs == RunAll(old(redis.Abs), ClassicSteps(cmd, data)).s
    ensures out' == out + ClassicOutput(old(redis.Abs), cmd, data, stats) && ok == !cmd.Quit?
  {
    hide Redis.Valid, StoreSpec.Flush;
    ok := true;
    if OneKey(cmd) {
      out' := DispatchOneKey(redis, cmd, data, out, stats);
      return;
    }
    ghost var s := redis.Abs;
    EmptyRun(s);
    RunOne(s, EFlush);
    hide RunAll, KeySteps, T.Reply, T.Hits, T.Visit;
    match cmd {
      case Retrieval(withCas, e, keys) =>
        VisitIsRun(s, e, keys);
        var reply := T.AsciiRetrieval(redis, withCas, e, keys);
        out' := out + reply;
      case FlushAll(_, nr) => out' := AsciiFlush(redis, batches, nr, out);
      case Version => out' := out + VERSION_LINE + CRLF;
      case Stats(args) => out' := AsciiStats(args, stats, out);
      case Verbosity(nr) => out' := out; if !nr { out' := out + OK + CRLF; }
      case Quit => out', ok := out, false;
    }
  }

  lemma EmptyRun(s: State)
    ensures RunAll(s, []).s == s
  {
  }

  // ------------------------------------------------------ what classic lines tell

  /** A client's reading of an answer line. */
  function ReadLine(line: Bytes): Lesson {
    if line in {STORED, DELETED, TOUCHED, OK} then Fine
    else if line == NOT_STORED then Refused
    else if line == NOT_FOUND then Missing
    else if line == EXISTS then Conflict
    else if AllDigits(line) then Counted(line)
    else NotANumber
  }

  lemma ReadStored()
    ensures ReadLine(STORED) == Fine && ReadLine(DELETED) == Fine && ReadLine(TOUCHED) == Fine && ReadLine(OK) == Fine
    ensures ReadLine(NOT_STORED) == Refused && ReadLine(NOT_FOUND) == Missing && ReadLine(EXISTS) == Conflict
    ensures ReadLine(NOT_NUMERIC) == NotANumber
    ensures forall t: Bytes :: t != [] && AllDigits(t) ==> ReadLine(t) == Counted(t)
  {
    LinesDiffer();
    NotANumberLine();
    forall t: Bytes | t != [] && AllDigits(t) ensures ReadLine(t) == Counted(t) { DigitsAreNoWord(t); }
  }

  predicate Mutation(cmd: A.AsciiCmd) {
    cmd.Store? || cmd.Cas? || cmd.AppendPrepend? || cmd.Delete? || cmd.Counter? || cmd.Touch? || cmd.FlushAll?
  }

  /** A store without a token is told NOT_STORED for every kind of failure. */
  function Merged(cmd: A.AsciiCmd, x: Lesson): Lesson {
    if (cmd.Store? || (cmd.Cas? && cmd.casUnique == 0)) && x != Fine then Refused else x
  }

  /** The lesson in a reply to a command that does not read. */
  function Heard(r: Reply): Lesson { Learns(Wipe, r) }

  lemma LinesDiffer()
    ensures STORED != NOT_STORED && STORED != NOT_FOUND && STORED != EXISTS
    ensures DELETED != NOT_STORED && DELETED != NOT_FOUND && DELETED != EXISTS
    ensures NOT_STORED != NOT_FOUND && NOT_STORED != EXISTS && NOT_FOUND != EXISTS
    ensures NOT_STORED !in {TOUCHED, OK} && NOT_FOUND !in {TOUCHED, OK} && EXISTS !in {TOUCHED, OK}
  {
    AsciiInjectiveAll("STORED", "EXISTS");
    AsciiInjectiveAll("DELETED", "EXISTS");
  }

  lemma NoLineBreaks()
    ensures CR !in STORED && CR !in DELETED && CR !in TOUCHED && CR !in OK
    ensures CR !in NOT_STORED && CR !in NOT_FOUND && CR !in EXISTS && CR !in NOT_NUMERIC
  {
  }

  lemma AsciiInjectiveAll(s: string, t: string)
    requires forall i :: 0 <= i < |s| ==> s[i] as int < 128
    requires forall i :: 0 <= i < |t| ==> t[i] as int < 128
    requires s != t
    ensures Ascii(s) != Ascii(t)
  {
  }

  lemma NotANumberLine()
    ensures NOT_NUMERIC !in {STORED, DELETED, TOUCHED, OK, NOT_STORED, NOT_FOUND, EXISTS} && !AllDigits(NOT_NUMERIC)
  {
    assert |NOT_NUMERIC| == 60;
    assert NOT_NUMERIC[0] as int == 'C' as int;
  }

  lemma DigitsAreNoWord(t: Bytes)
    requires t != [] && AllDigits(t)
    ensures t !in {STORED, DELETED, TOUCHED, OK, NOT_STORED, NOT_FOUND, EXISTS}
  {
    assert STORED[0] as int == 'S' as int && DELETED[0] as int == 'D' as int && TOUCHED[0] as int == 'T' as int;
    assert OK[0] as int == 'O' as int && NOT_STORED[0] as int == 'N' as int;
    assert NOT_FOUND[0] as int == 'N' as int && EXISTS[0] as int == 'E' as int;
  }

  /** The line of a loud mutation is one of the known ones, and says what the reply said. */
  lemma LineTells(s: State, cmd: A.AsciiCmd, data: Bytes)
    requires Mutation(cmd)
    ensures var r := RunAll(s, ClassicSteps(cmd, data)).r;
      CR !in ClassicLine(cmd, r) && ReadLine(ClassicLine(cmd, r)) == Merged(cmd, Heard(r))
  {
    hide Step, ReadLine, MakeRedisKey, Dec;
    var e := ClassicSteps(cmd, data)[0];
    assert ClassicSteps(cmd, data) == [e];
    RunOne(s, e);
    hide RunAll;
    ReadStored();
    NoLineBreaks();
    B.StepReply(s, e);
    StepPlain(s, e);
    var r := Step(s, e).r;
    if r.Number? && AllDigits(r.text) { assert CR !in r.text; }
  }

  /** Without a token there is no conflict; without creation a number is always a decimal. */
  lemma StepPlain(s: State, e: Event)
    ensures e.EExtend? && e.req == NO_CAS ==> !Step(s, e).r.Exists?
    ensures e.EDelete? && e.req == NO_CAS ==> !Step(s, e).r.Exists?
    ensures e.ECounter? && e.init == NO_CAS && e.exp == NO_CREATE ==>
      var r := Step(s, e).r; r.Number? ==> r.text != [] && AllDigits(r.text)
  {
  }

  /**
   * What a client reads off the answer to a loud mutation is what the script replied, except
   * that stores without a token report every failure as NOT_STORED.
   */
  lemma ClassicTells(s: State, cmd: A.AsciiCmd, data: Bytes, stats: Stats, rest: Bytes)
    requires Mutation(cmd) && !NoReplyOf(cmd)
    ensures var f := T.ReadField(ClassicOutput(s, cmd, data, stats) + rest, CR);
      f.Some? && f.value.1 == [LF] + rest
      && ReadLine(f.value.0) == Merged(cmd, Heard(RunAll(s, ClassicSteps(cmd, data)).r))
  {
    hide RunAll, ClassicSteps, ReadLine, T.ReadField, ClassicLine;
    LineTells(s, cmd, data);
    var line := ClassicLine(cmd, RunAll(s, ClassicSteps(cmd, data)).r);
    assert line + CRLF + rest == line + [CR] + ([LF] + rest);
    T.ReadFieldBack(line, CR, [LF] + rest);
  }
}
