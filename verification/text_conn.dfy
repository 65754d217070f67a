// The text connection loop: lines, data blocks and draining, independent of how the
// bytes arrive.

module TextConn {
  import opened ByteStrings
  import opened AsciiCommands
  import opened MetaCommands
  import BinaryConn
  import Frames

  const MAX_LINE_LEN: nat := 2048
  const MAX_BODY_LEN: nat := Frames.MAX_BODY_LEN

  /** `find_line_end`: end of the line and start of the next; `\n` alone also ends a line. */
  function FindLine(b: Bytes): (r: Option<(nat, nat)>)
    ensures r.Some? ==> r.value.0 < r.value.1 <= |b|
  {
    FindFrom(b, 0)
  }

  function FindFrom(b: Bytes, i: nat): (r: Option<(nat, nat)>)
    requires i <= |b|
    ensures r.Some? ==> r.value.0 < r.value.1 <= |b| && i < r.value.1 && i <= r.value.0 + 1
    decreases |b| - i
  {
    if i == |b| then None
    else if b[i] == LF then Some((if i > 0 && b[i - 1] == CR then i - 1 else i, i + 1))
    else FindFrom(b, i + 1)
  }

  method FindLineEnd(b: Bytes) returns (r: Option<(nat, nat)>)
    ensures r == FindLine(b)
  {
    for i := 0 to |b|
      invariant FindLine(b) == FindFrom(b, i)
    {
      if b[i] == LF {
        if i > 0 && b[i - 1] == CR {
          return Some((i - 1, i + 1));
        }
        return Some((i, i + 1));
      }
    }
    return None;
  }

  lemma {:induction false} FindStable(b: Bytes, more: Bytes, i: nat)
    requires i <= |b|
    ensures FindFrom(b, i).Some? ==> FindFrom(b + more, i) == FindFrom(b, i)
    ensures FindFrom(b, i).None? && FindFrom(b + more, i).Some? ==>
              FindFrom(b + more, i).value.0 + 1 >= |b|
    decreases |b| - i
  {
    if i < |b| && b[i] != LF { FindStable(b, more, i + 1); }
  }

  // ----------------------------------------------------------------- line kinds

  datatype TextCmd = Classic(cmd: AsciiCmd) | Meta(meta: MetaCmd)

  datatype Line =
    | Blank
    | Plain(cmd: TextCmd)
    | WithData(cmd: TextCmd, len: nat, quiet: bool)
    | Unknown
    | Bad(text: Bytes)

  predicate AsciiSpace(b: byte) { b == 0x20 || b == 0x09 || b == 0x0A || b == 0x0C || b == 0x0D }

  /** Does a command need a data block, how long, and may it be answered? */
  function DataOf(cmd: AsciiCmd): Option<(nat, bool)> {
    match cmd
    case Store(_, _, _, _, n, nr) => Some((n, nr))
    case Cas(_, _, _, n, _, nr) => Some((n, nr))
    case AppendPrepend(_, _, n, nr) => Some((n, nr))
    case _ => None
  }

  function Classify(line: Bytes): Line {
    if forall i :: 0 <= i < |line| ==> AsciiSpace(line[i]) then Blank
    else if IsMetaCommand(line) then
      match ParseMeta(line)
      case MetaOk(cmd) => Plain(Meta(cmd))
      case NeedData(cmd, len) => WithData(Meta(cmd), len, false)
      case MetaError => Bad(line)
    else
      match ParseCommandLine(line)
      case CmdOk(cmd) =>
        (match DataOf(cmd)
         case Some((n, nr)) => WithData(Classic(cmd), n, nr)
         case None => Plain(Classic(cmd)))
      case UnknownCommand => Unknown
      case ClientError => Bad(line)
  }

  /** Printed commands reach the parser of their own protocol, and announce their data. */
  lemma PrintedRoutes(cmd: TextCmd)
    requires match cmd case Classic(c) => Sayable(c) case Meta(m) => SayableMeta(m)
    ensures match cmd
            case Classic(c) =>
              Classify(Print(c)) == (match DataOf(c) case Some((n, nr)) => WithData(cmd, n, nr) case None => Plain(cmd))
            case Meta(m) =>
              Classify(PrintMeta(m)) == if m.MSet? then WithData(cmd, m.datalen, false) else Plain(cmd)
  {
    hide ParseCommandLine, ParseMeta, IsMetaCommand, Sayable, SayableMeta, Print, PrintMeta;
    match cmd {
      case Classic(c) => PrintParse(c); ClassicFront(c);
      case Meta(m) => MetaPrintParse(m); MetaFront(m);
    }
  }

  lemma ClassicFront(c: AsciiCmd)
    requires Sayable(c)
    ensures Print(c) != [] && !AsciiSpace(Print(c)[0]) && !IsMetaCommand(Print(c))
  {
    hide Sayable, ArgsOf, Word;
    var v := VerbOf(c);
    VerbFront(v);
    assert |Print(c)| >= |Text(v)| && Print(c)[0] == Text(v)[0];
    assert |Print(c)| >= 2 ==> Print(c)[..2][0] == Print(c)[0];
  }

  lemma VerbFront(v: Verb)
    ensures Text(v)[0] as int != 'm' as int && Text(v)[0] > 0x20
  {
  }

  lemma MetaFront(m: MetaCmd)
    requires IsMetaCommand(PrintMeta(m))
    ensures PrintMeta(m) != [] && !AsciiSpace(PrintMeta(m)[0])
  {
  }

  // ------------------------------------------------------------------ reference

  datatype Done =
    | Ran(cmd: TextCmd, data: Option<Bytes>)
    | TooLarge(cmd: TextCmd, quiet: bool)
    | BadChunk(cmd: TextCmd, quiet: bool)
    | NoCommand
    | NotParsed(line: Bytes)
    | LineTooLong

  /** The front of the input: one item and its length, or what is missing. */
  datatype Front = NeedLine | NeedBlock(line: Line, skip: nat) | Item(what: Option<Done>, used: nat)

  /** The data block at the front of `rest`: the bytes, or None when its terminator is wrong. */
  function Block(rest: Bytes, len: nat): (r: (Option<Bytes>, nat))
    requires |rest| >= len + 2
    ensures r.1 <= len + 2
  {
    if rest[len] == LF then (Some(rest[..len]), len + 1)
    else if rest[len] == CR && rest[len + 1] == LF then (Some(rest[..len]), len + 2)
    else (None, len + 2)
  }

  function FrontOf(b: Bytes): (f: Front)
    ensures f.Item? ==> 0 < f.used <= |b|
    ensures f.NeedBlock? ==> f.line.WithData? && 0 < f.skip <= |b|
  {
    match FindLine(b)
    case None => NeedLine
    case Some((end, skip)) =>
      if end > MAX_LINE_LEN then Item(Some(LineTooLong), skip)
      else ItemOf(Classify(b[..end]), b[skip..], skip)
  }

  /** The item of a line, given the input after it. */
  function ItemOf(line: Line, rest: Bytes, skip: nat): (f: Front)
    ensures f.Item? ==> skip <= f.used <= skip + |rest|
    ensures f.NeedBlock? ==> f.line.WithData? && f.skip == skip
  {
    match line
    case Blank => Item(None, skip)
    case Plain(cmd) => Item(Some(Ran(cmd, None)), skip)
    case Unknown => Item(Some(NoCommand), skip)
    case Bad(text) => Item(Some(NotParsed(text)), skip)
    case WithData(cmd, len, quiet) =>
      if |rest| < len + 2 then NeedBlock(line, skip)
      else if len > MAX_BODY_LEN then Item(Some(TooLarge(cmd, quiet)), skip + len + 2)
      else
        var (data, n) := Block(rest, len);
        Item(Some(if data.Some? then Ran(cmd, data) else BadChunk(cmd, quiet)), skip + n)
  }

  /** A line found in the buffer is the line at the front of the whole input. */
  lemma LineAtFront(buf: Bytes, more: Bytes)
    requires FindLine(buf).Some?
    ensures var (end, skip) := FindLine(buf).value;
      && (buf + more)[skip..] == buf[skip..] + more
      && FrontOf(buf + more) == if end > MAX_LINE_LEN then Item(Some(LineTooLong), skip)
                                else ItemOf(Classify(buf[..end]), buf[skip..] + more, skip)
  {
    hide Classify, ItemOf;
    FindStable(buf, more, 0);
    var (end, skip) := FindLine(buf).value;
    assert (buf + more)[..end] == buf[..end] && (buf + more)[skip..] == buf[skip..] + more;
  }

  datatype Answer<S> = Answer(st: S, out: Bytes, ok: bool)

  /** Executes or answers an item; an Err (quit) closes without sending. */
  type Handler<!S> = (S, Done) -> Answer<S>

  datatype Stop = EndOfLines | EndInBlock | HandlerErr

  datatype Session<S> = Session(st: S, seen: seq<Done>, out: Bytes, stop: Stop)

  function Then<S>(x: Session<S>, y: Session<S>): Session<S> {
    Session(y.st, x.seen + y.seen, x.out + y.out, y.stop)
  }

  /** One item: blank lines do nothing. */
  function Act<S>(h: Handler<S>, st: S, what: Option<Done>): Session<S> {
    match what
    case None => Session(st, [], [], EndOfLines)
    case Some(d) =>
      var a := h(st, d);
      Session(a.st, [d], if a.ok then a.out else [], if a.ok then EndOfLines else HandlerErr)
  }

  /** The reference: one recursive pass over the whole stream. */
  function Serve<S>(h: Handler<S>, st: S, b: Bytes): Session<S>
    decreases |b|
  {
    match FrontOf(b)
    case NeedLine => Session(st, [], [], EndOfLines)
    case NeedBlock(_, _) => Session(st, [], [], EndInBlock)
    case Item(what, used) =>
      var x := Act(h, st, what);
      if x.stop.EndOfLines? then Then(x, Serve(h, x.st, b[used..])) else x
  }

  lemma ServeItem<S>(h: Handler<S>, st: S, b: Bytes)
    requires FrontOf(b).Item? && FrontOf(b).what.Some? && h(st, FrontOf(b).what.value).ok
    ensures var d := FrontOf(b).what.value;
      var a := h(st, d);
      Serve(h, st, b) == Then(Session(a.st, [d], a.out, EndOfLines), Serve(h, a.st, b[FrontOf(b).used..]))
  {
    hide FrontOf;
  }

  /** Lines of at most 2048 bytes, and no end of stream inside a data block. */
  predicate Calm<S>(h: Handler<S>, st: S, b: Bytes)
    decreases |b|
  {
    match FrontOf(b)
    case NeedLine => |b| <= MAX_LINE_LEN + 2
    case NeedBlock(_, _) => false
    case Item(what, used) =>
      && what != Some(LineTooLong)
      && (var x := Act(h, st, what); x.stop.EndOfLines? ==> Calm(h, x.st, b[used..]))
  }

  /** A buffer without a complete line is short while the stream is calm. */
  lemma CalmBuffer<S>(h: Handler<S>, st: S, b: Bytes, more: Bytes)
    requires Calm(h, st, b + more) && FindLine(b).None?
    ensures |b| <= MAX_LINE_LEN + 2
  {
    hide Classify;
    FindStable(b, more, 0);
  }

  // ------------------------------------------------------------------ the loop

  datatype ConnEnd = Eof | Closed | TooLong

  function Remaining(buf: Bytes, chunks: seq<Bytes>, used: nat): Bytes
    requires used <= |chunks|
  {
    buf + BinaryConn.Joined(chunks[used..])
  }

  /** Reading a chunk moves bytes from the socket to the buffer. */
  lemma ReadOne(buf: Bytes, chunks: seq<Bytes>, used: nat)
    requires used < |chunks|
    ensures Remaining(buf + chunks[used], chunks, used + 1) == Remaining(buf, chunks, used)
  {
    var rest := chunks[used..];
    BinaryConn.JoinedSplit(rest, 1);
    BinaryConn.JoinedSnoc([], chunks[used]);
    BinaryConn.EmptyJoined();
    assert rest[..1] == [] + [chunks[used]] && rest[1..] == chunks[used + 1..];
  }

  lemma AllConsumed(buf: Bytes, chunks: seq<Bytes>)
    ensures Remaining(buf, chunks, |chunks|) == buf
  {
  }

  /** Reads until the buffer holds `need` bytes or the socket is at its end. */
  method Fill(buf0: Bytes, chunks: seq<Bytes>, used0: nat, need: nat) returns (buf: Bytes, used: nat)
    requires used0 <= |chunks|
    ensures used0 <= used <= |chunks|
    ensures Remaining(buf, chunks, used) == Remaining(buf0, chunks, used0)
    ensures |buf| >= need || used == |chunks|
    ensures |buf| >= |buf0| && buf[..|buf0|] == buf0
  {
    buf, used := buf0, used0;
    while |buf| < need && used < |chunks|
      invariant used0 <= used <= |chunks|
      invariant Remaining(buf, chunks, used) == Remaining(buf0, chunks, used0)
      invariant |buf| >= |buf0| && buf[..|buf0|] == buf0
      decreases |chunks| - used
    {
      ReadOne(buf, chunks, used);
      buf := buf + chunks[used];
      used := used + 1;
    }
  }

  /** `read_data_block`. */
  method ReadDataBlock(buf0: Bytes, chunks: seq<Bytes>, used0: nat, len: nat)
    returns (data: Option<Bytes>, buf: Bytes, used: nat)
    requires used0 <= |chunks|
    ensures used0 <= used <= |chunks|
    ensures var t := Remaining(buf0, chunks, used0);
      if |t| >= len + 2 then
        data == Block(t, len).0 && Remaining(buf, chunks, used) == t[Block(t, len).1..]
      else data.None? && used == |chunks| && buf == t
    ensures used == used0 ==> |buf| <= |buf0|
  {
    ghost var t := Remaining(buf0, chunks, used0);
    buf, used := Fill(buf0, chunks, used0, len + 2);
    if |buf| < len + 2 {
      AllConsumed(buf, chunks);
      return None, buf, used;
    }
    assert t == buf + BinaryConn.Joined(chunks[used..]);
    assert t[len] == buf[len] && t[len + 1] == buf[len + 1] && t[..len] == buf[..len];
    var valid := buf[len..len + 2] == [CR, LF] || buf[len] == LF;
    assert buf[len..len + 2] == [buf[len], buf[len + 1]];
    if !valid {
      assert t[len + 2..] == Remaining(buf[len + 2..], chunks, used);
      return None, buf[len + 2..], used;
    }
    var skip := if buf[len] == CR then 2 else 1;
    assert t[len + skip..] == Remaining(buf[len + skip..], chunks, used);
    return Some(buf[..len]), buf[len + skip..], used;
  }

  /** `drain_data_block`: skips the block, or what there is of it at the end of the stream. */
  method DrainDataBlock(buf0: Bytes, chunks: seq<Bytes>, used0: nat, len: nat)
    returns (buf: Bytes, used: nat)
    requires used0 <= |chunks|
    ensures used0 <= used <= |chunks|
    ensures var t := Remaining(buf0, chunks, used0);
      if |t| >= len + 2 then Remaining(buf, chunks, used) == t[len + 2..]
      else used == |chunks| && buf == t
    ensures used == used0 ==> |buf| <= |buf0|
  {
    ghost var t := Remaining(buf0, chunks, used0);
    buf, used := Fill(buf0, chunks, used0, len + 2);
    if |buf| < len + 2 {
      AllConsumed(buf, chunks);
      return buf, used;
    }
    assert t[len + 2..] == Remaining(buf[len + 2..], chunks, used);
    return buf[len + 2..], used;
  }

  /** One round of the loop: the next item of the input, when the buffer holds a whole line. */
  method NextItem(buf0: Bytes, chunks: seq<Bytes>, used0: nat)
    returns (found: bool, what: Option<Done>, buf: Bytes, used: nat)
    requires used0 <= |chunks|
    ensures used0 <= used <= |chunks|
    ensures !found ==> FindLine(buf0).None? && buf == buf0 && used == used0
    ensures found && used == used0 ==> |buf| < |buf0|
    ensures var t := Remaining(buf0, chunks, used0);
      found && !FrontOf(t).NeedBlock? ==>
        FrontOf(t).Item? && what == FrontOf(t).what && Remaining(buf, chunks, used) == t[FrontOf(t).used..]
  {
    hide Classify, FindLine, Block;
    found, what, buf, used := true, None, buf0, used0;
    ghost var t := Remaining(buf0, chunks, used0);
    var r := FindLineEnd(buf0);
    if r.None? {
      return false, None, buf, used;
    }
    var (end, skip) := r.value;
    LineAtFront(buf0, BinaryConn.Joined(chunks[used0..]));
    hide FrontOf;
    buf := buf0[skip..];
    assert t[skip..] == Remaining(buf, chunks, used);
    if end > MAX_LINE_LEN {
      return true, Some(LineTooLong), buf, used;
    }
    var line := Classify(buf0[..end]);
    ghost var rest := t[skip..];
    match line {
      case Blank => what := None;
      case Plain(cmd) => what := Some(Ran(cmd, None));
      case Unknown => what := Some(NoCommand);
      case Bad(text) => what := Some(NotParsed(text));
      case WithData(cmd, len, quiet) =>
        if len > MAX_BODY_LEN {
          what := Some(TooLarge(cmd, quiet));
          buf, used := DrainDataBlock(buf, chunks, used, len);
          if |rest| >= len + 2 { assert rest[len + 2..] == t[skip + len + 2..]; }
        } else {
          var data;
          data, buf, used := ReadDataBlock(buf, chunks, used, len);
          what := Some(if data.Some? then Ran(cmd, data) else BadChunk(cmd, quiet));
          if |rest| >= len + 2 { assert rest[Block(rest, len).1..] == t[skip + Block(rest, len).1..]; }
        }
    }
  }

  lemma EmptyThen<S>(y: Session<S>)
    ensures forall st: S :: Then(Session(st, [], [], EndOfLines), y) == y
  {
  }

  lemma ThenAssoc<S>(x: Session<S>, y: Session<S>, z: Session<S>)
    ensures Then(x, Then(y, z)) == Then(Then(x, y), z)
  {
  }

  /**
   * `handle_ascii_conn`.  On a calm stream, however it is split into reads, the items seen,
   * the final state and the output are those of one pass over the whole stream.
   */
  method HandleAsciiConn<S>(h: Handler<S>, st0: S, buf0: Bytes, chunks: seq<Bytes>)
    returns (st: S, seen: seq<Done>, written: Bytes, end: ConnEnd)
    ensures Calm(h, st0, buf0 + BinaryConn.Joined(chunks)) ==>
      var r := Serve(h, st0, buf0 + BinaryConn.Joined(chunks));
      && !end.TooLong? && (end.Closed? <==> r.stop.HandlerErr?)
      && st == r.st && seen == r.seen && written == r.out
  {
    hide FrontOf, FindLine, Remaining;
    var buf, used := buf0, 0;
    st, seen, written := st0, [], [];
    ghost var total := buf0 + BinaryConn.Joined(chunks);
    StartRemaining(buf0, chunks);
    EmptyThen(Serve(h, st0, total));
    while true
      invariant used <= |chunks|
      invariant Calm(h, st0, total) ==>
        Calm(h, st, Remaining(buf, chunks, used))
        && Serve(h, st0, total)
           == Then(Session(st, seen, written, EndOfLines), Serve(h, st, Remaining(buf, chunks, used)))
      decreases |chunks| - used, |buf|
    {
      ghost var t := Remaining(buf, chunks, used);
      ghost var x := Session(st, seen, written, EndOfLines);
      var found, what;
      found, what, buf, used := NextItem(buf, chunks, used);
      if found {
        if what.Some? {
          var a := h(st, what.value);
          seen := seen + [what.value];
          st := a.st;
          if !a.ok {
            return st, seen, written, Closed;
          }
          written := written + a.out;
        }
        if Calm(h, st0, total) {
          ThenAssoc(x, Act(h, x.st, what), Serve(h, st, Remaining(buf, chunks, used)));
          assert what.None? ==> seen == x.seen + [] && written == x.out + [];
        }
        continue;
      }
      if Calm(h, st0, total) { BufferFits(h, st, buf, chunks, used); }
      if |buf| > MAX_LINE_LEN + 2 {
        return st, seen, written, TooLong;
      }
      if used == |chunks| {
        AllConsumed(buf, chunks);
        NoLine(buf);
        return st, seen, written, Eof;
      }
      ReadOne(buf, chunks, used);
      buf := buf + chunks[used];
      used := used + 1;
    }
  }

  lemma StartRemaining(buf: Bytes, chunks: seq<Bytes>)
    ensures Remaining(buf, chunks, 0) == buf + BinaryConn.Joined(chunks)
  {
  }

  lemma NoLine(b: Bytes)
    requires FindLine(b).None?
    ensures FrontOf(b).NeedLine?
  {
  }

  lemma BufferFits<S>(h: Handler<S>, st: S, buf: Bytes, chunks: seq<Bytes>, used: nat)
    requires used <= |chunks| && FindLine(buf).None? && Calm(h, st, Remaining(buf, chunks, used))
    ensures |buf| <= MAX_LINE_LEN + 2
  {
    CalmBuffer(h, st, buf, BinaryConn.Joined(chunks[used..]));
  }
}
