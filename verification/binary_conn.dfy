// The binary connection loop: whatever the sizes of the reads, the same requests are
// handled as in one recursive parse of the whole stream.

module BinaryConn {
  import opened ByteStrings
  import opened Frames

  const READ_SIZE: nat := 16_384
  const MAX_READ_BUF: nat := MAX_BODY_LEN + HEADER_LEN + 4096

  const ST_ARGS: nat := 0x0004

  /** The result of `handle`: new server state, bytes appended to `out`, Ok or Err. */
  datatype Answer<S> = Answer(st: S, out: Bytes, ok: bool)

  type Handler<!S> = (S, Request) -> Answer<S>

  datatype Seen = Handled(req: Request) | Rejected(opcode: byte, opaqueId: nat)

  datatype Stop = End | BadStart | TooBig | HandlerErr

  /** State, handled frames, responses, why it stopped, and the unconsumed input. */
  datatype Session<S> = Session(st: S, seen: seq<Seen>, out: Bytes, stop: Stop, rest: Bytes)

  function ErrorFrame(opcode: byte, opaqueId: nat, text: Bytes): Bytes {
    Encode(Response(opcode, ST_ARGS, opaqueId, 0, [], [], text))
  }

  function Then<S>(x: Session<S>, y: Session<S>): Session<S> {
    Session(y.st, x.seen + y.seen, x.out + y.out, y.stop, y.rest)
  }

  /** What becomes of a frame that is not incomplete. */
  function Front<S>(h: Handler<S>, st: S, b: Bytes): (x: Session<S>)
    requires !TryParse(b).Incomplete?
    ensures x.stop.End? ==> |x.rest| < |b|
  {
    var p := TryParse(b);
    if p.BadMagic? then Session(st, [], [], BadStart, b)
    else if p.Parsed? then
      var a := h(st, p.req);
      Session(a.st, [Handled(p.req)], a.out, if a.ok then End else HandlerErr, b[p.used..])
    else if p.Malformed? then
      Session(st, [Rejected(p.opcode, p.opaqueId)],
              ErrorFrame(p.opcode, p.opaqueId, Ascii("Malformed frame")), End, b[p.skip..])
    else
      Session(st, [Rejected(p.opcode, p.opaqueId)],
              ErrorFrame(p.opcode, p.opaqueId, Ascii("Frame too large")), TooBig, b)
  }

  /** The reference: one recursive parse of a stream. */
  function Serve<S>(h: Handler<S>, st: S, b: Bytes): Session<S>
    decreases |b|
  {
    if TryParse(b).Incomplete? then Session(st, [], [], End, b)
    else
      var x := Front(h, st, b);
      if x.stop.End? then Then(x, Serve(h, x.st, x.rest)) else x
  }

  lemma ThenAssoc<S>(x: Session<S>, y: Session<S>, z: Session<S>)
    ensures Then(x, Then(y, z)) == Then(Then(x, y), z)
  {
  }

  /** Serving a longer stream is serving the shorter one and going on with what it left. */
  lemma {:induction false} ServeAppend<S>(h: Handler<S>, st: S, b: Bytes, more: Bytes)
    ensures var x := Serve(h, st, b);
      Serve(h, st, b + more)
      == if x.stop.End? then Then(x, Serve(h, x.st, x.rest + more)) else x.(rest := x.rest + more)
    decreases |b|
  {
    hide TryParse, Front;
    if TryParse(b).Incomplete? {
      EmptyThen(Serve(h, st, b + more));
    } else {
      FrontStable(h, st, b, more);
      var one := Front(h, st, b);
      if one.stop.End? {
        ServeAppend(h, one.st, one.rest, more);
        var two := Serve(h, one.st, one.rest);
        if two.stop.End? { ThenAssoc(one, two, Serve(h, two.st, two.rest + more)); }
      }
    }
  }

  lemma FrontStable<S>(h: Handler<S>, st: S, b: Bytes, more: Bytes)
    requires !TryParse(b).Incomplete?
    ensures !TryParse(b + more).Incomplete?
    ensures Front(h, st, b + more) == Front(h, st, b).(rest := Front(h, st, b).rest + more)
  {
    hide ErrorFrame;
    ParseStable(b, more);
    HideParse(h, st, b, more);
  }

  lemma HideParse<S>(h: Handler<S>, st: S, b: Bytes, more: Bytes)
    requires !TryParse(b).Incomplete? && TryParse(b + more) == TryParse(b)
    ensures Front(h, st, b + more) == Front(h, st, b).(rest := Front(h, st, b).rest + more)
  {
    hide TryParse, ErrorFrame;
  }

  /** What is left when a stream ends is an incomplete frame. */
  lemma {:induction false} RestIncomplete<S>(h: Handler<S>, st: S, b: Bytes)
    requires Serve(h, st, b).stop.End?
    ensures TryParse(Serve(h, st, b).rest).Incomplete?
    ensures |Serve(h, st, b).rest| <= MAX_BODY_LEN + 23
    decreases |b|
  {
    hide Front;
    if !TryParse(b).Incomplete? {
      var x := Front(h, st, b);
      RestIncomplete(h, x.st, x.rest);
    }
  }

  // ---------------------------------------------------------------------- reads

  function Joined(chunks: seq<Bytes>): Bytes {
    if chunks == [] then [] else Joined(chunks[..|chunks| - 1]) + chunks[|chunks| - 1]
  }

  predicate ValidReads(chunks: seq<Bytes>) {
    forall i :: 0 <= i < |chunks| ==> 1 <= |chunks[i]| <= READ_SIZE
  }

  lemma {:induction false} JoinedSplit(chunks: seq<Bytes>, i: nat)
    requires i <= |chunks|
    ensures Joined(chunks) == Joined(chunks[..i]) + Joined(chunks[i..])
    decreases |chunks|
  {
    if i == |chunks| {
      assert chunks[..i] == chunks;
    } else {
      var n := |chunks| - 1;
      JoinedSplit(chunks[..n], i);
      assert chunks[..n][..i] == chunks[..i] && chunks[i..][..n - i] == chunks[..n][i..];
    }
  }

  /** The session after the first i reads. */
  function After<S>(h: Handler<S>, st: S, buf: Bytes, chunks: seq<Bytes>, i: nat): Session<S>
    requires i <= |chunks|
  {
    Serve(h, st, buf + Joined(chunks[..i]))
  }

  /** Read number i pushes the buffer over the guard at the head of the loop. */
  predicate Overflows<S>(h: Handler<S>, st: S, buf: Bytes, chunks: seq<Bytes>, i: nat)
    requires i < |chunks|
  {
    After(h, st, buf, chunks, i).stop.End?
    && |After(h, st, buf, chunks, i).rest| + |chunks[i]| > MAX_READ_BUF
  }

  lemma AfterStart<S>(h: Handler<S>, st: S, buf: Bytes, chunks: seq<Bytes>)
    ensures After(h, st, buf, chunks, 0) == Serve(h, st, buf)
  {
    assert chunks[..0] == [] && buf + Joined([]) == buf;
  }

  lemma AfterRest<S>(h: Handler<S>, st: S, buf: Bytes, chunks: seq<Bytes>, i: nat)
    requires i <= |chunks| && After(h, st, buf, chunks, i).stop.End?
    ensures TryParse(After(h, st, buf, chunks, i).rest).Incomplete?
    ensures |After(h, st, buf, chunks, i).rest| <= MAX_BODY_LEN + 23
  {
    RestIncomplete(h, st, buf + Joined(chunks[..i]));
  }

  lemma AfterNext<S>(h: Handler<S>, st: S, buf: Bytes, chunks: seq<Bytes>, i: nat)
    requires i < |chunks| && After(h, st, buf, chunks, i).stop.End?
    ensures var x := After(h, st, buf, chunks, i);
      After(h, st, buf, chunks, i + 1) == Then(x, Serve(h, x.st, x.rest + chunks[i]))
  {
    assert chunks[..i + 1][..i] == chunks[..i];
    assert buf + Joined(chunks[..i + 1]) == (buf + Joined(chunks[..i])) + chunks[i];
    ServeAppend(h, st, buf + Joined(chunks[..i]), chunks[i]);
  }

  lemma AfterStopped<S>(h: Handler<S>, st: S, buf: Bytes, chunks: seq<Bytes>, i: nat)
    requires i <= |chunks|
    ensures var x, y := After(h, st, buf, chunks, i), Serve(h, st, buf + Joined(chunks));
      && x.seen <= y.seen && x.out <= y.out
      && (!x.stop.End? ==> y.stop == x.stop && y.seen == x.seen && y.out == x.out && y.st == x.st)
  {
    JoinedSplit(chunks, i);
    assert buf + Joined(chunks) == (buf + Joined(chunks[..i])) + Joined(chunks[i..]);
    ServeAppend(h, st, buf + Joined(chunks[..i]), Joined(chunks[i..]));
  }

  datatype ConnEnd = Eof | Closed(why: Stop) | GuardFired

  /** The inner loop: parses and handles the frames in the buffer until one does not go on. */
  method ServeBuffer<S>(h: Handler<S>, st0: S, buf0: Bytes)
    returns (st: S, seen: seq<Seen>, out: Bytes, stop: Stop, buf: Bytes)
    ensures Session(st, seen, out, stop, buf) == Serve(h, st0, buf0)
  {
    hide TryParse, ErrorFrame;
    st, seen, out, buf := st0, [], [], buf0;
    EmptyThen(Serve(h, st0, buf0));
    while true
      invariant Serve(h, st0, buf0) == Then(Session(st, seen, out, End, buf), Serve(h, st, buf))
      decreases |buf|
    {
      ghost var x := Session(st, seen, out, End, buf);
      ghost var one: Session<S>;
      var p := TryParse(buf);
      if p.Incomplete? {
        stop := End;
        break;
      }
      one := Front(h, st, buf);
      if p.BadMagic? {
        stop := BadStart;
        break;
      } else if p.Parsed? {
        var a := h(st, p.req);
        seen := seen + [Handled(p.req)];
        out := out + a.out;
        st := a.st;
        buf := buf[p.used..];
        if !a.ok {
          stop := HandlerErr;
          break;
        }
      } else if p.Malformed? {
        seen := seen + [Rejected(p.opcode, p.opaqueId)];
        out := out + ErrorFrame(p.opcode, p.opaqueId, Ascii("Malformed frame"));
        buf := buf[p.skip..];
      } else {
        seen := seen + [Rejected(p.opcode, p.opaqueId)];
        out := out + ErrorFrame(p.opcode, p.opaqueId, Ascii("Frame too large"));
        stop := TooBig;
        break;
      }
      ThenAssoc(x, one, Serve(h, st, buf));
    }
  }

  // ------------------------------------------------------------- what is written

  /**
   * How many reads the loop makes, from the i-th on: it stops when the frames read so far end
   * the session, when a read overflows the guard, or when there is nothing left to read.
   */
  function Reads<S>(h: Handler<S>, st: S, buf: Bytes, chunks: seq<Bytes>, i: nat): (n: nat)
    requires i <= |chunks|
    ensures i <= n <= |chunks|
    decreases |chunks| - i
  {
    if i == |chunks| || !After(h, st, buf, chunks, i).stop.End? then i
    else if Overflows(h, st, buf, chunks, i) then i + 1
    else Reads(h, st, buf, chunks, i + 1)
  }

  /** The n-th read was the one that overflowed the guard. */
  predicate Refused<S>(h: Handler<S>, st: S, buf: Bytes, chunks: seq<Bytes>, n: nat)
    requires n <= |chunks|
  {
    n > 0 && Overflows(h, st, buf, chunks, n - 1)
  }

  /** What is batched in `out` is sent before the next read: the output up to the last read. */
  function SentBefore<S>(h: Handler<S>, st: S, buf: Bytes, chunks: seq<Bytes>, n: nat): Bytes
    requires n <= |chunks|
  {
    if n == 0 then [] else After(h, st, buf, chunks, n - 1).out
  }

  /** The batch in which the loop stopped: the frames completed by the last read. */
  function LastBatch<S>(h: Handler<S>, st: S, buf: Bytes, chunks: seq<Bytes>, n: nat): Session<S>
    requires n <= |chunks|
  {
    if n == 0 then Serve(h, st, buf)
    else
      var x := After(h, st, buf, chunks, n - 1);
      Serve(h, x.st, x.rest + chunks[n - 1])
  }

  /** What `handle_binary_conn` does: final state, frames handled, bytes sent, and the ending. */
  datatype Conn<S> = Conn(st: S, seen: seq<Seen>, written: Bytes, end: ConnEnd, used: nat)

  function Loop<S>(h: Handler<S>, st: S, buf: Bytes, chunks: seq<Bytes>): Conn<S> {
    var n := Reads(h, st, buf, chunks, 0);
    var sent := SentBefore(h, st, buf, chunks, n);
    if Refused(h, st, buf, chunks, n) then
      var x := After(h, st, buf, chunks, n - 1);
      Conn(x.st, x.seen, sent, GuardFired, n)
    else
      var x := After(h, st, buf, chunks, n);
      match x.stop
      case End => Conn(x.st, x.seen, x.out, Eof, n)
      case TooBig => Conn(x.st, x.seen, x.out, Closed(TooBig), n)
      case why => Conn(x.st, x.seen, sent, Closed(why), n)
  }

  /** The buffer right after each of the first n reads. */
  function Held<S>(h: Handler<S>, st: S, buf: Bytes, chunks: seq<Bytes>, n: nat): (ls: seq<nat>)
    requires n <= |chunks|
    ensures |ls| == n
    ensures forall i :: 0 <= i < n ==> ls[i] == |After(h, st, buf, chunks, i).rest| + |chunks[i]|
  {
    seq(n, i requires 0 <= i < n => |After(h, st, buf, chunks, i).rest| + |chunks[i]|)
  }

  /**
   * `handle_binary_conn`.  `chunks` are the results of the socket reads, `written` is what
   * reaches the client, `held` the length of the buffer right after each read.  Unless the
   * buffer guard fires, the frames handled are those of the whole stream.  The bytes written
   * are the reference output, except that the batch in progress is dropped on bad magic and
   * on a handler error, QUIT included.
   */
  method HandleBinaryConn<S>(h: Handler<S>, st0: S, buf0: Bytes, chunks: seq<Bytes>)
    returns (st: S, seen: seq<Seen>, written: Bytes, end: ConnEnd, used: nat, ghost held: seq<nat>)
    requires ValidReads(chunks) && |buf0| <= READ_SIZE
    ensures Conn(st, seen, written, end, used) == Loop(h, st0, buf0, chunks)
    ensures used <= |chunks| && held == Held(h, st0, buf0, chunks, used)
    ensures forall i :: 0 <= i < used ==> held[i] <= MAX_BODY_LEN + 23 + READ_SIZE
    ensures Conforms(Loop(h, st0, buf0, chunks), Serve(h, st0, buf0 + Joined(chunks)))
    ensures end.Eof? ==> used == |chunks|
    ensures Drops(Loop(h, st0, buf0, chunks)) ==> written == SentBefore(h, st0, buf0, chunks, used)
    ensures end.GuardFired? <==> exists i :: 0 <= i < used && Overflows(h, st0, buf0, chunks, i)
  {
    hide TryParse, Serve, ErrorFrame, Then, Loop, Held, AtHead, Conforms, SentBefore, Overflows, ValidReads;
    var buf := buf0;
    st, seen, written, used, held := st0, [], [], 0, [];
    HeadStart(h, st0, buf0, chunks);
    LoopConforms(h, st0, buf0, chunks);
    LoopBound(h, st0, buf0, chunks);
    while true
      invariant used <= |chunks|
      invariant AtHead(h, st0, buf0, chunks, used, Session(st, seen, written, End, []), buf)
      invariant held == Held(h, st0, buf0, chunks, used)
      decreases |chunks| - used
    {
      ghost var x := Session(st, seen, written, End, []);
      if |buf| > MAX_READ_BUF {
        HeadDone(h, st0, buf0, chunks, used, x, buf);
        return st, seen, written, GuardFired, used, held;
      }
      if buf == [] {
        EmptyServe(h, st);
        if used == |chunks| {
          HeadDone(h, st0, buf0, chunks, used, x, buf);
          assert seen + [] == seen && written + [] == written;
          return st, seen, written, Eof, used, held;
        }
        HeadNext(h, st0, buf0, chunks, used, x, buf);
        assert seen + [] == seen && written + [] == written && [] + chunks[used] == chunks[used];
        buf := chunks[used];
        held := held + [|buf|];
        used := used + 1;
        SmallRead(h, st0, buf0, chunks, used, x, buf);
      }
      ghost var y := Serve(h, st, buf);
      var more, out, stop, rest;
      st, more, out, stop, rest := ServeBuffer(h, st, buf);
      if !stop.End? || used == |chunks| {
        HeadDone(h, st0, buf0, chunks, used, x, buf);
        seen := seen + more;
        if stop.End? { return st, seen, written + out, Eof, used, held; }
        if stop.TooBig? { written := written + out; }
        return st, seen, written, Closed(stop), used, held;
      }
      HeadNext(h, st0, buf0, chunks, used, x, buf);
      seen := seen + more;
      written := written + out;
      buf := rest + chunks[used];
      held := held + [|buf|];
      used := used + 1;
    }
  }

  /**
   * The head of the loop after i reads, with x done and sent and `buf` still to be served.
   */
  ghost predicate AtHead<S>(h: Handler<S>, st: S, buf0: Bytes, chunks: seq<Bytes>, i: nat,
                            x: Session<S>, buf: Bytes)
    requires i <= |chunks|
  {
    && x.stop.End? && x.rest == [] && x.out == SentBefore(h, st, buf0, chunks, i)
    && After(h, st, buf0, chunks, i) == Then(x, Serve(h, x.st, buf))
    && (i > 0 ==>
          var z := After(h, st, buf0, chunks, i - 1);
          z.stop.End? && z.st == x.st && z.seen == x.seen && |buf| == |z.rest| + |chunks[i - 1]|)
    && (i == 0 ==> |buf| <= READ_SIZE)
    && Reads(h, st, buf0, chunks, 0)
       == if Refused(h, st, buf0, chunks, i) then i else Reads(h, st, buf0, chunks, i)
  }

  lemma HeadStart<S>(h: Handler<S>, st: S, buf: Bytes, chunks: seq<Bytes>)
    requires |buf| <= READ_SIZE
    ensures AtHead(h, st, buf, chunks, 0, Session(st, [], [], End, []), buf)
    ensures Held(h, st, buf, chunks, 0) == []
  {
    hide Serve, After, Reads;
    AfterStart(h, st, buf, chunks);
    EmptyThen(Serve(h, st, buf));
  }

  lemma HeadNext<S>(h: Handler<S>, st: S, buf0: Bytes, chunks: seq<Bytes>, i: nat, x: Session<S>, buf: Bytes)
    requires ValidReads(chunks) && i < |chunks| && AtHead(h, st, buf0, chunks, i, x, buf)
    requires |buf| <= MAX_READ_BUF && Serve(h, x.st, buf).stop.End?
    ensures var y := Serve(h, x.st, buf);
      && AtHead(h, st, buf0, chunks, i + 1, Session(y.st, x.seen + y.seen, x.out + y.out, End, []), y.rest + chunks[i])
      && Held(h, st, buf0, chunks, i + 1) == Held(h, st, buf0, chunks, i) + [|y.rest + chunks[i]|]
  {
    hide After, Serve, TryParse, ValidReads;
    AfterNext(h, st, buf0, chunks, i);
  }

  /** A read into an empty buffer does not reach the guard. */
  lemma SmallRead<S>(h: Handler<S>, st: S, buf0: Bytes, chunks: seq<Bytes>, i: nat, x: Session<S>, buf: Bytes)
    requires ValidReads(chunks) && 0 < i <= |chunks| && buf == chunks[i - 1]
    ensures |buf| <= MAX_READ_BUF
  {
  }

  /** The loop ends here: `Loop` is what has been done. */
  lemma HeadDone<S>(h: Handler<S>, st: S, buf0: Bytes, chunks: seq<Bytes>, i: nat, x: Session<S>, buf: Bytes)
    requires ValidReads(chunks) && i <= |chunks| && AtHead(h, st, buf0, chunks, i, x, buf)
    requires |buf| > MAX_READ_BUF || i == |chunks| || !Serve(h, x.st, buf).stop.End?
    ensures var y := Serve(h, x.st, buf);
      Loop(h, st, buf0, chunks)
      == if |buf| > MAX_READ_BUF then Conn(x.st, x.seen, x.out, GuardFired, i)
         else if y.stop.End? then Conn(y.st, x.seen + y.seen, x.out + y.out, Eof, i)
         else Conn(y.st, x.seen + y.seen, if y.stop.TooBig? then x.out + y.out else x.out, Closed(y.stop), i)
  {
    hide After, Serve, TryParse, ValidReads;
  }

  // --------------------------------------------- the loop against the whole stream

  /** The loop returns with a batch unsent: bad magic, or an error of the handler. */
  predicate Drops<S>(c: Conn<S>) { c.end == Closed(BadStart) || c.end == Closed(HandlerErr) }

  /** The connection has done what one pass over the whole stream, r, does. */
  ghost predicate Conforms<S>(c: Conn<S>, r: Session<S>) {
    && (c.end.Eof? ==> r.stop.End? && c.seen == r.seen && c.st == r.st && c.written == r.out)
    && (c.end.Closed? ==>
          r.stop == c.end.why && !c.end.why.End? && c.seen == r.seen && c.st == r.st && c.written <= r.out)
    && (c.end == Closed(TooBig) ==> c.written == r.out)
    && (c.end.GuardFired? ==> c.seen <= r.seen && c.written <= r.out)
  }

  /** The reads before the last one left the session open and the guard quiet. */
  lemma {:induction false} ReadsRun<S>(h: Handler<S>, st: S, buf: Bytes, chunks: seq<Bytes>, i: nat)
    requires i <= |chunks|
    ensures var n := Reads(h, st, buf, chunks, i);
      && (forall m :: i <= m < n ==> After(h, st, buf, chunks, m).stop.End?)
      && (forall m :: i <= m < n - 1 ==> !Overflows(h, st, buf, chunks, m))
      && ((i < n && Refused(h, st, buf, chunks, n)) || n == |chunks| || !After(h, st, buf, chunks, n).stop.End?)
    decreases |chunks| - i
  {
    hide After;
    if i < |chunks| && After(h, st, buf, chunks, i).stop.End? && !Overflows(h, st, buf, chunks, i) {
      ReadsRun(h, st, buf, chunks, i + 1);
    }
  }

  lemma LoopConforms<S>(h: Handler<S>, st: S, buf: Bytes, chunks: seq<Bytes>)
    ensures var c := Loop(h, st, buf, chunks);
      && Conforms(c, Serve(h, st, buf + Joined(chunks))) && c.used <= |chunks|
      && (c.end.Eof? ==> c.used == |chunks|)
      && (Drops(c) ==> c.written == SentBefore(h, st, buf, chunks, c.used))
      && (c.end.GuardFired? <==> exists i :: 0 <= i < c.used && Overflows(h, st, buf, chunks, i))
  {
    hide After, Serve, Overflows, Reads, Refused, SentBefore, Conforms;
    var n, c := Reads(h, st, buf, chunks, 0), Loop(h, st, buf, chunks);
    RefusedExactly(h, st, buf, chunks);
    ReadsEnd(h, st, buf, chunks);
    assert c.used == n && (c.end.GuardFired? <==> Refused(h, st, buf, chunks, n));
    if Refused(h, st, buf, chunks, n) {
      RefusedConforms(h, st, buf, chunks);
    } else {
      EndConforms(h, st, buf, chunks);
    }
  }

  lemma RefusedConforms<S>(h: Handler<S>, st: S, buf: Bytes, chunks: seq<Bytes>)
    requires Refused(h, st, buf, chunks, Reads(h, st, buf, chunks, 0))
    ensures Conforms(Loop(h, st, buf, chunks), Serve(h, st, buf + Joined(chunks)))
  {
    hide After, Serve, Overflows, Reads;
    AfterStopped(h, st, buf, chunks, Reads(h, st, buf, chunks, 0) - 1);
  }

  lemma EndConforms<S>(h: Handler<S>, st: S, buf: Bytes, chunks: seq<Bytes>)
    requires !Refused(h, st, buf, chunks, Reads(h, st, buf, chunks, 0))
    ensures var c := Loop(h, st, buf, chunks);
      Conforms(c, Serve(h, st, buf + Joined(chunks))) && (c.end.Eof? ==> c.used == |chunks|)
  {
    hide After, Serve, Overflows, Reads, Refused, SentBefore, LastBatch, Joined;
    var n := Reads(h, st, buf, chunks, 0);
    ReadsEnd(h, st, buf, chunks);
    var a, sent := After(h, st, buf, chunks, n), SentBefore(h, st, buf, chunks, n);
    var c := Loop(h, st, buf, chunks);
    assert c.st == a.st && c.seen == a.seen && c.used == n;
    assert sent <= a.out;
    if a.stop.End? {
      assert c.end == Eof;
      AllRead(h, st, buf, chunks);
    } else {
      assert c.end == Closed(a.stop) && c.written == if a.stop.TooBig? then a.out else sent;
      AfterStopped(h, st, buf, chunks, n);
    }
  }

  lemma ReadsEnd<S>(h: Handler<S>, st: S, buf: Bytes, chunks: seq<Bytes>)
    ensures var n := Reads(h, st, buf, chunks, 0);
      && (Refused(h, st, buf, chunks, n) || n == |chunks| || !After(h, st, buf, chunks, n).stop.End?)
      && (n > 0 ==> After(h, st, buf, chunks, n - 1).stop.End?)
      && After(h, st, buf, chunks, n).out
         == SentBefore(h, st, buf, chunks, n) + LastBatch(h, st, buf, chunks, n).out
  {
    ReadsRun(h, st, buf, chunks, 0);
    hide After, Overflows;
    BatchOutput(h, st, buf, chunks, Reads(h, st, buf, chunks, 0));
  }

  lemma RefusedExactly<S>(h: Handler<S>, st: S, buf: Bytes, chunks: seq<Bytes>)
    ensures var n := Reads(h, st, buf, chunks, 0);
      Refused(h, st, buf, chunks, n) <==> exists i :: 0 <= i < n && Overflows(h, st, buf, chunks, i)
  {
    hide Overflows, Reads;
    ReadsRun(h, st, buf, chunks, 0);
  }

  /** Right after a read the buffer holds less than a frame and a read. */
  lemma LoopBound<S>(h: Handler<S>, st: S, buf: Bytes, chunks: seq<Bytes>)
    requires ValidReads(chunks)
    ensures var n := Loop(h, st, buf, chunks).used;
      forall i :: 0 <= i < n ==> Held(h, st, buf, chunks, n)[i] <= MAX_BODY_LEN + 23 + READ_SIZE
  {
    var n := Reads(h, st, buf, chunks, 0);
    ReadsRun(h, st, buf, chunks, 0);
    hide After, Serve, Overflows;
    forall i | 0 <= i < n ensures Held(h, st, buf, chunks, n)[i] <= MAX_BODY_LEN + 23 + READ_SIZE {
      AfterRest(h, st, buf, chunks, i);
    }
  }

  /** The output so far is what was sent before the last read, then the last batch. */
  lemma BatchOutput<S>(h: Handler<S>, st: S, buf: Bytes, chunks: seq<Bytes>, i: nat)
    requires i <= |chunks| && (i > 0 ==> After(h, st, buf, chunks, i - 1).stop.End?)
    ensures After(h, st, buf, chunks, i).out
      == SentBefore(h, st, buf, chunks, i) + LastBatch(h, st, buf, chunks, i).out
  {
    hide After, Serve;
    if i == 0 { AfterStart(h, st, buf, chunks); } else { AfterNext(h, st, buf, chunks, i - 1); }
  }

  /**
   * On bad magic or a handler error exactly the output of the frames completed by the last
   * read is lost.  Everything is sent if and only if those frames have no output.
   */
  lemma DroppedExactly<S>(h: Handler<S>, st: S, buf: Bytes, chunks: seq<Bytes>)
    requires Drops(Loop(h, st, buf, chunks))
    ensures var c, r := Loop(h, st, buf, chunks), Serve(h, st, buf + Joined(chunks));
      var last := LastBatch(h, st, buf, chunks, c.used);
      && r.out == c.written + last.out
      && (c.written == r.out <==> last.out == [])
  {
    ReadsEnd(h, st, buf, chunks);
    hide After, Serve, Overflows, Reads, SentBefore, LastBatch;
    AfterStopped(h, st, buf, chunks, Reads(h, st, buf, chunks, 0));
  }

  lemma AllRead<S>(h: Handler<S>, st: S, buf: Bytes, chunks: seq<Bytes>)
    ensures After(h, st, buf, chunks, |chunks|) == Serve(h, st, buf + Joined(chunks))
  {
    assert chunks[..|chunks|] == chunks;
  }

  lemma EmptyThen<S>(y: Session<S>)
    ensures forall st: S, r: Bytes :: Then(Session(st, [], [], End, r), y) == y
  {
  }

  lemma ServeParsed<S>(h: Handler<S>, st: S, b: Bytes)
    requires TryParse(b).Parsed?
    ensures var p := TryParse(b);
      var a := h(st, p.req);
      var x := Session(a.st, [Handled(p.req)], a.out, if a.ok then End else HandlerErr, b[p.used..]);
      Serve(h, st, b) == if a.ok then Then(x, Serve(h, a.st, b[p.used..])) else x
  {
    hide TryParse;
  }

  lemma EmptyServe<S>(h: Handler<S>, st: S)
    ensures Serve(h, st, []) == Session(st, [], [], End, [])
  {
  }

  // ------------------------------------------------------------------- the guard

  /** Every frame header met in the stream declares a body of at most n bytes. */
  predicate BodiesWithin<S>(h: Handler<S>, st: S, b: Bytes, n: nat)
    decreases |b|
  {
    && (|b| >= HEADER_LEN && b[0] == MAGIC_REQ ==> ParseHeader(b).bodyLen <= n)
    && (!TryParse(b).Incomplete? ==>
          var x := Front(h, st, b);
          x.stop.End? ==> BodiesWithin(h, x.st, x.rest, n))
  }

  lemma {:induction false} ShortRest<S>(h: Handler<S>, st: S, b: Bytes, more: Bytes, n: nat)
    requires BodiesWithin(h, st, b + more, n) && Serve(h, st, b).stop.End?
    ensures |Serve(h, st, b).rest| <= n + 23
    decreases |b|
  {
    hide Front;
    if TryParse(b).Incomplete? {
      if |b| >= HEADER_LEN {
        var c := b + more;
        assert c[0] == b[0] && c[8..12] == b[8..12];
      }
    } else {
      FrontStable(h, st, b, more);
      var x := Front(h, st, b);
      ShortRest(h, x.st, x.rest, more, n);
    }
  }

  lemma GuardSafe<S>(h: Handler<S>, st: S, buf: Bytes, chunks: seq<Bytes>, i: nat, n: nat)
    requires ValidReads(chunks) && i < |chunks|
    requires BodiesWithin(h, st, buf + Joined(chunks), n) && n <= MAX_BODY_LEN - 12_287
    ensures !Overflows(h, st, buf, chunks, i)
  {
    JoinedSplit(chunks, i);
    assert buf + Joined(chunks) == (buf + Joined(chunks[..i])) + Joined(chunks[i..]);
    if After(h, st, buf, chunks, i).stop.End? {
      ShortRest(h, st, buf + Joined(chunks[..i]), Joined(chunks[i..]), n);
    }
  }

  /** Reads of full size covering b, a shorter one first. */
  function Pieces(b: Bytes): seq<Bytes>
    requires b != []
  {
    if |b| <= READ_SIZE then [b] else Pieces(b[..|b| - READ_SIZE]) + [b[|b| - READ_SIZE..]]
  }

  lemma EmptyJoined()
    ensures Joined([]) == []
  {
  }

  lemma JoinedSnoc(a: seq<Bytes>, x: Bytes)
    ensures Joined(a + [x]) == Joined(a) + x
  {
  }

  lemma {:induction false} PiecesJoin(b: Bytes)
    requires b != []
    ensures ValidReads(Pieces(b)) && Joined(Pieces(b)) == b
  {
    hide Joined;
    if |b| <= READ_SIZE {
      JoinedSnoc([], b);
      EmptyJoined();
      assert [] + [b] == [b];
    } else {
      var init, last := b[..|b| - READ_SIZE], b[|b| - READ_SIZE..];
      PiecesJoin(init);
      JoinedSnoc(Pieces(init), last);
      assert init + last == b;
    }
  }

  /** A frame with a body of n zero bytes, then a full read's worth of zeros. */
  function LargeStream(n: nat): Bytes {
    Frame(0x01, 0, 0, [], [], seq(n, _ => 0)) + seq(READ_SIZE - 1, _ => 0)
  }

  lemma LargeLength(n: nat)
    ensures |LargeStream(n)| == HEADER_LEN + n + READ_SIZE - 1
  {
  }

  lemma LargeParses(n: nat, cut: nat)
    requires n <= MAX_BODY_LEN && HEADER_LEN <= cut <= |LargeStream(n)|
    ensures var b := LargeStream(n)[..cut];
      && b[0] == MAGIC_REQ && ParseHeader(b).bodyLen == n
      && (cut < HEADER_LEN + n ==> TryParse(b).Incomplete?)
    ensures TryParse(LargeStream(n)).Parsed? && TryParse(LargeStream(n)).used == HEADER_LEN + n
    ensures LargeStream(n)[HEADER_LEN + n..][0] == 0
  {
    hide BigEndian, Header24;
    var v: Bytes := seq(n, _ => 0);
    var pad: Bytes := seq(READ_SIZE - 1, _ => 0);
    var s := LargeStream(n);
    var b := s[..cut];
    Widths();
    ParseBuilt(0x01, 0, 0, [], [], v, pad);
    assert [] + [] + v == v;
    assert s == Header24(MAGIC_REQ, 0x01, 0, 0, 0, n, 0, 0) + (v + pad);
    HeaderFields(MAGIC_REQ, 0x01, 0, 0, 0, n, 0, 0, v + pad);
    BigEndianRoundTrip(0, 2);
    BigEndianRoundTrip(n, 4);
    assert b[0] == s[0] && b[2..4] == s[2..4] && b[8..12] == s[8..12];
  }

  /** The stream's only frame announces n bytes, and what follows it is not a frame. */
  lemma LargeBodies<S>(h: Handler<S>, st: S, n: nat)
    requires n <= MAX_BODY_LEN
    ensures BodiesWithin(h, st, LargeStream(n), n)
  {
    hide ParseHeader, LargeStream;
    var s := LargeStream(n);
    LargeLength(n);
    LargeParses(n, |s|);
    assert s[..|s|] == s;
    var x := Front(h, st, s);
    if x.stop.End? {
      assert x.rest == s[HEADER_LEN + n..];
      assert TryParse(x.rest).BadMagic?;
    }
  }

  /** A frame whose body exceeds the limit is refused under some chunking, though complete. */
  lemma GuardFires<S>(h: Handler<S>, st: S, n: nat) returns (chunks: seq<Bytes>, i: nat)
    requires MAX_BODY_LEN - 12_287 < n <= MAX_BODY_LEN
    ensures ValidReads(chunks) && BodiesWithin(h, st, [] + Joined(chunks), n)
    ensures i < |chunks| && Overflows(h, st, [], chunks, i)
  {
    hide TryParse, LargeStream, BodiesWithin, Joined, Pieces, ValidReads, Overflows;
    var s := LargeStream(n);
    LargeLength(n);
    LargeBodies(h, st, n);
    LargeParses(n, n + 23);
    var front, last := s[..n + 23], s[n + 23..];
    PiecesJoin(front);
    chunks := Pieces(front) + [last];
    i := |Pieces(front)|;
    JoinedSnoc(Pieces(front), last);
    assert front + last == s && [] + s == s;
    LastReadOverflows(h, st, Pieces(front), last, front);
  }

  lemma LastReadOverflows<S>(h: Handler<S>, st: S, pieces: seq<Bytes>, last: Bytes, front: Bytes)
    requires ValidReads(pieces) && Joined(pieces) == front && TryParse(front).Incomplete?
    requires 1 <= |last| <= READ_SIZE && |front| + |last| > MAX_READ_BUF
    ensures ValidReads(pieces + [last]) && Overflows(h, st, [], pieces + [last], |pieces|)
  {
    hide TryParse, Joined;
    assert (pieces + [last])[..|pieces|] == pieces;
    assert [] + Joined(pieces) == front;
  }

  /**
   * The buffer guard never fires, whatever the chunking, exactly when frame bodies are
   * limited to MAX_BODY_LEN - 12287 bytes.
   */
  lemma GuardExactly<S>(h: Handler<S>, st: S, n: nat)
    requires n <= MAX_BODY_LEN
    ensures (forall chunks: seq<Bytes>, i: nat ::
               ValidReads(chunks) && i < |chunks| && BodiesWithin(h, st, [] + Joined(chunks), n) ==>
                 !Overflows(h, st, [], chunks, i))
            <==> n <= MAX_BODY_LEN - 12_287
  {
    if n <= MAX_BODY_LEN - 12_287 {
      forall chunks: seq<Bytes>, i: nat
        | ValidReads(chunks) && i < |chunks| && BodiesWithin(h, st, [] + Joined(chunks), n)
        ensures !Overflows(h, st, [], chunks, i)
      {
        GuardSafe(h, st, [], chunks, i, n);
      }
    } else {
      var chunks, i := GuardFires(h, st, n);
    }
  }
}
