// A whole connection: protocol detection on the first byte that is not a line break, then
// the session of that protocol over the rest of the stream.

module Sessions {
  import opened ByteStrings
  import Frames
  import BinaryConn
  import TextConn

  datatype Protocol = Silent | Binary | Text | Foreign

  predicate LineBreak(b: byte) { b == CR || b == LF }

  function SkipBreaks(b: Bytes): (r: Bytes)
    ensures |r| <= |b| && (r != [] ==> !LineBreak(r[0]))
  {
    if b != [] && LineBreak(b[0]) then SkipBreaks(b[1..]) else b
  }

  /** The protocol of a connection, from its whole input. */
  function ProtocolOf(stream: Bytes): Protocol {
    var b := SkipBreaks(stream);
    if b == [] then Silent
    else if b[0] == Frames.MAGIC_REQ then Binary
    else if 0x20 <= b[0] <= 0x7E then Text
    else Foreign
  }

  /** Line breaks in front of anything else are skipped, however many, and only those. */
  lemma {:induction false} SkipBreaksExactly(breaks: Bytes, rest: Bytes)
    requires forall i :: 0 <= i < |breaks| ==> LineBreak(breaks[i])
    requires rest == [] || !LineBreak(rest[0])
    ensures SkipBreaks(breaks + rest) == rest
  {
    if breaks == [] {
      assert breaks + rest == rest;
    } else {
      SkipBreaksExactly(breaks[1..], rest);
      assert (breaks + rest)[1..] == breaks[1..] + rest;
    }
  }

  lemma {:induction false} SkipMore(b: Bytes, more: Bytes)
    ensures SkipBreaks(b + more) == if SkipBreaks(b) == [] then SkipBreaks(more) else SkipBreaks(b) + more
  {
    if b == [] {
      assert b + more == more;
    } else if LineBreak(b[0]) {
      SkipMore(b[1..], more);
      assert (b + more)[1..] == b[1..] + more;
    }
  }

  /** How many reads detection makes, from the i-th on: until something but line breaks is read. */
  function Awaited(chunks: seq<Bytes>, i: nat): (n: nat)
    requires i <= |chunks|
    ensures i <= n <= |chunks|
    decreases |chunks| - i
  {
    if i == |chunks| || SkipBreaks(BinaryConn.Joined(chunks[..i])) != [] then i else Awaited(chunks, i + 1)
  }

  /** What detection hands on: the buffer, and the reads still to be made. */
  function FirstBuffer(chunks: seq<Bytes>): Bytes {
    SkipBreaks(BinaryConn.Joined(chunks[..Awaited(chunks, 0)]))
  }

  function LaterReads(chunks: seq<Bytes>): seq<Bytes> { chunks[Awaited(chunks, 0)..] }

  /** The detection loop of `handle_conn`. */
  method DetectProtocol(chunks: seq<Bytes>) returns (p: Protocol, buf: Bytes, used: nat)
    requires BinaryConn.ValidReads(chunks)
    ensures used == Awaited(chunks, 0) && buf == FirstBuffer(chunks) && |buf| <= BinaryConn.READ_SIZE
    ensures p == ProtocolOf(BinaryConn.Joined(chunks))
    ensures TextConn.Remaining(buf, chunks, used) == SkipBreaks(BinaryConn.Joined(chunks))
  {
    hide TextConn.Remaining, BinaryConn.Joined;
    buf, used := [], 0;
    ghost var stream := BinaryConn.Joined(chunks);
    TextConn.StartRemaining([], chunks);
    assert [] + stream == stream;
    NothingRead(chunks);
    while true
      invariant used <= |chunks| && buf == []
      invariant SkipBreaks(TextConn.Remaining(buf, chunks, used)) == SkipBreaks(stream)
      invariant SkipBreaks(BinaryConn.Joined(chunks[..used])) == []
      invariant Awaited(chunks, 0) == Awaited(chunks, used)
      decreases |chunks| - used
    {
      if used == |chunks| {
        TextConn.AllConsumed(buf, chunks);
        return Silent, buf, used;
      }
      TextConn.ReadOne(buf, chunks, used);
      BreaksSoFar(chunks, used);
      buf := buf + chunks[used];
      used := used + 1;
      assert buf == chunks[used - 1];
      while buf != [] && LineBreak(buf[0])
        invariant |buf| <= BinaryConn.READ_SIZE
        invariant SkipBreaks(TextConn.Remaining(buf, chunks, used)) == SkipBreaks(stream)
        invariant SkipBreaks(buf) == SkipBreaks(BinaryConn.Joined(chunks[..used]))
        decreases |buf|
      {
        DropBreak(buf, chunks, used);
        buf := buf[1..];
      }
      if buf != [] {
        FirstByte(buf, chunks, used);
        if buf[0] == Frames.MAGIC_REQ { return Binary, buf, used; }
        if 0x20 <= buf[0] <= 0x7E { return Text, buf, used; }
        return Foreign, buf, used;
      }
    }
  }

  lemma NothingRead(chunks: seq<Bytes>)
    ensures SkipBreaks(BinaryConn.Joined(chunks[..0])) == []
  {
  }

  /** As long as only line breaks were read, they do not count. */
  lemma BreaksSoFar(chunks: seq<Bytes>, i: nat)
    requires i < |chunks| && SkipBreaks(BinaryConn.Joined(chunks[..i])) == []
    ensures SkipBreaks(BinaryConn.Joined(chunks[..i + 1])) == SkipBreaks(chunks[i])
  {
    hide SkipBreaks;
    assert chunks[..i + 1] == chunks[..i] + [chunks[i]];
    BinaryConn.JoinedSnoc(chunks[..i], chunks[i]);
    SkipMore(BinaryConn.Joined(chunks[..i]), chunks[i]);
  }

  lemma DropBreak(buf: Bytes, chunks: seq<Bytes>, used: nat)
    requires used <= |chunks| && buf != [] && LineBreak(buf[0])
    ensures SkipBreaks(TextConn.Remaining(buf, chunks, used)) == SkipBreaks(TextConn.Remaining(buf[1..], chunks, used))
  {
    var t := TextConn.Remaining(buf, chunks, used);
    assert t[1..] == TextConn.Remaining(buf[1..], chunks, used);
  }

  lemma FirstByte(buf: Bytes, chunks: seq<Bytes>, used: nat)
    requires used <= |chunks| && buf != [] && !LineBreak(buf[0])
    ensures var t := TextConn.Remaining(buf, chunks, used);
      t != [] && t[0] == buf[0] && SkipBreaks(t) == t
  {
  }

  lemma GuardFiredOnLarge<S>(h: BinaryConn.Handler<S>, st: S, buf: Bytes, chunks: seq<Bytes>)
    requires BinaryConn.ValidReads(chunks)
    requires exists i :: 0 <= i < |chunks| && BinaryConn.Overflows(h, st, buf, chunks, i)
    ensures !BinaryConn.BodiesWithin(h, st, buf + BinaryConn.Joined(chunks), Frames.MAX_BODY_LEN - 12_287)
  {
    var i :| 0 <= i < |chunks| && BinaryConn.Overflows(h, st, buf, chunks, i);
    if BinaryConn.BodiesWithin(h, st, buf + BinaryConn.Joined(chunks), Frames.MAX_BODY_LEN - 12_287) {
      BinaryConn.GuardSafe(h, st, buf, chunks, i, Frames.MAX_BODY_LEN - 12_287);
    }
  }

  datatype Ending = Quiet | Refused | BinaryEnd(how: BinaryConn.ConnEnd) | TextEnd(why: TextConn.ConnEnd)

  /** What a connection has done: frames of a binary session or items of a text session. */
  datatype Served = Served(frames: seq<BinaryConn.Seen>, items: seq<TextConn.Done>)

  /**
   * `handle_conn`.  After detection a binary stream goes through the binary loop: it is served
   * as in one pass over it unless the guard fires, which it does not on bodies within the
   * limit, and what is lost on bad magic or a handler error is exactly the output of the last
   * read.  A calm text stream is served as in one pass, whatever the reads.
   */
  method HandleConn<S>(hb: BinaryConn.Handler<S>, ht: TextConn.Handler<S>, st0: S, chunks: seq<Bytes>)
    returns (st: S, served: Served, written: Bytes, end: Ending, used: nat)
    requires BinaryConn.ValidReads(chunks)
    ensures var stream := BinaryConn.Joined(chunks);
      var rest := SkipBreaks(stream);
      match ProtocolOf(stream)
      case Silent => end.Quiet? && st == st0 && written == [] && served == Served([], [])
      case Foreign => end.Refused? && st == st0 && written == [] && served == Served([], [])
      case Binary =>
        var buf, later := FirstBuffer(chunks), LaterReads(chunks);
        var c, r := BinaryConn.Loop(hb, st0, buf, later), BinaryConn.Serve(hb, st0, rest);
        && end.BinaryEnd? && c == BinaryConn.Conn(st, served.frames, written, end.how, used)
        && BinaryConn.Conforms(c, r) && c.used <= |later|
        && (BinaryConn.Drops(c) ==>
              r.out == written + BinaryConn.LastBatch(hb, st0, buf, later, used).out)
        && (BinaryConn.BodiesWithin(hb, st0, rest, Frames.MAX_BODY_LEN - 12_287) ==> !end.how.GuardFired?)
      case Text =>
        var r := TextConn.Serve(ht, st0, rest);
        end.TextEnd? && (TextConn.Calm(ht, st0, rest) ==>
          st == r.st && served.items == r.seen && written == r.out)
  {
    hide BinaryConn.Loop, BinaryConn.Conforms, BinaryConn.Drops, BinaryConn.LastBatch, BinaryConn.Serve;
    hide BinaryConn.Overflows, Awaited, TextConn.Serve, TextConn.Calm, BinaryConn.BodiesWithin, BinaryConn.Held;
    var p, buf, n := DetectProtocol(chunks);
    st, served, written, used := st0, Served([], []), [], 0;
    match p {
      case Silent => end := Quiet;
      case Foreign => end := Refused;
      case Binary =>
        var seen, e;
        ghost var held;
        st, seen, written, e, used, held := BinaryConn.HandleBinaryConn(hb, st0, buf, chunks[n..]);
        end, served := BinaryEnd(e), Served(seen, []);
        if e.GuardFired? { GuardFiredOnLarge(hb, st0, buf, chunks[n..]); }
        ghost var c := BinaryConn.Loop(hb, st0, buf, chunks[n..]);
        if BinaryConn.Drops(c) { BinaryConn.DroppedExactly(hb, st0, buf, chunks[n..]); }
      case Text =>
        var seen, e;
        st, seen, written, e := TextConn.HandleAsciiConn(ht, st0, buf, chunks[n..]);
        end, served := TextEnd(e), Served([], seen);
    }
  }
}
