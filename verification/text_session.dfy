// Text sessions over the store: the handler that the text loop runs, its refinement over the
// Redis keyspace, and the output of a whole session.

module TextSession {
  import opened ByteStrings
  import opened StoreSpec
  import opened FrontEnds
  import opened RedisScripts
  import opened TextConn
  import X = TextHandlers
  import H = MetaHandlers

  /** The general statistics, and the message for a line that does not parse. */
  datatype Texts = Texts(stats: X.Stats, badLine: Bytes -> Bytes)

  const TOO_LARGE: Bytes := Ascii("CLIENT_ERROR object too large for cache")
  const BAD_CHUNK: Bytes := Ascii("CLIENT_ERROR bad data chunk")
  const TOO_LONG: Bytes := Ascii("CLIENT_ERROR line too long")
  const ERROR: Bytes := Ascii("ERROR")

  /** What becomes of one item: a command runs its scripts, the rest is answered by a line. */
  function Handle(s: State, d: TextConn.Done, texts: Texts): TextConn.Answer<State> {
    match d
    case Ran(Classic(cmd), data) =>
      TextConn.Answer(RunAll(s, ClassicSteps(cmd, Or(data, []))).s, X.ClassicOutput(s, cmd, Or(data, []), texts.stats),
                      !cmd.Quit?)
    case Ran(Meta(cmd), data) =>
      var o := RunAll(s, MetaSteps(cmd, Or(data, [])));
      TextConn.Answer(o.s, H.MetaAnswer(cmd, o.r), true)
    case TooLarge(_, quiet) => TextConn.Answer(s, X.Say(quiet, TOO_LARGE), true)
    case BadChunk(_, quiet) => TextConn.Answer(s, X.Say(quiet, BAD_CHUNK), true)
    case NoCommand => TextConn.Answer(s, ERROR + X.CRLF, true)
    case NotParsed(line) => TextConn.Answer(s, H.CLIENT_ERROR + texts.badLine(line) + X.CRLF, true)
    case LineTooLong => TextConn.Answer(s, TOO_LONG + X.CRLF, true)
  }

  function Handler(texts: Texts): TextConn.Handler<State> {
    (s: State, d: TextConn.Done) => Handle(s, d, texts)
  }

  /** The dispatcher over the keyspace has the state, output and verdict of the handler. */
  method HandleItem(redis: Redis, d: TextConn.Done, batches: seq<seq<Bytes>>, texts: Texts, out: Bytes)
    returns (out': Bytes, ok: bool)
    requires redis.Valid() && AllItemKeys(Flat(batches)) && redis.Abs.items.Keys <= KeySet(Flat(batches))
    modifies redis
    ensures redis.Valid() && redis.Foreign == old(redis.Foreign)
    ensures var a := Handle(old(redis.Abs), d, texts);
      redis.Abs == a.st && out' == out + a.out && ok == a.ok
  {
    hide Redis.Valid, X.ClassicOutput, H.MetaAnswer, RunAll, ClassicSteps, MetaSteps;
    out', ok := out, true;
    match d
    case Ran(Classic(cmd), data) =>
      out', ok := X.DispatchClassic(redis, cmd, Or(data, []), batches, texts.stats, out);
    case Ran(Meta(cmd), data) => out' := H.DispatchMeta(redis, cmd, Or(data, []), out);
    case TooLarge(_, quiet) => if !quiet { out' := out + TOO_LARGE + X.CRLF; }
    case BadChunk(_, quiet) => if !quiet { out' := out + BAD_CHUNK + X.CRLF; }
    case NoCommand => out' := out + ERROR + X.CRLF;
    case NotParsed(line) => out' := out + H.CLIENT_ERROR + texts.badLine(line) + X.CRLF;
    case LineTooLong => out' := out + TOO_LONG + X.CRLF;
  }

  /** An item of a session, the store it met and what it put on the wire. */
  datatype Turn = Turn(item: TextConn.Done, s: State, sent: Bytes)

  /** The turns of a stream, in request order; the answer to quit is not sent. */
  function Turns(s: State, b: Bytes, texts: Texts): seq<Turn>
    decreases |b|
  {
    match FrontOf(b)
    case NeedLine => []
    case NeedBlock(_, _) => []
    case Item(None, used) => Turns(s, b[used..], texts)
    case Item(Some(d), used) =>
      var a := Handle(s, d, texts);
      [Turn(d, s, if a.ok then a.out else [])] + if a.ok then Turns(a.st, b[used..], texts) else []
  }

  function Sent(ts: seq<Turn>): Bytes {
    if ts == [] then [] else ts[0].sent + Sent(ts[1..])
  }

  /** The output of a session is what its items put on the wire, in order. */
  lemma {:induction false} TurnsAreTheSession(s: State, b: Bytes, texts: Texts)
    ensures var r, ts := TextConn.Serve(Handler(texts), s, b), Turns(s, b, texts);
      && r.out == Sent(ts)
      && |r.seen| == |ts| && (forall i :: 0 <= i < |ts| ==> ts[i].item == r.seen[i])
    decreases |b|
  {
    hide FrontOf, Handle;
    match FrontOf(b) {
      case Item(what, used) =>
        var x := Act(Handler(texts), s, what);
        if what.None? {
          TurnsAreTheSession(s, b[used..], texts);
          TextConn.EmptyThen(TextConn.Serve(Handler(texts), s, b[used..]));
        } else {
          var ts := Turns(s, b, texts);
          if x.stop.EndOfLines? {
            TurnsAreTheSession(x.st, b[used..], texts);
            assert ts[1..] == Turns(x.st, b[used..], texts);
          } else {
            assert ts[1..] == [] && ts[0].sent + [] == ts[0].sent;
          }
        }
      case _ =>
    }
  }
}
