// Runs of events that handlers issue, from the empty store: what they never store, and what
// clients can therefore always decode.

module Reachable {
  import opened ByteStrings
  import opened StoreSpec
  import opened FrontEnds
  import opened TextTokens
  import A = AsciiCommands
  import B = BinaryDispatch
  import F = Frames
  import M = MetaCommands
  import T = Retrieval

  const EMPTY: State := State(map[], 0, 0)

  /** An event some handler issues, or the passing of time. */
  ghost predicate Issuable(e: Event) {
    || e.ETick? || e.ENextCas?
    || (exists op, req :: B.ScriptOf(op, req) == Some(e))
    || (exists cmd, data :: e in ClassicSteps(cmd, data))
    || (exists cmd, data :: e in MetaSteps(cmd, data))
  }

  lemma BinaryPlain(op: B.Opcode, req: F.Request)
    ensures B.ScriptOf(op, req).Some? ==> T.PlainEvent(B.ScriptOf(op, req).value)
  {
    hide Dec, FromBigEndian;
    if |req.extras| == 8 { T.DigitsAreField(FromBigEndian(req.extras[..4])); }
  }

  lemma ClassicPlain(cmd: A.AsciiCmd, data: Bytes, e: Event)
    requires e in ClassicSteps(cmd, data)
    ensures T.PlainEvent(e)
  {
    hide Dec;
    if cmd.Store? || cmd.Cas? { T.DigitsAreField(cmd.flags); }
  }

  /** A flag's token that was validated as a number has no blanks. */
  lemma {:induction false} NumericToken(fs: seq<M.MetaFlag>, ch: byte, numeric: Bytes)
    requires M.NumericTokens(fs, numeric) && ch in numeric && M.FlagToken(fs, ch).Some?
    ensures ParseUint(M.FlagToken(fs, ch).value, U64_MAX).Some?
  {
    if fs[0].ch != ch { NumericToken(fs[1..], ch, numeric); }
  }

  lemma NumberIsField(b: Bytes)
    requires ParseUint(b, U64_MAX).Some?
    ensures T.Field(b)
  {
    var d := if b != [] && b[0] == PLUS then b[1..] else b;
    forall i | 0 <= i < |b| ensures b[i] > SPACE {
      if b[0] == PLUS && i > 0 { assert d[i - 1] == b[i]; }
    }
  }

  lemma MetaPlain(cmd: M.MetaCmd, data: Bytes, e: Event)
    requires e in MetaSteps(cmd, data)
    ensures T.PlainEvent(e)
  {
    hide M.FlagToken, ParseUint, Num, Dec;
    if cmd.MSet? && M.FlagToken(cmd.flags, M.CH_F).Some? {
      assert M.CH_F in Ascii("FTC") by { assert Ascii("FTC")[0] == M.CH_F; }
      NumericToken(cmd.flags, M.CH_F, Ascii("FTC"));
      NumberIsField(M.FlagToken(cmd.flags, M.CH_F).value);
    }
    assert T.Field(NO_CAS);
  }

  lemma IssuablePlain(e: Event)
    requires Issuable(e)
    ensures T.PlainEvent(e)
  {
    hide B.ScriptOf, ClassicSteps, MetaSteps, T.PlainEvent;
    if op, req :| B.ScriptOf(op, req) == Some(e) {
      BinaryPlain(op, req);
    } else if cmd, data :| e in ClassicSteps(cmd, data) {
      ClassicPlain(cmd, data, e);
    } else if cmd, data :| e in MetaSteps(cmd, data) {
      MetaPlain(cmd, data, e);
    } else {
      NoFlags(e);
    }
  }

  lemma NoFlags(e: Event)
    requires e.ETick? || e.ENextCas?
    ensures T.PlainEvent(e)
  {
  }

  /** In every state that handlers can reach, stored flags are plain. */
  lemma ReachablePlain(es: seq<Event>, i: nat)
    requires i <= |es| && forall m :: 0 <= m < i ==> Issuable(es[m])
    ensures T.PlainFlags(At(EMPTY, es, i))
  {
    hide Issuable;
    forall m | 0 <= m < i ensures T.PlainEvent(es[m]) { IssuablePlain(es[m]); }
    T.RunPlainFlags(EMPTY, es, i);
  }

  /** So clients of get, gets, gat and gats decode the store's hits in every reachable state. */
  lemma ReachableRetrievals(es: seq<Event>, i: nat, exp: Option<nat>, keys: seq<Bytes>, withCas: bool, rest: Bytes)
    requires i <= |es| && forall m :: 0 <= m < i ==> Issuable(es[m])
    requires forall m :: 0 <= m < |keys| ==> ValidKey(keys[m])
    ensures var xs := T.Hits(At(EMPTY, es, i), exp, keys);
      T.Decode(T.Reply(xs, withCas) + rest, withCas) == Some((T.Views(xs, withCas), rest))
  {
    hide Issuable, T.PlainFlags;
    ReachablePlain(es, i);
    T.RetrievalDecodes(At(EMPTY, es, i), exp, keys, withCas, rest);
  }
}
