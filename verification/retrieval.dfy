// The reply to get, gets, gat and gats: a client can always decode it.

module Retrieval {
  import opened ByteStrings
  import opened Doubles
  import opened StoreSpec
  import opened TextTokens
  import RedisScripts
  import Hex

  /** What a client learns about one key. */
  datatype Found = Found(key: Bytes, flags: Bytes, value: Bytes, cas: nat)

  const VALUE_: Bytes := Ascii("VALUE ")
  const END: Bytes := Ascii("END") + CRLF
  const CRLF: Bytes := [CR, LF]

  function Header(x: Found, withCas: bool): Bytes {
    VALUE_ + x.key + [SPACE] + x.flags + [SPACE] + Dec(|x.value|)
    + (if withCas then [SPACE] + LuaText(x.cas) else []) + CRLF
  }

  function Entry(x: Found, withCas: bool): Bytes { Header(x, withCas) + x.value + CRLF }

  function Entries(xs: seq<Found>, withCas: bool): Bytes {
    if xs == [] then [] else Entries(xs[..|xs| - 1], withCas) + Entry(xs[|xs| - 1], withCas)
  }

  /** The whole reply. */
  function Reply(xs: seq<Found>, withCas: bool): Bytes { Entries(xs, withCas) + END }

  // ---------------------------------------------------------------- the handler

  /** The step `ascii_retrieval` takes for one key. */
  function StepFor(exp: Option<nat>, k: Bytes): Event {
    var rk := RedisScripts.MakeRedisKey(k);
    if exp.Some? then EGat(rk, exp.value) else EGet(rk)
  }

  function Visit(s: State, exp: Option<nat>, keys: seq<Bytes>): State {
    if keys == [] then s
    else Step(Visit(s, exp, keys[..|keys| - 1]), StepFor(exp, keys[|keys| - 1])).s
  }

  /** The hits, in request order. */
  function Hits(s: State, exp: Option<nat>, keys: seq<Bytes>): seq<Found> {
    if keys == [] then []
    else
      var n := |keys| - 1;
      var k, before := keys[n], Hits(s, exp, keys[..n]);
      match Step(Visit(s, exp, keys[..n]), StepFor(exp, k)).r
      case Hit(v, f, cas) => before + [Found(k, f, v, cas)]
      case _ => before
  }

  lemma {:induction false} EntriesSnoc(xs: seq<Found>, x: Found, withCas: bool)
    ensures Entries(xs + [x], withCas) == Entries(xs, withCas) + Entry(x, withCas)
  {
  }

  /** `ascii_retrieval`: one script call per key, one entry per hit. */
  method AsciiRetrieval(redis: RedisScripts.Redis, withCas: bool, exp: Option<nat>, keys: seq<Bytes>)
    returns (out: Bytes)
    requires redis.Valid()
    modifies redis
    ensures redis.Valid() && redis.Foreign == old(redis.Foreign)
    ensures redis.Abs == Visit(old(redis.Abs), exp, keys)
    ensures out == Reply(Hits(old(redis.Abs), exp, keys), withCas)
  {
    hide RedisScripts.Redis.Valid, Entry, Entries, LuaText, Dec, Hex.HexText;
    ghost var s := redis.Abs;
    out := [];
    assert Entries([], withCas) == [] by { NoEntries(withCas); }
    for i := 0 to |keys|
      invariant redis.Valid() && redis.Foreign == old(redis.Foreign)
      invariant redis.Abs == Visit(s, exp, keys[..i])
      invariant out == Entries(Hits(s, exp, keys[..i]), withCas)
    {
      var k := keys[i];
      ghost var before := Hits(s, exp, keys[..i]);
      assert keys[..i + 1][..i] == keys[..i];
      RedisScripts.NamespaceIsolated(k, k);
      var rk := RedisScripts.MakeRedisKey(k);
      var found, hex, f, c;
      if exp.Some? {
        found, hex, f, c := redis.LuaGat(rk, exp.value);
      } else {
        found, hex, f, c := redis.LuaGet(rk);
      }
      if found {
        var value := Hex.HexDecode(hex);
        ghost var r := Step(Visit(s, exp, keys[..i]), StepFor(exp, k)).r;
        Hex.HexRoundTrip(r.v);
        ghost var x := Found(k, f, value, r.cas);
        var e := VALUE_ + k + [SPACE] + f + [SPACE] + Dec(|value|);
        if withCas { e := e + [SPACE] + c; }
        e := e + CRLF + value + CRLF;
        EntryShape(x, withCas, e);
        EntriesSnoc(before, x, withCas);
        out := out + e;
      }
    }
    assert keys[..|keys|] == keys;
    out := out + END;
  }

  lemma NoEntries(withCas: bool)
    ensures Entries([], withCas) == []
  {
  }

  lemma EntryShape(x: Found, withCas: bool, e: Bytes)
    requires e == if withCas
                  then VALUE_ + x.key + [SPACE] + x.flags + [SPACE] + Dec(|x.value|)
                       + [SPACE] + LuaText(x.cas) + CRLF + x.value + CRLF
                  else VALUE_ + x.key + [SPACE] + x.flags + [SPACE] + Dec(|x.value|) + CRLF + x.value + CRLF
    ensures e == Entry(x, withCas)
  {
  }

  // ------------------------------------------------------------------ a decoder

  /** The bytes before the first c, and the bytes after it. */
  function ReadField(b: Bytes, c: byte): (r: Option<(Bytes, Bytes)>)
    ensures r.Some? ==> |r.value.1| < |b|
  {
    if b == [] then None
    else if b[0] == c then Some(([], b[1..]))
    else
      match ReadField(b[1..], c)
      case None => None
      case Some((f, rest)) => Some(([b[0]] + f, rest))
  }

  lemma {:induction false} ReadFieldBack(f: Bytes, c: byte, rest: Bytes)
    requires c !in f
    ensures ReadField(f + [c] + rest, c) == Some((f, rest))
  {
    var b := f + [c] + rest;
    if f == [] {
      assert b[1..] == rest;
    } else {
      assert b[1..] == f[1..] + [c] + rest;
      ReadFieldBack(f[1..], c, rest);
      assert f == [f[0]] + f[1..];
    }
  }

  /** What a client is told about one key; the token as text, for `gets` and `gats`. */
  datatype View = View(key: Bytes, flags: Bytes, value: Bytes, token: Option<Bytes>)

  /** A length on the wire. */
  function Length(text: Bytes): Option<nat> {
    if text != [] && AllDigits(text) then Some(DigitsValue(text)) else None
  }

  lemma LengthBack(n: nat)
    ensures Length(Dec(n)) == Some(n)
  {
    DecValue(n);
  }

  /** One entry: fields of the header line, then exactly the announced number of bytes. */
  function DecodeEntry(b: Bytes, withCas: bool): (r: Option<(View, Bytes)>)
    ensures r.Some? ==> |r.value.1| < |b|
  {
    if !(VALUE_ <= b) then None
    else
      match ReadField(b[6..], SPACE)
      case None => None
      case Some((key, b1)) =>
        match ReadField(b1, SPACE)
        case None => None
        case Some((flags, b2)) => DecodeTail(key, flags, b2, withCas)
  }

  function DecodeTail(key: Bytes, flags: Bytes, b2: Bytes, withCas: bool): (r: Option<(View, Bytes)>)
    ensures r.Some? ==> |r.value.1| < |b2|
  {
    match ReadField(b2, if withCas then SPACE else CR)
    case None => None
    case Some((len, b3)) =>
      if !withCas then DecodeData(key, flags, len, None, b3)
      else
        match ReadField(b3, CR)
        case None => None
        case Some((token, b4)) => DecodeData(key, flags, len, Some(token), b4)
  }

  function DecodeData(key: Bytes, flags: Bytes, len: Bytes, token: Option<Bytes>, b: Bytes): (r: Option<(View, Bytes)>)
    ensures r.Some? ==> |r.value.1| <= |b|
  {
    var n := Length(len);
    if n.None? || |b| < 1 + n.value + 2 || b[0] != LF || b[1 + n.value..1 + n.value + 2] != CRLF then None
    else Some((View(key, flags, b[1..1 + n.value], token), b[1 + n.value + 2..]))
  }

  /** Entries up to END, and what follows it. */
  function Decode(b: Bytes, withCas: bool): Option<(seq<View>, Bytes)>
    decreases |b|
  {
    if END <= b then Some(([], b[|END|..]))
    else
      match DecodeEntry(b, withCas)
      case None => None
      case Some((x, more)) =>
        match Decode(more, withCas)
        case None => None
        case Some((xs, rest)) => Some(([x] + xs, rest))
  }

  predicate Field(b: Bytes) { forall i :: 0 <= i < |b| ==> b[i] > SPACE }

  /** Keys and flag texts without blanks; values are arbitrary. */
  predicate Decodable(x: Found) { Field(x.key) && Field(x.flags) }

  /** The client's view of a hit: without `s` in the command, no token. */
  function ViewOf(x: Found, withCas: bool): View {
    View(x.key, x.flags, x.value, if withCas then Some(LuaText(x.cas)) else None)
  }

  lemma DigitsAreField(n: nat)
    ensures Field(Dec(n)) && SPACE !in Dec(n) && CR !in Dec(n)
  {
  }

  lemma StripField(b: Bytes)
    requires Field(b)
    ensures Field(StripZeros(b))
  {
  }

  /** Token texts hold no blanks, in decimal or in scientific notation. */
  lemma LuaTextField(n: nat)
    ensures Field(LuaText(n))
  {
    hide Dec, ToDouble, Leading14, Scientific;
    var d := ToDouble(n);
    DigitsAreField(d);
    if d >= LUA_EXACT {
      DigitsMono(LUA_EXACT, d);
      ScientificField(d);
    }
  }

  lemma ScientificField(d: nat)
    requires Digits(d) >= 15
    ensures Field(Scientific(d))
  {
    hide Dec, Digits, Leading14;
    var q := Leading14(d);
    var e := Digits(d) - 14 + Digits(q) - 1;
    DigitsAreField(q);
    DigitsAreField(e);
    StripField(Dec(q)[1..]);
    assert Field(Mantissa(q)) && Field(Exponent(e));
  }

  lemma DecodesBack(x: Found, withCas: bool, rest: Bytes)
    requires Decodable(x)
    ensures DecodeEntry(Entry(x, withCas) + rest, withCas) == Some((ViewOf(x, withCas), rest))
  {
    hide LuaText, Dec, ReadField, Length;
    var b := Entry(x, withCas) + rest;
    var body := [LF] + x.value + CRLF + rest;
    var len := Dec(|x.value|);
    DigitsAreField(|x.value|);
    LengthBack(|x.value|);
    assert body[1..1 + |x.value|] == x.value;
    assert body[1 + |x.value|..1 + |x.value| + 2] == CRLF && body[1 + |x.value| + 2..] == rest;
    if withCas {
      LuaTextField(x.cas);
      var b3 := LuaText(x.cas) + [CR] + body;
      var b2 := len + [SPACE] + b3;
      ReadFieldBack(LuaText(x.cas), CR, body);
      ReadFieldBack(len, SPACE, b3);
      FrontFields(x, b, b2, LuaText(x.cas), withCas, rest);
    } else {
      var b2 := len + [CR] + body;
      ReadFieldBack(len, CR, body);
      FrontFields(x, b, b2, [], withCas, rest);
    }
  }

  lemma FrontFields(x: Found, b: Bytes, b2: Bytes, cas: Bytes, withCas: bool, rest: Bytes)
    requires b == Entry(x, withCas) + rest && Field(x.key) && Field(x.flags)
    requires withCas ==> LuaText(x.cas) == cas
    requires var body := [LF] + x.value + CRLF + rest;
      b2 == if withCas then Dec(|x.value|) + [SPACE] + (cas + [CR] + body) else Dec(|x.value|) + [CR] + body
    ensures VALUE_ <= b
    ensures ReadField(b[6..], SPACE) == Some((x.key, x.flags + [SPACE] + b2))
    ensures ReadField(x.flags + [SPACE] + b2, SPACE) == Some((x.flags, b2))
  {
    hide LuaText, Dec, ReadField, Ascii;
    if withCas {
      RegroupCas(VALUE_, x.key, x.flags, Dec(|x.value|), cas, x.value, rest);
    } else {
      RegroupPlain(VALUE_, x.key, x.flags, Dec(|x.value|), x.value, rest);
    }
    var front := x.key + [SPACE] + (x.flags + [SPACE] + b2);
    assert b == VALUE_ + front;
    assert b[6..] == front;
    ReadFieldBack(x.key, SPACE, x.flags + [SPACE] + b2);
    ReadFieldBack(x.flags, SPACE, b2);
  }

  lemma RegroupCas(p: Bytes, k: Bytes, f: Bytes, n: Bytes, c: Bytes, v: Bytes, rest: Bytes)
    ensures (p + k + [SPACE] + f + [SPACE] + n + ([SPACE] + c) + CRLF + v + CRLF) + rest
         == p + (k + [SPACE] + (f + [SPACE] + (n + [SPACE] + (c + [CR] + ([LF] + v + CRLF + rest)))))
  {
  }

  lemma RegroupPlain(p: Bytes, k: Bytes, f: Bytes, n: Bytes, v: Bytes, rest: Bytes)
    ensures (p + k + [SPACE] + f + [SPACE] + n + [] + CRLF + v + CRLF) + rest
         == p + (k + [SPACE] + (f + [SPACE] + (n + [CR] + ([LF] + v + CRLF + rest))))
  {
  }

  lemma EntryIsNotEnd(x: Found, withCas: bool, rest: Bytes)
    ensures !(END <= Entry(x, withCas) + rest)
  {
    hide LuaText, Dec;
    assert (Entry(x, withCas) + rest)[0] == VALUE_[0];
    assert VALUE_[0] as int == 'V' as int && END[0] as int == 'E' as int;
  }

  lemma {:induction false} EntriesFront(xs: seq<Found>, withCas: bool)
    requires xs != []
    ensures Entries(xs, withCas) == Entry(xs[0], withCas) + Entries(xs[1..], withCas)
  {
    hide Entry;
    var n := |xs| - 1;
    if n == 0 {
      assert xs[..0] == [] && xs[1..] == [];
    } else {
      EntriesFront(xs[..n], withCas);
      assert xs[..n][1..] == xs[1..][..n - 1] && xs[1..][n - 1] == xs[n];
    }
  }

  function Views(xs: seq<Found>, withCas: bool): (r: seq<View>)
    ensures |r| == |xs| && forall i :: 0 <= i < |xs| ==> r[i] == ViewOf(xs[i], withCas)
  {
    seq(|xs|, i requires 0 <= i < |xs| => ViewOf(xs[i], withCas))
  }

  lemma ReplyFront(xs: seq<Found>, withCas: bool, rest: Bytes)
    requires xs != []
    ensures Reply(xs, withCas) + rest == Entry(xs[0], withCas) + (Reply(xs[1..], withCas) + rest)
  {
    hide Entry, Entries, Ascii;
    EntriesFront(xs, withCas);
  }

  /**
   * The reply, whatever follows it, decodes to exactly the ordered list of hits, whatever
   * bytes the values hold: line breaks, END lines and fake VALUE lines included.
   */
  lemma {:induction false} ReplyDecodes(xs: seq<Found>, withCas: bool, rest: Bytes)
    requires forall i :: 0 <= i < |xs| ==> Decodable(xs[i])
    ensures Decode(Reply(xs, withCas) + rest, withCas) == Some((Views(xs, withCas), rest))
  {
    hide Entry, DecodeEntry, Decodable, ViewOf, Ascii;
    if xs == [] {
      assert Reply(xs, withCas) + rest == END + rest && (END + rest)[|END|..] == rest;
    } else {
      var more := Reply(xs[1..], withCas) + rest;
      ReplyFront(xs, withCas, rest);
      hide Reply, Entries;
      EntryIsNotEnd(xs[0], withCas, more);
      DecodesBack(xs[0], withCas, more);
      ReplyDecodes(xs[1..], withCas, rest);
      assert Views(xs, withCas) == [ViewOf(xs[0], withCas)] + Views(xs[1..], withCas);
    }
  }

  // ------------------------------------------------------------------ stored flags

  /** Stored flag texts contain no blanks. */
  ghost predicate PlainFlags(s: State) {
    forall k :: k in s.items && s.items[k].f.Some? ==> Field(s.items[k].f.value)
  }

  /** A store brings flags without blanks. */
  predicate PlainEvent(e: Event) { e.EStore? ==> Field(e.f) }

  lemma StepPlainFlags(s: State, e: Event)
    requires PlainFlags(s) && PlainEvent(e)
    ensures PlainFlags(Step(s, e).s)
    ensures Step(s, e).r.Hit? ==> Field(Step(s, e).r.f)
    ensures Step(s, e).r.MetaHit? ==> Field(Step(s, e).r.f)
  {
    hide LuaText, ToDouble, Arithmetic;
  }

  lemma {:induction false} RunPlainFlags(s: State, es: seq<Event>, i: nat)
    requires PlainFlags(s) && i <= |es| && forall m :: 0 <= m < i ==> PlainEvent(es[m])
    ensures PlainFlags(At(s, es, i))
  {
    hide Step, PlainFlags;
    if i > 0 {
      RunPlainFlags(s, es, i - 1);
      StepPlainFlags(At(s, es, i - 1), es[i - 1]);
    }
  }

  lemma {:induction false} HitsDecodable(s: State, exp: Option<nat>, keys: seq<Bytes>)
    requires PlainFlags(s) && forall i :: 0 <= i < |keys| ==> Field(keys[i])
    ensures PlainFlags(Visit(s, exp, keys))
    ensures forall i :: 0 <= i < |Hits(s, exp, keys)| ==> Decodable(Hits(s, exp, keys)[i])
  {
    hide Step, PlainFlags;
    if keys != [] {
      var n := |keys| - 1;
      HitsDecodable(s, exp, keys[..n]);
      StepPlainFlags(Visit(s, exp, keys[..n]), StepFor(exp, keys[n]));
      var before, xs := Hits(s, exp, keys[..n]), Hits(s, exp, keys);
      forall i | 0 <= i < |xs| ensures Decodable(xs[i]) {
        if i < |before| { assert xs[i] == before[i]; }
      }
    }
  }

  /** What a client decodes from `get`/`gets`/`gat`/`gats` is the list of hits of the store. */
  lemma RetrievalDecodes(s: State, exp: Option<nat>, keys: seq<Bytes>, withCas: bool, rest: Bytes)
    requires PlainFlags(s) && forall i :: 0 <= i < |keys| ==> ValidKey(keys[i])
    ensures var xs := Hits(s, exp, keys);
      Decode(Reply(xs, withCas) + rest, withCas) == Some((Views(xs, withCas), rest))
  {
    hide Decodable;
    HitsDecodable(s, exp, keys);
    ReplyDecodes(Hits(s, exp, keys), withCas, rest);
  }

  /** Below 10^14 the token a client decodes is the decimal of the item's token. */
  lemma TokensExact(x: Found)
    requires x.cas < LUA_EXACT
    ensures ViewOf(x, true).token == Some(Dec(x.cas))
  {
    LuaTextExact(x.cas);
  }

  // ---------------------------------------------------- the hits of several keys

  lemma {:induction false} VisitAppend(s: State, exp: Option<nat>, a: seq<Bytes>, b: seq<Bytes>)
    ensures Visit(s, exp, a + b) == Visit(Visit(s, exp, a), exp, b)
  {
    hide Step, StepFor;
    if b == [] {
      assert a + b == a;
    } else {
      var n := |b| - 1;
      VisitAppend(s, exp, a, b[..n]);
      assert (a + b)[..|a| + n] == a + b[..n];
    }
  }

  /** The hits of a list of keys are those of its front, then those of its back in the later store. */
  lemma {:induction false} HitsAppend(s: State, exp: Option<nat>, a: seq<Bytes>, b: seq<Bytes>)
    ensures Hits(s, exp, a + b) == Hits(s, exp, a) + Hits(Visit(s, exp, a), exp, b)
  {
    hide Step, StepFor;
    if b == [] {
      assert a + b == a;
    } else {
      var n := |b| - 1;
      HitsAppend(s, exp, a, b[..n]);
      VisitAppend(s, exp, a, b[..n]);
      assert (a + b)[..|a| + n] == a + b[..n];
    }
  }

  /** The views of the keys present in a store: each in request order, as often as it is asked for. */
  function Present(s: State, keys: seq<Bytes>, withCas: bool): seq<View> {
    if keys == [] then []
    else
      var k := Ascii("rc:") + keys[0];
      (if k in s.items then
         var i := s.items[k];
         [View(keys[0], Or(i.f, Ascii("0")), Or(i.v, []), if withCas then Some(LuaText(i.cas)) else None)]
       else [])
      + Present(s, keys[1..], withCas)
  }

  /**
   * The same for a retrieval that touches: the n-th hit has the n-th token after the counter,
   * and a key asked for again is as the earlier touch left it.
   */
  function PresentTouched(s: State, exp: nat, keys: seq<Bytes>, withCas: bool): seq<View>
    decreases |keys|
  {
    if keys == [] then []
    else
      var k := Ascii("rc:") + keys[0];
      if k !in s.items then PresentTouched(s, exp, keys[1..], withCas)
      else
        var t := Touch(s, k, exp).s;
        var i := t.items[k];
        [View(keys[0], Or(i.f, Ascii("0")), Or(i.v, []), if withCas then Some(LuaText(s.counter + 1)) else None)]
        + PresentTouched(t, exp, keys[1..], withCas)
  }

  lemma OneKey(s: State, exp: Option<nat>, k: Bytes)
    ensures Visit(s, exp, [k]) == Step(s, StepFor(exp, k)).s
    ensures Hits(s, exp, [k]) == match Step(s, StepFor(exp, k)).r
                                 case Hit(v, f, cas) => [Found(k, f, v, cas)]
                                 case _ => []
  {
    hide Step, StepFor;
    assert [k][..0] == [];
    assert Hits(s, exp, []) == [] && Visit(s, exp, []) == s;
  }

  lemma ViewsAppend(xs: seq<Found>, ys: seq<Found>, withCas: bool)
    ensures Views(xs + ys, withCas) == Views(xs, withCas) + Views(ys, withCas)
  {
  }

  lemma {:induction false} GetHits(s: State, keys: seq<Bytes>, withCas: bool)
    ensures Views(Hits(s, None, keys), withCas) == Present(s, keys, withCas)
    ensures Visit(s, None, keys) == s
  {
    hide LuaText, ViewOf, Views, Hits, Visit;
    if keys == [] {
      NoHits(s, None, withCas);
    } else {
      FirstKey(s, None, keys, withCas);
      GetHits(s, keys[1..], withCas);
      OneGet(s, keys[0], withCas);
    }
  }

  lemma {:induction false} GatHits(s: State, exp: nat, keys: seq<Bytes>, withCas: bool)
    ensures Views(Hits(s, Some(exp), keys), withCas) == PresentTouched(s, exp, keys, withCas)
    decreases |keys|
  {
    hide LuaText, ViewOf, Views, Hits, Visit, Touched;
    if keys == [] {
      NoHits(s, Some(exp), withCas);
    } else {
      FirstKey(s, Some(exp), keys, withCas);
      OneGat(s, exp, keys[0], withCas);
      GatHits(Step(s, StepFor(Some(exp), keys[0])).s, exp, keys[1..], withCas);
    }
  }

  lemma NoHits(s: State, exp: Option<nat>, withCas: bool)
    ensures Views(Hits(s, exp, []), withCas) == [] && Visit(s, exp, []) == s
  {
  }

  lemma FirstKey(s: State, exp: Option<nat>, keys: seq<Bytes>, withCas: bool)
    requires keys != []
    ensures var t := Step(s, StepFor(exp, keys[0])).s;
      && Visit(s, exp, keys) == Visit(t, exp, keys[1..])
      && Views(Hits(s, exp, keys), withCas)
         == Views(Hits(s, exp, [keys[0]]), withCas) + Views(Hits(t, exp, keys[1..]), withCas)
  {
    hide Step, StepFor, Hits, Visit, Views;
    assert keys == [keys[0]] + keys[1..];
    OneKey(s, exp, keys[0]);
    VisitAppend(s, exp, [keys[0]], keys[1..]);
    HitsAppend(s, exp, [keys[0]], keys[1..]);
    ViewsAppend(Hits(s, exp, [keys[0]]), Hits(Visit(s, exp, [keys[0]]), exp, keys[1..]), withCas);
  }

  lemma OneGet(s: State, key: Bytes, withCas: bool)
    ensures Step(s, StepFor(None, key)).s == s
    ensures var k := Ascii("rc:") + key;
      Views(Hits(s, None, [key]), withCas)
      == if k in s.items
         then [View(key, Or(s.items[k].f, Ascii("0")), Or(s.items[k].v, []),
                    if withCas then Some(LuaText(s.items[k].cas)) else None)]
         else []
  {
    hide LuaText, Hits;
    OneKey(s, None, key);
  }

  lemma OneGat(s: State, exp: nat, key: Bytes, withCas: bool)
    ensures var k, t := Ascii("rc:") + key, Step(s, StepFor(Some(exp), key)).s;
      && t == Touch(s, k, exp).s
      && Views(Hits(s, Some(exp), [key]), withCas)
         == if k in s.items
            then [View(key, Or(t.items[k].f, Ascii("0")), Or(t.items[k].v, []),
                       if withCas then Some(LuaText(s.counter + 1)) else None)]
            else []
  {
    hide LuaText, Hits, Visit, Views, Touched;
    OneKey(s, Some(exp), key);
    var k := Ascii("rc:") + key;
    assert StepFor(Some(exp), key) == EGat(k, exp);
    if k in s.items {
      var i := Touched(s.items[k], exp, s.now, Fresh(s));
      OneView(Found(key, Or(i.f, NO_CAS), Or(i.v, []), Fresh(s)), withCas);
    } else {
      NoHits(s, None, withCas);
      assert Hits(s, None, []) == [] by { NoneFound(s); }
    }
  }

  lemma NoneFound(s: State)
    ensures Hits(s, None, []) == []
  {
  }

  lemma OneView(x: Found, withCas: bool)
    ensures Views([x], withCas) == [ViewOf(x, withCas)]
  {
    hide ViewOf;
  }

  /**
   * What a client decodes from `get` and `gets`: exactly the keys that are present, in request
   * order and with repetitions, each with the item's flags, value and, for `gets`, token.
   */
  lemma GetDecodes(s: State, keys: seq<Bytes>, withCas: bool, rest: Bytes)
    requires PlainFlags(s) && forall i :: 0 <= i < |keys| ==> ValidKey(keys[i])
    ensures Decode(Reply(Hits(s, None, keys), withCas) + rest, withCas) == Some((Present(s, keys, withCas), rest))
  {
    RetrievalDecodes(s, None, keys, withCas, rest);
    GetHits(s, keys, withCas);
  }

  /** And from `gat` and `gats`. */
  lemma GatDecodes(s: State, exp: nat, keys: seq<Bytes>, withCas: bool, rest: Bytes)
    requires PlainFlags(s) && forall i :: 0 <= i < |keys| ==> ValidKey(keys[i])
    ensures Decode(Reply(Hits(s, Some(exp), keys), withCas) + rest, withCas)
      == Some((PresentTouched(s, exp, keys, withCas), rest))
  {
    RetrievalDecodes(s, Some(exp), keys, withCas, rest);
    GatHits(s, exp, keys, withCas);
  }
}
