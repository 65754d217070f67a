// Binary protocol frames: parsing requests, building requests and responses.

module Frames {
  import opened ByteStrings

  const MAGIC_REQ: byte := 0x80
  const MAGIC_RES: byte := 0x81
  const HEADER_LEN: nat := 24
  const MAX_BODY_LEN: nat := 20 * 1024 * 1024
  const MAX_KEY_LEN: nat := 250

  datatype Header = Header(opcode: byte, keyLen: nat, extrasLen: nat, bodyLen: nat, opaqueId: nat, cas: nat)

  datatype Request = Request(hdr: Header, extras: Bytes, key: Bytes, value: Bytes)

  datatype ParseResult =
    | Parsed(req: Request, used: nat)
    | Incomplete
    | BadMagic
    | Malformed(opaqueId: nat, opcode: byte, skip: nat)
    | Oversized(opaqueId: nat, opcode: byte)

  function ParseHeader(buf: Bytes): Header
    requires |buf| >= HEADER_LEN
  {
    Header(buf[1], FromBigEndian(buf[2..4]), buf[4] as nat, FromBigEndian(buf[8..12]),
           FromBigEndian(buf[12..16]), FromBigEndian(buf[16..24]))
  }

  function TryParse(buf: Bytes): (r: ParseResult)
    ensures r.Parsed? ==> HEADER_LEN <= r.used <= |buf| && r.used == HEADER_LEN + r.req.hdr.bodyLen
    ensures r.Malformed? ==> HEADER_LEN <= r.skip <= |buf|
    ensures r.Incomplete? ==> |buf| < HEADER_LEN + MAX_BODY_LEN
  {
    if buf == [] then Incomplete
    else if buf[0] != MAGIC_REQ then BadMagic
    else if |buf| < HEADER_LEN then Incomplete
    else
      var h := ParseHeader(buf);
      if h.bodyLen > MAX_BODY_LEN || h.keyLen > MAX_KEY_LEN then Oversized(h.opaqueId, h.opcode)
      else
        var total := HEADER_LEN + h.bodyLen;
        if |buf| < total then Incomplete
        else
          var extrasEnd := HEADER_LEN + h.extrasLen;
          var keyEnd := extrasEnd + h.keyLen;
          if keyEnd > total then Malformed(h.opaqueId, h.opcode, total)
          else Parsed(Request(h, buf[HEADER_LEN..extrasEnd], buf[extrasEnd..keyEnd], buf[keyEnd..total]), total)
  }

  /** More input changes nothing about a frame that was not incomplete. */
  lemma ParseStable(buf: Bytes, more: Bytes)
    requires !TryParse(buf).Incomplete?
    ensures TryParse(buf + more) == TryParse(buf)
  {
    hide FromBigEndian;
    var b := buf + more;
    assert b[0] == buf[0];
    if buf[0] == MAGIC_REQ {
      HeaderStable(buf, more);
      hide ParseHeader;
      var h := ParseHeader(buf);
      if TryParse(buf).Parsed? {
        var e, k, t := HEADER_LEN + h.extrasLen, HEADER_LEN + h.extrasLen + h.keyLen, HEADER_LEN + h.bodyLen;
        assert b[HEADER_LEN..e] == buf[HEADER_LEN..e] && b[e..k] == buf[e..k] && b[k..t] == buf[k..t];
      }
    }
  }

  lemma HeaderStable(buf: Bytes, more: Bytes)
    requires |buf| >= HEADER_LEN
    ensures ParseHeader(buf + more) == ParseHeader(buf)
  {
    hide FromBigEndian;
    var b := buf + more;
    assert b[2..4] == buf[2..4] && b[8..12] == buf[8..12];
    assert b[12..16] == buf[12..16] && b[16..24] == buf[16..24];
  }

  // ------------------------------------------------------------------ building

  /** A 24-byte header; `status` is the response status, 0 in requests. */
  function Header24(magic: byte, opcode: byte, keyLen: nat, extrasLen: nat, status: nat,
                    bodyLen: nat, opaqueId: nat, cas: nat): (h: Bytes)
    ensures |h| == HEADER_LEN
  {
    [magic, opcode] + BigEndian(keyLen, 2) + [(extrasLen % 256) as byte, 0] + BigEndian(status, 2)
    + BigEndian(bodyLen, 4) + BigEndian(opaqueId, 4) + BigEndian(cas, 8)
  }

  lemma HeaderFields(magic: byte, opcode: byte, keyLen: nat, extrasLen: nat, status: nat,
                     bodyLen: nat, opaqueId: nat, cas: nat, rest: Bytes)
    ensures var b := Header24(magic, opcode, keyLen, extrasLen, status, bodyLen, opaqueId, cas) + rest;
      && b[0] == magic && b[1] == opcode && b[2..4] == BigEndian(keyLen, 2)
      && b[4] == (extrasLen % 256) as byte && b[5] == 0 && b[6..8] == BigEndian(status, 2)
      && b[8..12] == BigEndian(bodyLen, 4) && b[12..16] == BigEndian(opaqueId, 4)
      && b[16..24] == BigEndian(cas, 8) && b[24..] == rest
  {
  }

  /** What `build_raw_request_frame` produces. */
  function Frame(opcode: byte, opaqueId: nat, cas: nat, extras: Bytes, key: Bytes, value: Bytes): Bytes {
    Header24(MAGIC_REQ, opcode, |key|, |extras|, 0, |extras| + |key| + |value|, opaqueId, cas)
    + (extras + key + value)
  }

  predicate Fits32(n: nat) { n < Pow256(4) }
  predicate Fits64(n: nat) { n < Pow256(8) }

  lemma Widths()
    ensures Pow256(2) == 65_536 && Pow256(4) == 4_294_967_296
    ensures Pow256(8) == 18_446_744_073_709_551_616
  {
  }

  /** Parsing a built frame, whatever follows it, gives back its fields and its length. */
  lemma ParseBuilt(opcode: byte, opaqueId: nat, cas: nat, extras: Bytes, key: Bytes, value: Bytes, suffix: Bytes)
    requires Fits32(opaqueId) && Fits64(cas)
    requires |extras| <= 255 && |key| <= MAX_KEY_LEN && |extras| + |key| + |value| <= MAX_BODY_LEN
    ensures var body := |extras| + |key| + |value|;
      TryParse(Frame(opcode, opaqueId, cas, extras, key, value) + suffix)
      == Parsed(Request(Header(opcode, |key|, |extras|, body, opaqueId, cas), extras, key, value),
                HEADER_LEN + body)
  {
    hide BigEndian, FromBigEndian, Header24, Pow256;
    var body := |extras| + |key| + |value|;
    var rest := extras + key + value + suffix;
    var b := Frame(opcode, opaqueId, cas, extras, key, value) + suffix;
    assert b == Header24(MAGIC_REQ, opcode, |key|, |extras|, 0, body, opaqueId, cas) + rest;
    HeaderFields(MAGIC_REQ, opcode, |key|, |extras|, 0, body, opaqueId, cas, rest);
    Widths();
    BigEndianRoundTrip(|key|, 2);
    BigEndianRoundTrip(body, 4);
    BigEndianRoundTrip(opaqueId, 4);
    BigEndianRoundTrip(cas, 8);
    assert ParseHeader(b) == Header(opcode, |key|, |extras|, body, opaqueId, cas);
    var e, k, t := HEADER_LEN + |extras|, HEADER_LEN + |extras| + |key|, HEADER_LEN + body;
    assert b[24..] == rest;
    assert b[HEADER_LEN..e] == rest[..|extras|] == extras;
    assert b[e..k] == rest[|extras|..|extras| + |key|] == key;
    assert b[k..t] == rest[|extras| + |key|..body] == value;
  }

  /** Rebuilding a parsed frame gives back its bytes, except the ignored bytes 5, 6 and 7. */
  lemma RebuildParsed(buf: Bytes)
    requires TryParse(buf).Parsed?
    ensures var r := TryParse(buf).req;
      var f := Frame(r.hdr.opcode, r.hdr.opaqueId, r.hdr.cas, r.extras, r.key, r.value);
      && |f| == TryParse(buf).used
      && forall i :: 0 <= i < |f| && i !in {5, 6, 7} ==> f[i] == buf[i]
  {
    hide BigEndian, FromBigEndian, Header24, Pow256;
    var r, used := TryParse(buf).req, TryParse(buf).used;
    var h := ParseHeader(buf);
    var rest := r.extras + r.key + r.value;
    FromBigEndianRoundTrip(buf[2..4]);
    FromBigEndianRoundTrip(buf[8..12]);
    FromBigEndianRoundTrip(buf[12..16]);
    FromBigEndianRoundTrip(buf[16..24]);
    BodyWhole(buf);
    HeaderFields(MAGIC_REQ, h.opcode, h.keyLen, h.extrasLen, 0, h.bodyLen, h.opaqueId, h.cas, rest);
    SameSlices(Frame(h.opcode, h.opaqueId, h.cas, r.extras, r.key, r.value), buf, used);
  }

  lemma BodyWhole(buf: Bytes)
    requires TryParse(buf).Parsed?
    ensures var r, used := TryParse(buf).req, TryParse(buf).used;
      && r.hdr == ParseHeader(buf) && buf[0] == MAGIC_REQ
      && |r.extras| == r.hdr.extrasLen && |r.key| == r.hdr.keyLen
      && |r.extras| + |r.key| + |r.value| == r.hdr.bodyLen
      && r.extras + r.key + r.value == buf[HEADER_LEN..used]
  {
  }

  lemma SameSlices(f: Bytes, buf: Bytes, used: nat)
    requires HEADER_LEN <= used == |f| <= |buf|
    requires f[0] == buf[0] && f[1] == buf[1] && f[2..4] == buf[2..4] && f[4] == buf[4]
    requires f[8..12] == buf[8..12] && f[12..16] == buf[12..16] && f[16..24] == buf[16..24]
    requires f[24..] == buf[24..used]
    ensures forall i :: 0 <= i < |f| && i !in {5, 6, 7} ==> f[i] == buf[i]
  {
  }

  // ---------------------------------------------------------- in-place writers

  /** `BigEndian::write_uN(&mut a[at..at + width], n)`. */
  method PutBigEndian(a: array<byte>, at: nat, n: nat, width: nat)
    requires at + width <= a.Length
    modifies a
    ensures a[..at + width] == old(a[..at]) + BigEndian(n, width)
    ensures forall j :: at + width <= j < a.Length ==> a[j] == old(a[j])
  {
    var rest, i := n, width;
    while i > 0
      invariant 0 <= i <= width
      invariant BigEndian(n, width) == BigEndian(rest, i) + a[at + i..at + width]
      invariant a[..at] == old(a[..at])
      invariant forall j :: at + width <= j < a.Length ==> a[j] == old(a[j])
    {
      i := i - 1;
      ghost var tail := a[at + i + 1..at + width];
      a[at + i] := (rest % 256) as byte;
      assert a[at + i..at + width] == [(rest % 256) as byte] + tail;
      rest := rest / 256;
    }
    assert a[..at + width] == a[..at] + a[at..at + width];
  }

  /** `a[at..at + src.len()].copy_from_slice(src)`. */
  method CopyInto(a: array<byte>, at: nat, src: Bytes)
    requires at + |src| <= a.Length
    modifies a
    ensures a[..] == old(a[..at]) + src + old(a[at + |src|..])
  {
    for i := 0 to |src|
      invariant a[at..at + i] == src[..i]
      invariant a[..at] == old(a[..at]) && a[at + |src|..] == old(a[at + |src|..])
    {
      a[at + i] := src[i];
    }
    assert a[..] == a[..at] + a[at..at + |src|] + a[at + |src|..];
  }

  /** The header writes common to requests and responses, on a zeroed array. */
  method PutHeader(a: array<byte>, magic: byte, opcode: byte, keyLen: nat, extrasLen: nat, status: nat,
                   bodyLen: nat, opaqueId: nat, cas: nat)
    requires a.Length >= HEADER_LEN
    requires forall i :: 0 <= i < a.Length ==> a[i] == 0
    modifies a
    ensures a[..HEADER_LEN] == Header24(magic, opcode, keyLen, extrasLen, status, bodyLen, opaqueId, cas)
    ensures a[HEADER_LEN..] == old(a[HEADER_LEN..])
  {
    hide BigEndian;
    a[0] := magic;
    a[1] := opcode;
    PutBigEndian(a, 2, keyLen, 2);
    a[4] := (extrasLen % 256) as byte;
    assert a[..6] == [magic, opcode] + BigEndian(keyLen, 2) + [(extrasLen % 256) as byte, 0];
    PutBigEndian(a, 6, status, 2);
    PutBigEndian(a, 8, bodyLen, 4);
    PutBigEndian(a, 12, opaqueId, 4);
    PutBigEndian(a, 16, cas, 8);
    assert a[HEADER_LEN..] == old(a[HEADER_LEN..]);
  }

  method BuildRawRequestFrame(opcode: byte, opaqueId: nat, cas: nat, extras: Bytes, key: Bytes, value: Bytes)
    returns (frame: Bytes)
    ensures frame == Frame(opcode, opaqueId, cas, extras, key, value)
  {
    hide BigEndian, Header24;
    var bodyLen := |extras| + |key| + |value|;
    var a := new byte[HEADER_LEN + bodyLen](_ => 0);
    PutHeader(a, MAGIC_REQ, opcode, |key|, |extras|, 0, bodyLen, opaqueId, cas);
    ghost var h := a[..HEADER_LEN];
    CopyInto(a, HEADER_LEN, extras);
    ghost var front := a[..HEADER_LEN + |extras|];
    assert front == h + extras;
    CopyInto(a, HEADER_LEN + |extras|, key);
    ghost var front' := a[..HEADER_LEN + |extras| + |key|];
    assert front' == front + key;
    CopyInto(a, HEADER_LEN + |extras| + |key|, value);
    assert a[..] == front' + value;
    Regroup(h, extras, key, value);
    return a[..];
  }

  lemma Regroup(h: Bytes, x: Bytes, k: Bytes, v: Bytes)
    ensures h + x + k + v == h + (x + k + v)
  {
  }

  // ----------------------------------------------------------------- responses

  datatype Response = Response(opcode: byte, status: nat, opaqueId: nat, cas: nat,
                               extras: Bytes, key: Bytes, value: Bytes)

  function BodyLen(r: Response): nat { |r.extras| + |r.key| + |r.value| }

  /** What `write_raw_response` writes; the length fields are truncated to their widths. */
  function Encode(r: Response): Bytes {
    Header24(MAGIC_RES, r.opcode, |r.key|, |r.extras|, r.status, BodyLen(r), r.opaqueId, r.cas)
    + (r.extras + r.key + r.value)
  }

  /** Every field fits its width on the wire. */
  predicate WellSized(r: Response) {
    && |r.extras| <= 255 && |r.key| < 65_536 && Fits32(BodyLen(r))
    && r.status < 65_536 && Fits32(r.opaqueId) && Fits64(r.cas)
  }

  /** A client's decoder for one response at the front of the stream. */
  function Decode(b: Bytes): Option<(Response, Bytes)> {
    if |b| < HEADER_LEN || b[0] != MAGIC_RES then None
    else
      var k, e, n := FromBigEndian(b[2..4]), b[4] as nat, FromBigEndian(b[8..12]);
      if e + k > n || |b| < HEADER_LEN + n then None
      else
        var p := b[HEADER_LEN..HEADER_LEN + n];
        Some((Response(b[1], FromBigEndian(b[6..8]), FromBigEndian(b[12..16]), FromBigEndian(b[16..24]),
                       p[..e], p[e..e + k], p[e + k..]), b[HEADER_LEN + n..]))
  }

  lemma DecodeEncoded(r: Response, rest: Bytes)
    requires WellSized(r)
    ensures Decode(Encode(r) + rest) == Some((r, rest))
  {
    hide BigEndian, FromBigEndian, Header24, Pow256;
    var body := r.extras + r.key + r.value;
    var b := Encode(r) + rest;
    assert b == Header24(MAGIC_RES, r.opcode, |r.key|, |r.extras|, r.status, BodyLen(r), r.opaqueId, r.cas)
                + (body + rest);
    HeaderFields(MAGIC_RES, r.opcode, |r.key|, |r.extras|, r.status, BodyLen(r), r.opaqueId, r.cas, body + rest);
    Widths();
    BigEndianRoundTrip(|r.key|, 2);
    BigEndianRoundTrip(r.status, 2);
    BigEndianRoundTrip(BodyLen(r), 4);
    BigEndianRoundTrip(r.opaqueId, 4);
    BigEndianRoundTrip(r.cas, 8);
    var n := BodyLen(r);
    assert b[24..] == body + rest;
    assert b[24..24 + n] == (body + rest)[..n] == body;
    assert b[24 + n..] == (body + rest)[n..] == rest;
    assert body[..|r.extras|] == r.extras && body[|r.extras|..|r.extras| + |r.key|] == r.key;
    assert body[|r.extras| + |r.key|..] == r.value;
  }

  function EncodeAll(rs: seq<Response>): Bytes {
    if rs == [] then [] else Encode(rs[0]) + EncodeAll(rs[1..])
  }

  function DecodeAll(b: Bytes): Option<seq<Response>>
    decreases |b|
  {
    if b == [] then Some([])
    else
      match Decode(b)
      case None => None
      case Some((r, rest)) =>
        if |rest| >= |b| then None
        else match DecodeAll(rest) case None => None case Some(rs) => Some([r] + rs)
  }

  /** A stream of responses decodes to exactly those responses. */
  lemma {:induction false} DecodeAllEncoded(rs: seq<Response>)
    requires forall i :: 0 <= i < |rs| ==> WellSized(rs[i])
    ensures DecodeAll(EncodeAll(rs)) == Some(rs)
  {
    if rs != [] {
      DecodeEncoded(rs[0], EncodeAll(rs[1..]));
      DecodeAllEncoded(rs[1..]);
      assert |Encode(rs[0])| >= HEADER_LEN;
      assert rs == [rs[0]] + rs[1..];
    }
  }

  lemma {:induction false} EncodeAllAppend(a: seq<Response>, b: seq<Response>)
    ensures EncodeAll(a + b) == EncodeAll(a) + EncodeAll(b)
  {
    hide Encode;
    if a == [] {
      assert a + b == b;
    } else {
      EncodeAllAppend(a[1..], b);
      assert (a + b)[1..] == a[1..] + b;
    }
  }

  /** `write_raw_response`: a header array filled in place, then four writes. */
  method WriteRawResponse(out: Bytes, r: Response) returns (out': Bytes)
    ensures out' == out + Encode(r)
  {
    hide BigEndian, Header24;
    var h := new byte[HEADER_LEN](_ => 0);
    PutHeader(h, MAGIC_RES, r.opcode, |r.key|, |r.extras|, r.status, BodyLen(r), r.opaqueId, r.cas);
    assert h[..] == h[..HEADER_LEN];
    out' := out + h[..];
    out' := out' + r.extras;
    out' := out' + r.key;
    out' := out' + r.value;
    assert out' == out + (h[..] + (r.extras + r.key + r.value));
  }
}
