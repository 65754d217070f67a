// The hex transport of values: the Lua scripts reply with lowercase hex pairs and
// `hex_decode` turns them back into bytes through a lookup table.

module Hex {
  import opened ByteStrings

  const INVALID: nat := 0xFF

  /** The lookup table of `hex_decode`. */
  function Nibble(b: byte): nat {
    if 48 <= b <= 57 then (b - 48) as nat
    else if 97 <= b <= 102 then (b - 97) as nat + 10
    else if 65 <= b <= 70 then (b - 65) as nat + 10
    else INVALID
  }

  predicate IsHexDigit(b: byte) { Nibble(b) <= 0x0F }

  predicate AllHex(h: Bytes) { forall i :: 0 <= i < |h| ==> IsHexDigit(h[i]) }

  predicate IsHexText(h: Bytes) { |h| % 2 == 0 && AllHex(h) }

  function HexDigit(n: nat): byte
    requires n < 16
  {
    if n < 10 then 48 + n as byte else 87 + n as byte
  }

  /** `%02x` of every byte. */
  function HexText(v: Bytes): (h: Bytes)
    ensures |h| == 2 * |v|
  {
    if v == [] then []
    else HexText(v[..|v| - 1]) + [HexDigit(v[|v| - 1] as nat / 16), HexDigit(v[|v| - 1] as nat % 16)]
  }

  function Pair(hi: byte, lo: byte): byte
    requires IsHexDigit(hi) && IsHexDigit(lo)
  {
    (Nibble(hi) * 16 + Nibble(lo)) as byte
  }

  function HexPairs(h: Bytes): (v: Bytes)
    requires IsHexText(h)
    ensures |v| == |h| / 2
  {
    if h == [] then [] else HexPairs(h[..|h| - 2]) + [Pair(h[|h| - 2], h[|h| - 1])]
  }

  /** What `hex_decode` returns for every input. */
  function Unhex(h: Bytes): Bytes {
    if IsHexText(h) then HexPairs(h) else []
  }

  lemma {:induction false} HexRoundTrip(v: Bytes)
    ensures IsHexText(HexText(v)) && Unhex(HexText(v)) == v
  {
    if v != [] {
      var h := HexText(v);
      var w := v[..|v| - 1];
      HexRoundTrip(w);
      assert h[..|h| - 2] == HexText(w);
      forall i | 0 <= i < |h| ensures IsHexDigit(h[i]) {
        if i < |h| - 2 { assert h[i] == HexText(w)[i]; }
      }
      var d := v[|v| - 1] as nat;
      assert Pair(HexDigit(d / 16), HexDigit(d % 16)) as nat == d;
    }
  }

  /** The decoder is empty exactly on empty, odd-length or non-hex input. */
  lemma UnhexEmptyExactly(h: Bytes)
    ensures Unhex(h) == [] <==> h == [] || |h| % 2 != 0 || exists i :: 0 <= i < |h| && !IsHexDigit(h[i])
  {
  }

  /** The encoding loop of LUA_GET: p[i] = ht[string.byte(v, i)], then table.concat(p). */
  method HexEncode(v: Bytes) returns (h: Bytes)
    ensures h == HexText(v)
  {
    h := [];
    for i := 0 to |v|
      invariant h == HexText(v[..i])
    {
      assert v[..i + 1][..i] == v[..i];
      h := h + [HexDigit(v[i] as nat / 16), HexDigit(v[i] as nat % 16)];
    }
    assert v[..|v|] == v;
  }

  method HexDecode(hex: Bytes) returns (out: Bytes)
    ensures out == Unhex(hex)
  {
    if |hex| % 2 != 0 {
      return [];
    }
    out := [];
    var i := 0;
    while i < |hex|
      invariant 0 <= i <= |hex| && i % 2 == 0
      invariant AllHex(hex[..i]) && out == HexPairs(hex[..i])
    {
      var hi := Nibble(hex[i]);
      var lo := Nibble(hex[i + 1]);
      if hi > 0x0F || lo > 0x0F {
        assert !AllHex(hex) by { assert !IsHexDigit(hex[i]) || !IsHexDigit(hex[i + 1]); }
        return [];
      }
      assert hex[..i + 2] == hex[..i] + [hex[i], hex[i + 1]];
      assert hex[..i + 2][..i] == hex[..i];
      out := out + [(hi * 16 + lo) as byte];
      i := i + 2;
    }
    assert hex[..|hex|] == hex;
  }

  /** GET's value survives the script's encoding loop and the module's decoding loop. */
  method Transport(v: Bytes) returns (out: Bytes)
    ensures out == v
  {
    var h := HexEncode(v);
    HexRoundTrip(v);
    out := HexDecode(h);
  }
}
