// Lines of the text protocols: UTF-8 validity, Unicode white space, splitting into words.

module TextTokens {
  import opened ByteStrings

  predicate Tail(b: byte) { 0x80 <= b <= 0xBF }

  /** Length of the well-formed UTF-8 character at the front of b, 0 if there is none. */
  function Utf8Len(b: Bytes): (n: nat)
    ensures n <= |b|
  {
    if b == [] then 0
    else if b[0] < 0x80 then 1
    else if |b| >= 2 && 0xC2 <= b[0] <= 0xDF && Tail(b[1]) then 2
    else if |b| >= 3 && 0xE0 <= b[0] <= 0xEF && Tail(b[1]) && Tail(b[2])
            && (b[0] == 0xE0 ==> b[1] >= 0xA0) && (b[0] == 0xED ==> b[1] <= 0x9F) then 3
    else if |b| >= 4 && 0xF0 <= b[0] <= 0xF4 && Tail(b[1]) && Tail(b[2]) && Tail(b[3])
            && (b[0] == 0xF0 ==> b[1] >= 0x90) && (b[0] == 0xF4 ==> b[1] <= 0x8F) then 4
    else 0
  }

  /** `str::from_utf8(b).is_ok()`. */
  predicate IsUtf8(b: Bytes) {
    b == [] || (Utf8Len(b) > 0 && IsUtf8(b[Utf8Len(b)..]))
  }

  /** Length of the white-space character at the front of b (Unicode White_Space), 0 if none. */
  function SpaceLen(b: Bytes): (n: nat)
    ensures n <= |b|
  {
    if b == [] then 0
    else if 0x09 <= b[0] <= 0x0D || b[0] == 0x20 then 1
    else if |b| >= 2 && b[0] == 0xC2 && (b[1] == 0x85 || b[1] == 0xA0) then 2
    else if |b| >= 3 && b[0] == 0xE1 && b[1] == 0x9A && b[2] == 0x80 then 3
    else if |b| >= 3 && b[0] == 0xE2 && b[1] == 0x80
            && (0x80 <= b[2] <= 0x8A || b[2] == 0xA8 || b[2] == 0xA9 || b[2] == 0xAF) then 3
    else if |b| >= 3 && b[0] == 0xE2 && b[1] == 0x81 && b[2] == 0x9F then 3
    else if |b| >= 3 && b[0] == 0xE3 && b[1] == 0x80 && b[2] == 0x80 then 3
    else 0
  }

  function SkipSpaces(b: Bytes): (r: Bytes)
    ensures |r| <= |b| && SpaceLen(r) == 0
    decreases |b|
  {
    if SpaceLen(b) > 0 then SkipSpaces(b[SpaceLen(b)..]) else b
  }

  /** Length of the word at the front of b. */
  function WordLen(b: Bytes): (n: nat)
    ensures n <= |b| && (b != [] && SpaceLen(b) == 0 ==> n > 0)
  {
    if b == [] || SpaceLen(b) > 0 then 0 else 1 + WordLen(b[1..])
  }

  /** `line_str.split_whitespace()`. */
  function Tokens(b: Bytes): seq<Bytes>
    decreases |b|
  {
    var c := SkipSpaces(b);
    if c == [] then [] else [c[..WordLen(c)]] + Tokens(c[WordLen(c)..])
  }

  /** Length of the white-space character at the end of b, 0 if none. */
  function TrailingSpace(b: Bytes): (n: nat)
    ensures n <= |b|
  {
    if |b| >= 1 && SpaceLen(b[|b| - 1..]) == 1 then 1
    else if |b| >= 2 && SpaceLen(b[|b| - 2..]) == 2 then 2
    else if |b| >= 3 && SpaceLen(b[|b| - 3..]) == 3 then 3
    else 0
  }

  /** `trim_end`. */
  function TrimEnd(b: Bytes): Bytes {
    if TrailingSpace(b) > 0 then TrimEnd(b[..|b| - TrailingSpace(b)]) else b
  }

  function Trim(b: Bytes): Bytes { TrimEnd(SkipSpaces(b)) }

  // ------------------------------------------------------------------ printing

  predicate Printable(b: Bytes) { forall i :: 0 <= i < |b| ==> 0x21 <= b[i] <= 0x7E }

  predicate IsWord(b: Bytes) { b != [] && Printable(b) }

  predicate AllWords(ts: seq<Bytes>) { forall i :: 0 <= i < |ts| ==> IsWord(ts[i]) }

  /** Words separated by single spaces. */
  function Join(ts: seq<Bytes>): Bytes {
    if ts == [] then [] else if |ts| == 1 then ts[0] else ts[0] + [SPACE] + Join(ts[1..])
  }

  lemma {:induction false} WordLenWord(w: Bytes, rest: Bytes)
    requires Printable(w) && (rest == [] || rest[0] == SPACE)
    ensures WordLen(w + rest) == |w|
  {
    if w == [] {
      assert w + rest == rest;
    } else {
      WordLenWord(w[1..], rest);
      assert (w + rest)[1..] == w[1..] + rest;
    }
  }

  lemma SpaceLenAscii(b: Bytes)
    requires b != [] && b[0] < 0x80
    ensures SpaceLen(b) == if 0x09 <= b[0] <= 0x0D || b[0] == SPACE then 1 else 0
  {
  }

  lemma SkipOne(b: Bytes)
    ensures SkipSpaces([SPACE] + b) == SkipSpaces(b)
  {
  }

  /** A word at the front of a line is its first token. */
  lemma FirstToken(w: Bytes, rest: Bytes)
    requires IsWord(w) && (rest == [] || rest[0] == SPACE)
    ensures Tokens(w + rest) == [w] + Tokens(rest)
  {
    hide SpaceLen, WordLen;
    var line := w + rest;
    SpaceLenAscii(line);
    assert SkipSpaces(line) == line;
    WordLenWord(w, rest);
    assert line[..|w|] == w && line[|w|..] == rest;
  }

  lemma TokensSpace(b: Bytes)
    ensures Tokens([SPACE] + b) == Tokens(b)
  {
  }

  lemma {:induction false} TokensJoin(ts: seq<Bytes>)
    requires AllWords(ts)
    ensures Tokens(Join(ts)) == ts
  {
    hide Tokens;
    NoTokens();
    if ts != [] {
      var rest := if |ts| == 1 then [] else [SPACE] + Join(ts[1..]);
      assert Join(ts) == ts[0] + rest;
      FirstToken(ts[0], rest);
      if |ts| > 1 {
        TokensJoin(ts[1..]);
        TokensSpace(Join(ts[1..]));
      }
      assert ts == [ts[0]] + ts[1..];
    }
  }

  lemma NoTokens()
    ensures Tokens([]) == []
  {
  }

  lemma {:induction false} AsciiIsUtf8(b: Bytes)
    requires forall i :: 0 <= i < |b| ==> b[i] < 0x80
    ensures IsUtf8(b)
  {
    if b != [] { AsciiIsUtf8(b[1..]); }
  }

  lemma {:induction false} JoinAscii(ts: seq<Bytes>)
    requires AllWords(ts)
    ensures forall i :: 0 <= i < |Join(ts)| ==> Join(ts)[i] == SPACE || 0x21 <= Join(ts)[i] <= 0x7E
  {
    if |ts| > 1 { JoinAscii(ts[1..]); }
  }

  /** A printed line is valid UTF-8, splits into its words and survives trimming. */
  lemma PrintedLine(ts: seq<Bytes>)
    requires AllWords(ts)
    ensures IsUtf8(Join(ts)) && Tokens(Join(ts)) == ts
  {
    JoinAscii(ts);
    AsciiIsUtf8(Join(ts));
    TokensJoin(ts);
  }

  lemma {:induction false} JoinLast(ts: seq<Bytes>)
    requires AllWords(ts) && ts != []
    ensures Join(ts) != [] && 0x21 <= Join(ts)[0] <= 0x7E && 0x21 <= Join(ts)[|Join(ts)| - 1] <= 0x7E
  {
    if |ts| > 1 { JoinLast(ts[1..]); }
  }

  lemma TrimPrinted(ts: seq<Bytes>)
    requires AllWords(ts) && ts != []
    ensures Trim([SPACE] + Join(ts)) == Join(ts)
  {
    hide SpaceLen, TrailingSpace;
    JoinLast(ts);
    var j := Join(ts);
    SkipOne(j);
    SpaceLenAscii(j);
    JoinAscii(ts);
    NoTrailingSpace(j);
  }

  lemma NoTrailingSpace(j: Bytes)
    requires j != [] && 0x21 <= j[|j| - 1] <= 0x7E
    requires forall i :: 0 <= i < |j| ==> j[i] < 0x80
    ensures TrailingSpace(j) == 0
  {
  }

  /** Number keys and flag tokens are words. */
  lemma DecIsWord(n: nat)
    ensures IsWord(Dec(n))
  {
  }

  lemma AsciiWord(s: string)
    requires s != "" && forall i :: 0 <= i < |s| ==> 0x21 <= s[i] as int <= 0x7E
    ensures IsWord(Ascii(s))
  {
  }

  /** `validate_key`. */
  predicate ValidKey(k: Bytes) {
    1 <= |k| <= 250 && forall i :: 0 <= i < |k| ==> k[i] > 0x20 && k[i] != 0x7F
  }

  method ValidateKey(key: Bytes) returns (ok: bool)
    ensures ok <==> ValidKey(key)
  {
    if key == [] || |key| > 250 {
      return false;
    }
    for i := 0 to |key|
      invariant forall j :: 0 <= j < i ==> key[j] > 0x20 && key[j] != 0x7F
    {
      if key[i] <= 0x20 || key[i] == 0x7F {
        return false;
      }
    }
    return true;
  }
}
