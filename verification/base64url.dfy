/** Base64 with the URL and filename safe alphabet (section 5 of RFC 4648)
    and no padding, as `Base64.getUrlEncoder().withoutPadding()`. */
module Base64Url {
  import opened Wrappers
  import opened Utf8

  type sextet = x: int | 0 <= x < 64

  /** The alphabet of section 5 of RFC 4648: `A-Z a-z 0-9 - _`. */
  predicate InAlphabet(c: char) {
    'A' <= c <= 'Z' || 'a' <= c <= 'z' || '0' <= c <= '9' || c == '-' || c == '_'
  }

  function Symbol(v: sextet): (c: char)
    ensures InAlphabet(c)
  {
    if v < 26 then 'A' + v as char
    else if v < 52 then 'a' + (v - 26) as char
    else if v < 62 then '0' + (v - 52) as char
    else if v == 62 then '-'
    else '_'
  }

  function Value(c: char): (r: Option<sextet>)
    ensures r.Some? <==> InAlphabet(c)
  {
    if 'A' <= c <= 'Z' then Some(c as int - 'A' as int)
    else if 'a' <= c <= 'z' then Some(c as int - 'a' as int + 26)
    else if '0' <= c <= '9' then Some(c as int - '0' as int + 52)
    else if c == '-' then Some(62)
    else if c == '_' then Some(63)
    else None
  }

  lemma ValueOfSymbol(v: sextet)
    ensures Value(Symbol(v)) == Some(v)
  {
  }

  /** The four symbols of one complete 3-byte group. */
  function Quad(b0: uint8, b1: uint8, b2: uint8): string
  {
    [Symbol(b0 / 4), Symbol((b0 % 4) * 16 + b1 / 16), Symbol((b1 % 16) * 4 + b2 / 64), Symbol(b2 % 64)]
  }

  /** Encodes `bs` without padding: a final group of one byte gives two
      symbols and a final group of two bytes gives three. */
  function Encode(bs: seq<uint8>): (s: string)
    ensures |s| == (4 * |bs| + 2) / 3
    ensures forall i :: 0 <= i < |s| ==> InAlphabet(s[i])
    decreases |bs|
  {
    if |bs| >= 3 then Quad(bs[0], bs[1], bs[2]) + Encode(bs[3..])
    else if |bs| == 2 then [Symbol(bs[0] / 4), Symbol((bs[0] % 4) * 16 + bs[1] / 16), Symbol((bs[1] % 16) * 4)]
    else if |bs| == 1 then [Symbol(bs[0] / 4), Symbol((bs[0] % 4) * 16)]
    else []
  }

  /** The reference decoder: groups of four symbols, with a final group of
      two or three symbols; a final group of one symbol is malformed. */
  function Decode(s: string): Option<seq<uint8>>
    decreases |s|
  {
    if |s| == 0 then Some([])
    else if |s| == 1 then None
    else if exists i :: 0 <= i < |s| && i < 4 && !InAlphabet(s[i]) then None
    else
      var v0: int := Value(s[0]).value;
      var v1: int := Value(s[1]).value;
      var b0 := v0 * 4 + v1 / 16;
      if |s| == 2 then Some([b0])
      else
        var v2: int := Value(s[2]).value;
        var b1 := (v1 % 16) * 16 + v2 / 4;
        if |s| == 3 then Some([b0, b1])
        else
          var v3: int := Value(s[3]).value;
          var b2 := (v2 % 4) * 64 + v3;
          match Decode(s[4..])
          case None => None
          case Some(rest) => Some([b0, b1, b2] + rest)
  }

  lemma DecodeQuad(b0: uint8, b1: uint8, b2: uint8, rest: string)
    ensures Decode(Quad(b0, b1, b2) + rest) ==
            match Decode(rest)
            case None => None
            case Some(r) => Some([b0, b1, b2] + r)
  {
    var s := Quad(b0, b1, b2) + rest;
    ValueOfSymbol(b0 / 4);
    ValueOfSymbol((b0 % 4) * 16 + b1 / 16);
    ValueOfSymbol((b1 % 16) * 4 + b2 / 64);
    ValueOfSymbol(b2 % 64);
    var v1 := (b0 % 4) * 16 + b1 / 16;
    var v2 := (b1 % 16) * 4 + b2 / 64;
    assert v1 / 16 == b0 % 4 && v1 % 16 == b1 / 16;
    assert v2 / 4 == b1 % 16 && v2 % 4 == b2 / 64;
    assert s[4..] == rest;
  }

  lemma DecodeTwo(b0: uint8, b1: uint8)
    ensures Decode(Encode([b0, b1])) == Some([b0, b1])
  {
    ValueOfSymbol(b0 / 4);
    ValueOfSymbol((b0 % 4) * 16 + b1 / 16);
    ValueOfSymbol((b1 % 16) * 4);
    var v1 := (b0 % 4) * 16 + b1 / 16;
    assert v1 / 16 == b0 % 4 && v1 % 16 == b1 / 16;
    assert ((b1 % 16) * 4) / 4 == b1 % 16;
  }

  lemma DecodeOne(b0: uint8)
    ensures Decode(Encode([b0])) == Some([b0])
  {
    ValueOfSymbol(b0 / 4);
    ValueOfSymbol((b0 % 4) * 16);
    assert ((b0 % 4) * 16) / 16 == b0 % 4;
  }

  /** Round trip: the decoder recovers every encoded byte string. */
  lemma {:induction false} DecodeEncode(bs: seq<uint8>)
    ensures Decode(Encode(bs)) == Some(bs)
    decreases |bs|
  {
    if |bs| >= 3 {
      DecodeQuad(bs[0], bs[1], bs[2], Encode(bs[3..]));
      DecodeEncode(bs[3..]);
      assert [bs[0], bs[1], bs[2]] + bs[3..] == bs;
    } else if |bs| == 2 {
      DecodeTwo(bs[0], bs[1]);
      assert [bs[0], bs[1]] == bs;
    } else if |bs| == 1 {
      DecodeOne(bs[0]);
      assert [bs[0]] == bs;
    }
  }

  /** Distinct byte strings have distinct encodings. */
  lemma EncodeInjective(a: seq<uint8>, b: seq<uint8>)
    requires Encode(a) == Encode(b)
    ensures a == b
  {
    DecodeEncode(a);
    DecodeEncode(b);
  }
}
