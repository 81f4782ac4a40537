/** UTF-8 (RFC 3629) for Unicode scalar values: the byte form Java's
    `getBytes(StandardCharsets.UTF_8)` and `URLEncoder` produce. */
module Utf8 {
  import opened Wrappers

  type uint8 = x: int | 0 <= x < 256

  predicate IsContinuation(b: uint8) {
    0x80 <= b < 0xC0
  }

  /** The one to four bytes of one scalar value. */
  function EncodeChar(c: char): (bs: seq<uint8>)
    ensures 1 <= |bs| <= 4
    ensures |bs| == 1 <==> c as int < 0x80
    ensures |bs| == 1 ==> bs[0] == c as int
    ensures forall i :: 0 <= i < |bs| ==> (bs[i] < 0x80 <==> |bs| == 1)
  {
    var n := c as int;
    if n < 0x80 then [n]
    else if n < 0x800 then [0xC0 + n / 64, 0x80 + n % 64]
    else if n < 0x10000 then
      [0xE0 + (n / 64) / 64, 0x80 + (n / 64) % 64, 0x80 + n % 64]
    else
      [0xF0 + ((n / 64) / 64) / 64, 0x80 + ((n / 64) / 64) % 64, 0x80 + (n / 64) % 64, 0x80 + n % 64]
  }

  /** `String.getBytes(UTF_8)` */
  function Encode(s: string): (bs: seq<uint8>)
    ensures |bs| >= |s|
  {
    if |s| == 0 then [] else EncodeChar(s[0]) + Encode(s[1..])
  }

  /** The number of bytes announced by a leading byte, or 0 if it cannot lead. */
  function SequenceLength(b: uint8): nat {
    if b < 0x80 then 1
    else if 0xC2 <= b < 0xE0 then 2
    else if 0xE0 <= b < 0xF0 then 3
    else if 0xF0 <= b < 0xF5 then 4
    else 0
  }

  predicate IsScalar(n: int) {
    0 <= n < 0xD800 || 0xE000 <= n < 0x11_0000
  }

  /** Decodes the scalar value at the front of `bs`, rejecting truncated
      sequences, stray continuation bytes, overlong forms and surrogates. */
  function DecodeChar(bs: seq<uint8>): (r: Option<(char, nat)>)
    ensures r.Some? ==> 1 <= r.value.1 <= |bs| && r.value.1 <= 4
  {
    if |bs| == 0 then None
    else
      var k := SequenceLength(bs[0]);
      if k == 0 || |bs| < k then None
      else if exists i :: 1 <= i < k && !IsContinuation(bs[i]) then None
      else
        var b0: int := bs[0];
        var b1: int := if k > 1 then bs[1] else 0;
        var b2: int := if k > 2 then bs[2] else 0;
        var b3: int := if k > 3 then bs[3] else 0;
        var n :=
          if k == 1 then b0
          else if k == 2 then (b0 - 0xC0) * 64 + (b1 - 0x80)
          else if k == 3 then ((b0 - 0xE0) * 64 + (b1 - 0x80)) * 64 + (b2 - 0x80)
          else (((b0 - 0xF0) * 64 + (b1 - 0x80)) * 64 + (b2 - 0x80)) * 64 + (b3 - 0x80);
        var least := if k == 1 then 0 else if k == 2 then 0x80 else if k == 3 then 0x800 else 0x10000;
        if n < least || !IsScalar(n) then None
        else Some((n as char, k))
  }

  /** Decodes a whole byte string, failing on any malformed sequence. */
  function Decode(bs: seq<uint8>): Option<string>
    decreases |bs|
  {
    if |bs| == 0 then Some([])
    else
      match DecodeChar(bs)
      case None => None
      case Some((c, k)) =>
        match Decode(bs[k..])
        case None => None
        case Some(rest) => Some([c] + rest)
  }

  lemma {:induction false} DecodeEncodedChar(c: char, rest: seq<uint8>)
    ensures DecodeChar(EncodeChar(c) + rest) == Some((c, |EncodeChar(c)|))
  {
    var n := c as int;
    var bs := EncodeChar(c) + rest;
    if n < 0x80 {
    } else if n < 0x800 {
      assert bs[0] == 0xC0 + n / 64 && bs[1] == 0x80 + n % 64;
    } else if n < 0x10000 {
      var m := n / 64;
      assert bs[0] == 0xE0 + m / 64 && bs[1] == 0x80 + m % 64 && bs[2] == 0x80 + n % 64;
      assert (m / 64) * 64 + m % 64 == m;
    } else {
      var m := n / 64;
      var l := m / 64;
      assert bs[0] == 0xF0 + l / 64 && bs[1] == 0x80 + l % 64 && bs[2] == 0x80 + m % 64 && bs[3] == 0x80 + n % 64;
      assert (l / 64) * 64 + l % 64 == l;
      assert l * 64 + m % 64 == m;
    }
  }

  /** Round trip: decoding the UTF-8 form of a string gives the string back. */
  lemma {:induction false} DecodeEncode(s: string)
    ensures Decode(Encode(s)) == Some(s)
  {
    if |s| > 0 {
      var head := EncodeChar(s[0]);
      var bs := Encode(s);
      assert bs == head + Encode(s[1..]);
      DecodeEncodedChar(s[0], Encode(s[1..]));
      assert bs[|head|..] == Encode(s[1..]);
      DecodeEncode(s[1..]);
      assert [s[0]] + s[1..] == s;
    }
  }

  /** Encoding distributes over concatenation. */
  lemma {:induction false} EncodeAppend(a: string, b: string)
    ensures Encode(a + b) == Encode(a) + Encode(b)
  {
    if |a| > 0 {
      assert (a + b)[1..] == a[1..] + b;
      EncodeAppend(a[1..], b);
    } else {
      assert a + b == b;
    }
  }
}
