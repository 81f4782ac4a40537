/** `URLEncoder.encode(s, UTF_8)`: the application/x-www-form-urlencoded
    form of section 2.1 of RFC 3986 that Java produces. Letters, digits and
    `. - * _` stand for themselves, a space becomes `+`, and every other
    character becomes one `%XX` triplet per UTF-8 byte, in upper-case hex. */
module UrlEncoding {
  import opened Wrappers
  import Utf8

  /** Java's `dontNeedEncoding` set, without the space. */
  predicate IsSafe(c: char) {
    'a' <= c <= 'z' || 'A' <= c <= 'Z' || '0' <= c <= '9' || c == '.' || c == '-' || c == '*' || c == '_'
  }

  predicate IsUpperHex(c: char) {
    '0' <= c <= '9' || 'A' <= c <= 'F'
  }

  function HexDigit(v: int): (c: char)
    requires 0 <= v < 16
    ensures IsUpperHex(c) && IsSafe(c)
  {
    if v < 10 then '0' + v as char else 'A' + (v - 10) as char
  }

  function HexValue(c: char): (r: Option<int>)
    ensures r.Some? ==> 0 <= r.value < 16
  {
    if '0' <= c <= '9' then Some(c as int - '0' as int)
    else if 'A' <= c <= 'F' then Some(c as int - 'A' as int + 10)
    else if 'a' <= c <= 'f' then Some(c as int - 'a' as int + 10)
    else None
  }

  /** Every character of `t` is safe, `+` or `%`, and every `%` opens a
      triplet with two hex digits: the output alphabet of the encoder. */
  predicate WellFormed(t: string) {
    && (forall i :: 0 <= i < |t| ==> IsSafe(t[i]) || t[i] == '+' || t[i] == '%')
    && (forall i :: 0 <= i < |t| && t[i] == '%' ==> i + 2 < |t| && IsUpperHex(t[i + 1]) && IsUpperHex(t[i + 2]))
  }

  function Triplets(bs: seq<Utf8.uint8>): (t: string)
    ensures WellFormed(t)
    ensures |t| == 3 * |bs|
  {
    if |bs| == 0 then []
    else ['%', HexDigit(bs[0] / 16), HexDigit(bs[0] % 16)] + Triplets(bs[1..])
  }

  function EncodeChar(c: char): (t: string)
    ensures WellFormed(t)
  {
    if IsSafe(c) then [c]
    else if c == ' ' then ['+']
    else Triplets(Utf8.EncodeChar(c))
  }

  lemma WellFormedAppend(a: string, b: string)
    requires WellFormed(a) && WellFormed(b)
    ensures WellFormed(a + b)
  {
    var t := a + b;
    forall i | 0 <= i < |t| && t[i] == '%'
      ensures i + 2 < |t| && IsUpperHex(t[i + 1]) && IsUpperHex(t[i + 2])
    {
      if i < |a| {
        assert a[i] == '%';
      } else {
        assert b[i - |a|] == '%';
      }
    }
  }

  /** `URLEncoder.encode(s, StandardCharsets.UTF_8)` */
  function Encode(s: string): (t: string)
    ensures WellFormed(t)
    ensures |t| >= |s|
  {
    if |s| == 0 then []
    else
      var t := EncodeChar(s[0]) + Encode(s[1..]);
      WellFormedAppend(EncodeChar(s[0]), Encode(s[1..]));
      t
  }

  /** An encoded segment cannot carry a query delimiter: no `&`, `=`,
      `?` or `#` appears in it, whatever the input. */
  lemma NoDelimiters(s: string)
    ensures forall i :: 0 <= i < |Encode(s)| ==> Encode(s)[i] !in {'&', '=', '?', '#', '/'}
  {
  }

  /** A string of safe characters passes through the encoder unchanged. */
  lemma {:induction false} EncodeSafeIdentity(s: string)
    requires forall i :: 0 <= i < |s| ==> IsSafe(s[i])
    ensures Encode(s) == s
  {
    if |s| > 0 {
      EncodeSafeIdentity(s[1..]);
      assert [s[0]] + s[1..] == s;
    }
  }

  /** The reference decoder (the inverse `URLDecoder.decode` applies):
      `+` is a space, `%XX` is one byte, any other character stands for
      its own UTF-8 bytes; the bytes are then read as UTF-8. */
  function DecodeBytes(t: string): Option<seq<Utf8.uint8>>
    decreases |t|
  {
    if |t| == 0 then Some([])
    else if t[0] == '%' then
      if |t| < 3 then None
      else
        match (HexValue(t[1]), HexValue(t[2]))
        case (Some(h), Some(l)) =>
          (match DecodeBytes(t[3..])
           case None => None
           case Some(rest) => Some([h * 16 + l] + rest))
        case _ => None
    else
      var head := if t[0] == '+' then [0x20] else Utf8.EncodeChar(t[0]);
      match DecodeBytes(t[1..])
      case None => None
      case Some(rest) => Some(head + rest)
  }

  function Decode(t: string): Option<string>
  {
    match DecodeBytes(t)
    case None => None
    case Some(bs) => Utf8.Decode(bs)
  }

  lemma HexValueOfDigit(v: int)
    requires 0 <= v < 16
    ensures HexValue(HexDigit(v)) == Some(v)
  {
  }

  lemma {:induction false} DecodeTriplets(bs: seq<Utf8.uint8>, rest: string)
    ensures DecodeBytes(Triplets(bs) + rest) ==
            match DecodeBytes(rest)
            case None => None
            case Some(r) => Some(bs + r)
  {
    if |bs| > 0 {
      var t := Triplets(bs) + rest;
      var b := bs[0];
      assert t[0] == '%' && t[1] == HexDigit(b / 16) && t[2] == HexDigit(b % 16);
      HexValueOfDigit(b / 16);
      HexValueOfDigit(b % 16);
      assert t[3..] == Triplets(bs[1..]) + rest;
      DecodeTriplets(bs[1..], rest);
      match DecodeBytes(rest) {
        case None =>
        case Some(r) =>
          assert [b] + (bs[1..] + r) == bs + r;
      }
    } else {
      assert Triplets(bs) + rest == rest;
      match DecodeBytes(rest) {
        case None =>
        case Some(r) => assert bs + r == r;
      }
    }
  }

  lemma {:induction false} DecodeBytesEncode(s: string)
    ensures DecodeBytes(Encode(s)) == Some(Utf8.Encode(s))
  {
    if |s| > 0 {
      var c := s[0];
      var t := Encode(s);
      assert t == EncodeChar(c) + Encode(s[1..]);
      DecodeBytesEncode(s[1..]);
      if IsSafe(c) || c == ' ' {
        assert t[1..] == Encode(s[1..]);
      } else {
        DecodeTriplets(Utf8.EncodeChar(c), Encode(s[1..]));
      }
    }
  }

  /** Round trip: decoding an encoded segment gives the segment back. */
  lemma DecodeEncode(s: string)
    ensures Decode(Encode(s)) == Some(s)
  {
    DecodeBytesEncode(s);
    Utf8.DecodeEncode(s);
  }
}
