/** JSON text as section 2 of RFC 8259 defines it: the value datatype, the
    compact writer that the Jakarta JSON-P (Parsson) and Jackson writers
    produce, and a reader used as the reference for what a host parser
    accepts and returns. */
module JsonText {
  import opened Wrappers

  datatype Json =
    | JNull
    | JBool(b: bool)
    | JNumber(lexeme: string)
    | JString(s: string)
    | JArray(items: seq<Json>)
    | JObject(members: seq<Member>)

  datatype Member = Member(name: string, value: Json)

  /** The member a name selects; for a repeated name the later member wins,
      as both `JsonObjectBuilder` and Jackson's binder keep the last value. */
  function Lookup(ms: seq<Member>, name: string): (r: Option<Json>)
    ensures r.None? <==> forall i :: 0 <= i < |ms| ==> ms[i].name != name
    ensures r.Some? ==> exists i :: 0 <= i < |ms| && ms[i].name == name && ms[i].value == r.value
                                    && forall j :: i < j < |ms| ==> ms[j].name != name
  {
    if |ms| == 0 then None
    else if ms[|ms| - 1].name == name then Some(ms[|ms| - 1].value)
    else Lookup(ms[..|ms| - 1], name)
  }

  // ---------------------------------------------------------------- writing

  function Hex(v: int, upper: bool): (c: char)
    requires 0 <= v < 16
  {
    if v < 10 then '0' + v as char
    else if upper then 'A' + (v - 10) as char
    else 'a' + (v - 10) as char
  }

  /** One character of a string literal. `"` and `\` and the short-named
      controls get their two-character escapes; the other controls below
      U+0020 become `\u00XX`, with lower-case hex in Parsson and upper-case
      in Jackson; everything else is written as itself. */
  function EscapeChar(c: char, upper: bool): (t: string)
    ensures |t| > 0
    ensures t[0] != '"'
  {
    if c == '"' then ['\\', '"']
    else if c == '\\' then ['\\', '\\']
    else if c as int == 8 then ['\\', 'b']
    else if c as int == 12 then ['\\', 'f']
    else if c == '\n' then ['\\', 'n']
    else if c == '\r' then ['\\', 'r']
    else if c == '\t' then ['\\', 't']
    else if c < ' ' then ['\\', 'u', '0', '0', Hex(c as int / 16, upper), Hex(c as int % 16, upper)]
    else [c]
  }

  function Escape(s: string, upper: bool): string
  {
    if |s| == 0 then [] else EscapeChar(s[0], upper) + Escape(s[1..], upper)
  }

  function WriteString(s: string, upper: bool): string
  {
    ['"'] + (Escape(s, upper) + ['"'])
  }

  /** The compact writer: no whitespace between tokens, members and items
      in their sequence order. */
  function Write(j: Json, upper: bool): string
    decreases j, 1
  {
    match j
    case JNull => "null"
    case JBool(b) => if b then "true" else "false"
    case JNumber(lexeme) => lexeme
    case JString(s) => WriteString(s, upper)
    case JArray(items) => "[" + (WriteItems(items, upper) + "]")
    case JObject(ms) => "{" + (WriteMembers(ms, upper) + "}")
  }

  function WriteItems(items: seq<Json>, upper: bool): string
    decreases items, 0
  {
    if |items| == 0 then []
    else if |items| == 1 then Write(items[0], upper)
    else Write(items[0], upper) + ("," + WriteItems(items[1..], upper))
  }

  function WriteMembers(ms: seq<Member>, upper: bool): string
    decreases ms, 0
  {
    if |ms| == 0 then []
    else
      var more := if |ms| == 1 then [] else "," + WriteMembers(ms[1..], upper);
      WriteString(ms[0].name, upper) + (":" + (Write(ms[0].value, upper) + more))
  }

  // ---------------------------------------------------------------- reading

  /** Insignificant whitespace: space, TAB, LF and CR. */
  predicate IsWs(c: char) {
    c == ' ' || c == '\t' || c == '\n' || c == '\r'
  }

  function SkipWs(s: string): (r: string)
    ensures |r| <= |s|
    ensures |r| > 0 ==> !IsWs(r[0])
  {
    if |s| > 0 && IsWs(s[0]) then SkipWs(s[1..]) else s
  }

  function HexValue(c: char): (r: Option<int>)
    ensures r.Some? ==> 0 <= r.value < 16
  {
    if '0' <= c <= '9' then Some(c as int - '0' as int)
    else if 'A' <= c <= 'F' then Some(c as int - 'A' as int + 10)
    else if 'a' <= c <= 'f' then Some(c as int - 'a' as int + 10)
    else None
  }

  /** The code unit of four hex digits at the head of `s`. */
  function Hex4(s: string): (r: Option<int>)
    ensures r.Some? ==> 0 <= r.value < 0x1_0000
  {
    if |s| < 4 then None
    else match (HexValue(s[0]), HexValue(s[1]), HexValue(s[2]), HexValue(s[3]))
      case (Some(a), Some(b), Some(c), Some(d)) => Some(((a * 16 + b) * 16 + c) * 16 + d)
      case _ => None
  }

  /** The character an escape stands for; `s` starts after the backslash.
      A `\u` escape of a high surrogate must be followed by one of a low
      surrogate, and the pair is one code point. A lone surrogate has no
      code point and is refused. */
  function ParseEscape(s: string): (r: Option<(char, string)>)
    ensures r.Some? ==> |r.value.1| < |s|
  {
    if |s| == 0 then None
    else if s[0] == '"' then Some(('"', s[1..]))
    else if s[0] == '\\' then Some(('\\', s[1..]))
    else if s[0] == '/' then Some(('/', s[1..]))
    else if s[0] == 'b' then Some((8 as char, s[1..]))
    else if s[0] == 'f' then Some((12 as char, s[1..]))
    else if s[0] == 'n' then Some(('\n', s[1..]))
    else if s[0] == 'r' then Some(('\r', s[1..]))
    else if s[0] == 't' then Some(('\t', s[1..]))
    else if s[0] != 'u' then None
    else match Hex4(s[1..])
      case None => None
      case Some(u) =>
        if u < 0xD800 || 0xE000 <= u then Some((u as char, s[5..]))
        else if 0xDC00 <= u then None
        else if |s| < 7 || s[5] != '\\' || s[6] != 'u' then None
        else match Hex4(s[7..])
          case None => None
          case Some(l) =>
            if 0xDC00 <= l < 0xE000 then
              Some(((0x1_0000 + (u - 0xD800) * 0x400 + (l - 0xDC00)) as char, s[11..]))
            else None
  }

  /** The characters of a string literal up to its closing quote; `s`
      starts after the opening quote. Raw controls are refused. */
  function ParseStringBody(s: string): (r: Option<(string, string)>)
    ensures r.Some? ==> |r.value.1| < |s|
  {
    if |s| == 0 then None
    else if s[0] == '"' then Some(([], s[1..]))
    else if s[0] < ' ' then None
    else
      var head := if s[0] == '\\' then ParseEscape(s[1..]) else Some((s[0], s[1..]));
      match head
      case None => None
      case Some((c, rest)) =>
        match ParseStringBody(rest)
        case None => None
        case Some((body, after)) => Some(([c] + body, after))
  }

  /** The number of ASCII digits at the head of `s`. */
  function LeadingDigits(s: string): (n: nat)
    ensures n <= |s|
    ensures forall i :: 0 <= i < n ==> '0' <= s[i] <= '9'
    ensures n < |s| ==> !('0' <= s[n] <= '9')
  {
    if |s| > 0 && '0' <= s[0] <= '9' then 1 + LeadingDigits(s[1..]) else 0
  }

  /** A number token: `-? int frac? exp?`, with no leading zero. */
  function ParseNumber(s: string): (r: Option<(Json, string)>)
    ensures r.Some? ==> |r.value.1| < |s|
  {
    var i0 := if |s| > 0 && s[0] == '-' then 1 else 0;
    var d := LeadingDigits(s[i0..]);
    if d == 0 || (s[i0] == '0' && d > 1) then None
    else
      var i1 := i0 + d;
      var f := if i1 < |s| && s[i1] == '.' then LeadingDigits(s[i1 + 1..]) else 0;
      if i1 < |s| && s[i1] == '.' && f == 0 then None
      else
        var i2 := if f > 0 then i1 + 1 + f else i1;
        if i2 < |s| && (s[i2] == 'e' || s[i2] == 'E') then
          var j := if i2 + 1 < |s| && (s[i2 + 1] == '+' || s[i2 + 1] == '-') then i2 + 2 else i2 + 1;
          var e := LeadingDigits(s[j..]);
          if e == 0 then None else Some((JNumber(s[..j + e]), s[j + e..]))
        else Some((JNumber(s[..i2]), s[i2..]))
  }

  /** One value after optional whitespace, and what follows it. */
  function ParseValue(s: string): (r: Option<(Json, string)>)
    ensures r.Some? ==> |r.value.1| < |s|
    decreases |s|, 0
  {
    var t := SkipWs(s);
    if |t| == 0 then None
    else if t[0] == '{' then ParseObjectBody(t[1..])
    else if t[0] == '[' then ParseArrayBody(t[1..])
    else if t[0] == '"' then
      match ParseStringBody(t[1..])
      case None => None
      case Some((str, rest)) => Some((JString(str), rest))
    else if |t| >= 4 && t[..4] == "true" then Some((JBool(true), t[4..]))
    else if |t| >= 5 && t[..5] == "false" then Some((JBool(false), t[5..]))
    else if |t| >= 4 && t[..4] == "null" then Some((JNull, t[4..]))
    else ParseNumber(t)
  }

  /** The members of an object and its closing brace; `s` starts after
      the opening brace. */
  function ParseObjectBody(s: string): (r: Option<(Json, string)>)
    ensures r.Some? ==> |r.value.1| < |s|
    decreases |s|, 2
  {
    var t := SkipWs(s);
    if |t| > 0 && t[0] == '}' then Some((JObject([]), t[1..]))
    else
      match ParseMembers(t)
      case None => None
      case Some((ms, rest)) => Some((JObject(ms), rest))
  }

  /** `member (, member)* }` */
  function ParseMembers(s: string): (r: Option<(seq<Member>, string)>)
    ensures r.Some? ==> |r.value.1| < |s|
    decreases |s|, 1
  {
    var t := SkipWs(s);
    if |t| == 0 || t[0] != '"' then None
    else
      match ParseStringBody(t[1..])
      case None => None
      case Some((name, r1)) =>
        var r2 := SkipWs(r1);
        if |r2| == 0 || r2[0] != ':' then None
        else
          match ParseValue(r2[1..])
          case None => None
          case Some((v, r3)) =>
            var r4 := SkipWs(r3);
            if |r4| == 0 then None
            else if r4[0] == '}' then Some(([Member(name, v)], r4[1..]))
            else if r4[0] != ',' then None
            else
              match ParseMembers(r4[1..])
              case None => None
              case Some((ms, r5)) => Some(([Member(name, v)] + ms, r5))
  }

  /** The items of an array and its closing bracket; `s` starts after the
      opening bracket. */
  function ParseArrayBody(s: string): (r: Option<(Json, string)>)
    ensures r.Some? ==> |r.value.1| < |s|
    decreases |s|, 2
  {
    var t := SkipWs(s);
    if |t| > 0 && t[0] == ']' then Some((JArray([]), t[1..]))
    else
      match ParseItems(t)
      case None => None
      case Some((items, rest)) => Some((JArray(items), rest))
  }

  /** `value (, value)* ]` */
  function ParseItems(s: string): (r: Option<(seq<Json>, string)>)
    ensures r.Some? ==> |r.value.1| < |s|
    decreases |s|, 1
  {
    match ParseValue(s)
    case None => None
    case Some((v, r1)) =>
      var r2 := SkipWs(r1);
      if |r2| == 0 then None
      else if r2[0] == ']' then Some(([v], r2[1..]))
      else if r2[0] != ',' then None
      else
        match ParseItems(r2[1..])
        case None => None
        case Some((items, r3)) => Some(([v] + items, r3))
  }

  /** A whole document: one value, then nothing but whitespace. */
  function Parse(s: string): (r: Option<Json>)
  {
    match ParseValue(s)
    case None => None
    case Some((v, rest)) => if |SkipWs(rest)| == 0 then Some(v) else None
  }

  // ------------------------------------------------------------ round trip

  /** The values the modelled writers produce: no number tokens, whose
      lexemes only the host's number formatting would fix. */
  predicate NumberFree(j: Json)
    decreases j
  {
    match j
    case JNumber(_) => false
    case JArray(items) => forall i :: 0 <= i < |items| ==> NumberFree(items[i])
    case JObject(ms) => forall i :: 0 <= i < |ms| ==> NumberFree(ms[i].value)
    case _ => true
  }

  lemma HexValueOfHex(v: int, upper: bool)
    requires 0 <= v < 16
    ensures HexValue(Hex(v, upper)) == Some(v)
  {
  }

  /** Reading one escaped character back gives the character. */
  lemma ParseEscapedChar(c: char, upper: bool, tail: string)
    ensures ParseStringBody(EscapeChar(c, upper) + tail) ==
            match ParseStringBody(tail)
            case None => None
            case Some((body, after)) => Some(([c] + body, after))
  {
    var x := EscapeChar(c, upper) + tail;
    if c < ' ' && c != '\n' && c != '\r' && c != '\t' && c as int != 8 && c as int != 12 {
      var n := c as int;
      HexValueOfHex(n / 16, upper);
      HexValueOfHex(n % 16, upper);
      assert x[1..] == ['u', '0', '0', Hex(n / 16, upper), Hex(n % 16, upper)] + tail;
      assert x[2..][..4] == ['0', '0', Hex(n / 16, upper), Hex(n % 16, upper)];
      assert Hex4(x[2..]) == Some(n);
      assert x[1..][5..] == tail;
    } else if |EscapeChar(c, upper)| == 2 {
      assert x[1..][1..] == tail;
    } else {
      assert x[1..] == tail;
    }
  }

  lemma Assoc(a: string, b: string, c: string)
    ensures (a + b) + c == a + (b + c)
  {
  }

  /** A written string literal reads back as the same string, whatever
      follows it. */
  lemma {:induction false} ParseWrittenString(s: string, upper: bool, rest: string)
    ensures ParseStringBody(Escape(s, upper) + (['"'] + rest)) == Some((s, rest))
  {
    if |s| == 0 {
      assert Escape(s, upper) + (['"'] + rest) == ['"'] + rest;
    } else {
      var tail := Escape(s[1..], upper) + (['"'] + rest);
      Assoc(EscapeChar(s[0], upper), Escape(s[1..], upper), ['"'] + rest);
      ParseWrittenString(s[1..], upper, rest);
      ParseEscapedChar(s[0], upper, tail);
      assert [s[0]] + s[1..] == s;
    }
  }

  /** How `ParseValue` dispatches on the first character of a value. */
  lemma ParseValueDispatch(x: string)
    requires |x| > 0 && !IsWs(x[0])
    ensures x[0] == '{' ==> ParseValue(x) == ParseObjectBody(x[1..])
    ensures x[0] == '[' ==> ParseValue(x) == ParseArrayBody(x[1..])
    ensures x[0] == '"' ==> ParseValue(x) == (match ParseStringBody(x[1..])
                                              case None => None
                                              case Some((str, rest)) => Some((JString(str), rest)))
  {
    assert SkipWs(x) == x;
  }

  /** The literals `null`, `true` and `false` read back. */
  lemma ParseWriteLiteral(j: Json, upper: bool, rest: string)
    requires j.JNull? || j.JBool?
    ensures ParseValue(Write(j, upper) + rest) == Some((j, rest))
  {
    var x := Write(j, upper) + rest;
    assert SkipWs(x) == x;
    if j.JNull? {
      assert x[..4] == "null" && x[4..] == rest;
    } else if j.b {
      assert x[..4] == "true" && x[4..] == rest;
    } else {
      assert x[..4][0] == 'f';
      assert x[..5] == "false" && x[5..] == rest;
    }
  }

  /** A written value never starts with whitespace. */
  lemma WriteStart(j: Json, upper: bool)
    requires NumberFree(j)
    ensures |Write(j, upper)| > 0 && !IsWs(Write(j, upper)[0])
  {
  }

  /** Whatever the writer produces, the reader gives back the same value
      and leaves what follows untouched. */
  lemma {:induction false} ParseWrite(j: Json, upper: bool, rest: string)
    requires NumberFree(j)
    ensures ParseValue(Write(j, upper) + rest) == Some((j, rest))
    decreases j, 2
  {
    match j {
      case JNull => ParseWriteLiteral(j, upper, rest);
      case JBool(_) => ParseWriteLiteral(j, upper, rest);
      case JString(str) =>
        var x := Write(j, upper) + rest;
        Assoc(['"'], Escape(str, upper) + ['"'], rest);
        Assoc(Escape(str, upper), ['"'], rest);
        ParseValueDispatch(x);
        ParseWrittenString(str, upper, rest);
      case JArray(items) => ParseWriteArray(items, upper, rest);
      case JObject(ms) => ParseWriteObject(ms, upper, rest);
    }
  }

  lemma {:induction false} ParseWriteArray(items: seq<Json>, upper: bool, rest: string)
    requires forall i :: 0 <= i < |items| ==> NumberFree(items[i])
    ensures ParseValue(Write(JArray(items), upper) + rest) == Some((JArray(items), rest))
    decreases items, 1
  {
    var x := Write(JArray(items), upper) + rest;
    var body := WriteItems(items, upper) + ("]" + rest);
    Assoc("[", WriteItems(items, upper) + "]", rest);
    Assoc(WriteItems(items, upper), "]", rest);
    assert x == "[" + body && x[1..] == body;
    ParseValueDispatch(x);
    if |items| == 0 {
      assert body == "]" + rest;
      assert SkipWs(body) == body;
    } else {
      WriteStart(items[0], upper);
      assert body[0] == Write(items[0], upper)[0];
      assert SkipWs(body) == body;
      ParseWriteItems(items, upper, rest);
    }
  }

  lemma {:induction false} ParseWriteObject(ms: seq<Member>, upper: bool, rest: string)
    requires forall i :: 0 <= i < |ms| ==> NumberFree(ms[i].value)
    ensures ParseValue(Write(JObject(ms), upper) + rest) == Some((JObject(ms), rest))
    decreases ms, 1
  {
    var x := Write(JObject(ms), upper) + rest;
    var body := WriteMembers(ms, upper) + ("}" + rest);
    Assoc("{", WriteMembers(ms, upper) + "}", rest);
    Assoc(WriteMembers(ms, upper), "}", rest);
    assert x == "{" + body && x[1..] == body;
    ParseValueDispatch(x);
    if |ms| == 0 {
      assert body == "}" + rest;
      assert SkipWs(body) == body;
    } else {
      assert body[0] == '"';
      assert SkipWs(body) == body;
      ParseWriteMembers(ms, upper, rest);
    }
  }

  /** One step of `ParseItems`: an item, then `]` or `,` and more items. */
  lemma ParseItemsStep(x: string, v: Json, tail: string)
    requires ParseValue(x) == Some((v, tail))
    requires |tail| > 0 && (tail[0] == ']' || tail[0] == ',')
    ensures tail[0] == ']' ==> ParseItems(x) == Some(([v], tail[1..]))
    ensures tail[0] == ',' ==> (ParseItems(x) ==
              match ParseItems(tail[1..])
              case None => None
              case Some((items, after)) => Some(([v] + items, after)))
  {
    assert SkipWs(tail) == tail;
  }

  /** One step of `ParseMembers`: a name, a colon, a value, then `}` or
      `,` and more members. */
  lemma ParseMembersStep(x: string, name: string, r1: string, v: Json, tail: string)
    requires |x| > 0 && x[0] == '"'
    requires ParseStringBody(x[1..]) == Some((name, r1))
    requires |r1| > 0 && r1[0] == ':'
    requires ParseValue(r1[1..]) == Some((v, tail))
    requires |tail| > 0 && (tail[0] == '}' || tail[0] == ',')
    ensures tail[0] == '}' ==> ParseMembers(x) == Some(([Member(name, v)], tail[1..]))
    ensures tail[0] == ',' ==> (ParseMembers(x) ==
              match ParseMembers(tail[1..])
              case None => None
              case Some((ms, after)) => Some(([Member(name, v)] + ms, after)))
  {
    assert SkipWs(x) == x;
    assert SkipWs(r1) == r1;
    assert SkipWs(tail) == tail;
  }

  lemma {:induction false} ParseWriteItems(items: seq<Json>, upper: bool, rest: string)
    requires |items| > 0
    requires forall i :: 0 <= i < |items| ==> NumberFree(items[i])
    ensures ParseItems(WriteItems(items, upper) + ("]" + rest)) == Some((items, rest))
    decreases items, 0
  {
    var r := "]" + rest;
    var w := Write(items[0], upper);
    if |items| == 1 {
      ParseWrite(items[0], upper, r);
      ParseItemsStep(w + r, items[0], r);
      assert r[1..] == rest;
      assert [items[0]] == items;
    } else {
      var more := WriteItems(items[1..], upper) + r;
      var tail := "," + more;
      Assoc(w, "," + WriteItems(items[1..], upper), r);
      Assoc(",", WriteItems(items[1..], upper), r);
      ParseWrite(items[0], upper, tail);
      ParseItemsStep(w + tail, items[0], tail);
      assert tail[1..] == more;
      ParseWriteItems(items[1..], upper, rest);
      assert [items[0]] + items[1..] == items;
    }
  }

  lemma {:induction false} ParseWriteMembers(ms: seq<Member>, upper: bool, rest: string)
    requires |ms| > 0
    requires forall i :: 0 <= i < |ms| ==> NumberFree(ms[i].value)
    ensures ParseMembers(WriteMembers(ms, upper) + ("}" + rest)) == Some((ms, rest))
    decreases ms, 0
  {
    var m := ms[0];
    var r := "}" + rest;
    var sep := if |ms| == 1 then [] else "," + WriteMembers(ms[1..], upper);
    var w := Write(m.value, upper);
    var e := Escape(m.name, upper);
    var tail := sep + r;
    var r1 := ":" + (w + tail);
    var x := WriteMembers(ms, upper) + r;
    // x == "\"" + (e + ("\"" + r1)), one regrouping at a time
    Assoc(WriteString(m.name, upper), ":" + (w + sep), r);
    Assoc(":", w + sep, r);
    Assoc(w, sep, r);
    Assoc(['"'], e + ['"'], r1);
    Assoc(e, ['"'], r1);
    assert x == ['"'] + (e + (['"'] + r1));
    assert x[1..] == e + (['"'] + r1);
    ParseWrittenString(m.name, upper, r1);
    assert r1[1..] == w + tail;
    ParseWrite(m.value, upper, tail);
    ParseMembersStep(x, m.name, r1, m.value, tail);
    if |ms| > 1 {
      Assoc(",", WriteMembers(ms[1..], upper), r);
      assert tail[1..] == WriteMembers(ms[1..], upper) + r;
      ParseWriteMembers(ms[1..], upper, rest);
      assert [m] + ms[1..] == ms;
    } else {
      assert tail == r && tail[1..] == rest;
      assert [m] == ms;
    }
  }

  /** A written document parses back to the value written. */
  lemma ParseWriteDocument(j: Json, upper: bool)
    requires NumberFree(j)
    ensures Parse(Write(j, upper)) == Some(j)
  {
    ParseWrite(j, upper, []);
    assert Write(j, upper) + [] == Write(j, upper);
  }
}
