/** The `java.lang.String` and `java.lang.Integer` behaviour the plugin
    relies on: blank and empty checks, the `\d+` pattern, `Integer.parseInt`,
    UTF-16 code units and `String.hashCode` with 32-bit wrap-around. */
module JavaText {
  import opened Wrappers

  /** `Character.isWhitespace`: the Unicode space, line and paragraph
      separators except the three non-breaking spaces, plus the ASCII
      controls TAB, LF, VT, FF, CR and the four information separators. */
  predicate IsWhitespace(c: char) {
    var n := c as int;
    || 9 <= n <= 13
    || 28 <= n <= 32
    || n == 0x1680
    || 0x2000 <= n <= 0x2006
    || 0x2008 <= n <= 0x200A
    || n == 0x2028 || n == 0x2029
    || n == 0x205F
    || n == 0x3000
  }

  /** `String.isBlank`: empty or only whitespace code points. */
  predicate IsBlank(s: string) {
    forall i :: 0 <= i < |s| ==> IsWhitespace(s[i])
  }

  /** `s == null || s.isBlank()` */
  predicate NullOrBlank(s: Option<string>) {
    s.None? || IsBlank(s.value)
  }

  /** `s == null || s.isEmpty()` */
  predicate NullOrEmpty(s: Option<string>) {
    s.None? || |s.value| == 0
  }

  predicate IsAsciiDigit(c: char) {
    '0' <= c <= '9'
  }

  /** `s.matches("\\d+")`: Java's `\d` is `[0-9]` unless the pattern
      asks for Unicode character classes, and `matches` anchors both ends. */
  predicate MatchesDigits(s: string) {
    |s| > 0 && forall i :: 0 <= i < |s| ==> IsAsciiDigit(s[i])
  }

  const IntMin: int := -0x8000_0000
  const IntMax: int := 0x7FFF_FFFF

  function DigitValue(c: char): int
    requires IsAsciiDigit(c)
  {
    c as int - '0' as int
  }

  /** The value of a run of ASCII digits, most significant first. */
  function DigitsValue(s: string): nat
    requires forall i :: 0 <= i < |s| ==> IsAsciiDigit(s[i])
  {
    if |s| == 0 then 0
    else DigitsValue(s[..|s| - 1]) * 10 + DigitValue(s[|s| - 1])
  }

  predicate AllDigits(s: string) {
    forall i :: 0 <= i < |s| ==> IsAsciiDigit(s[i])
  }

  /** The code point of `0` in each run of ten Unicode decimal digits
      (general category Nd) inside the Basic Multilingual Plane. */
  const DigitZeros: seq<int> :=
    [0x30, 0x660, 0x6F0, 0x7C0, 0x966, 0x9E6, 0xA66, 0xAE6, 0xB66, 0xBE6,
     0xC66, 0xCE6, 0xD66, 0xDE6, 0xE50, 0xED0, 0xF20, 0x1040, 0x1090, 0x17E0,
     0x1810, 0x1946, 0x19D0, 0x1A80, 0x1A90, 0x1B50, 0x1BB0, 0x1C40, 0x1C50, 0xA620,
     0xA8D0, 0xA900, 0xA9D0, 0xA9F0, 0xAA50, 0xABF0, 0xFF10]

  /** Every run starts at `0` or above, and the fullwidth run is the only
      one above U+FF06. */
  lemma DigitZerosBounds(i: nat)
    requires i < |DigitZeros|
    ensures '0' as int <= DigitZeros[i]
    ensures 0xFF06 < DigitZeros[i] ==> DigitZeros[i] == 0xFF10
  {
    assert DigitZeros[i] in DigitZeros;
  }

  function DigitIn(n: int, zeros: seq<int>): (d: Option<int>)
    ensures d.Some? <==> exists i :: 0 <= i < |zeros| && zeros[i] <= n < zeros[i] + 10
    ensures d.Some? ==> exists i :: 0 <= i < |zeros| && d.value == n - zeros[i] && 0 <= d.value < 10
    ensures (forall i :: 0 <= i < |zeros| ==> n < zeros[i]) ==> d.None?
  {
    if |zeros| == 0 then None
    else if zeros[0] <= n < zeros[0] + 10 then
      Some(n - zeros[0])
    else
      var d := DigitIn(n, zeros[1..]);
      assert forall i :: 1 <= i < |zeros| ==> zeros[i] == zeros[1..][i - 1];
      d
  }

  /** `Character.digit(c, 10)` on one UTF-16 code unit: the value of a
      decimal digit of any script, `None` for everything else. A character
      outside the Basic Multilingual Plane is a surrogate pair in Java, and
      neither half is a digit. */
  function JavaDigit(c: char): (d: Option<int>)
    ensures d.Some? <==> c as int < 0x10000 && exists i :: 0 <= i < |DigitZeros| && DigitZeros[i] <= c as int < DigitZeros[i] + 10
    ensures d.Some? ==> 0 <= d.value < 10
    ensures IsAsciiDigit(c) ==> d == Some(DigitValue(c))
    ensures c < '0' ==> d.None?
  {
    forall i | 0 <= i < |DigitZeros| ensures '0' as int <= DigitZeros[i] {
      DigitZerosBounds(i);
    }
    if c as int < 0x10000 then DigitIn(c as int, DigitZeros) else None
  }

  predicate JavaDigits(s: string) {
    forall i :: 0 <= i < |s| ==> JavaDigit(s[i]).Some?
  }

  /** The value of a run of decimal digits of any script, most significant
      first, as `Integer.parseInt` accumulates it. */
  function JavaDigitsValue(s: string): nat
    requires JavaDigits(s)
  {
    if |s| == 0 then 0
    else JavaDigitsValue(s[..|s| - 1]) * 10 + JavaDigit(s[|s| - 1]).value
  }

  /** On ASCII digits the two readings agree. */
  lemma {:induction false} AsciiDigitsAgree(s: string)
    ensures AllDigits(s) ==> JavaDigits(s) && JavaDigitsValue(s) == DigitsValue(s)
  {
    if AllDigits(s) && |s| > 0 {
      assert AllDigits(s[..|s| - 1]);
      AsciiDigitsAgree(s[..|s| - 1]);
    }
  }

  /** The digits after an optional sign, read as a 32-bit int. */
  function SignedValue(digits: string, negative: bool): (r: Option<int>)
    ensures r.Some? <==> |digits| > 0 && JavaDigits(digits)
                         && (if negative then JavaDigitsValue(digits) <= -IntMin else JavaDigitsValue(digits) <= IntMax)
    ensures r.Some? ==> r.value == if negative then -(JavaDigitsValue(digits) as int) else JavaDigitsValue(digits) as int
  {
    if |digits| == 0 || !JavaDigits(digits) then None
    else
      var v := if negative then -(JavaDigitsValue(digits) as int) else JavaDigitsValue(digits) as int;
      if IntMin <= v <= IntMax then Some(v) else None
  }

  /** `Integer.parseInt(s)` (and `Integer.valueOf(s)`), with `None` for
      the `NumberFormatException` cases: null, empty, a lone sign, a
      character that is not a decimal digit of some script, or a value
      outside the 32-bit range. */
  function ParseInt(s: Option<string>): (r: Option<int>)
    ensures r.Some? ==> IntMin <= r.value <= IntMax
    ensures s.Some? && MatchesDigits(s.value) && DigitsValue(s.value) <= IntMax
            ==> r == Some(DigitsValue(s.value) as int)
    ensures s.Some? && |s.value| > 0 && JavaDigits(s.value) && JavaDigitsValue(s.value) <= IntMax
            ==> r == Some(JavaDigitsValue(s.value) as int)
    ensures (s.Some? && |s.value| > 1 && s.value[0] == '-' && JavaDigits(s.value[1..])
             && JavaDigitsValue(s.value[1..]) <= -IntMin) ==> r == Some(-(JavaDigitsValue(s.value[1..]) as int))
    ensures r.Some? ==>
              s.Some? && ((|s.value| > 0 && JavaDigits(s.value))
                          || (|s.value| > 1 && (s.value[0] == '-' || s.value[0] == '+') && JavaDigits(s.value[1..])))
    ensures s.None? || |s.value| == 0 ==> r.None?
    ensures (s.Some? && |s.value| > 0 && s.value[0] != '-' && s.value[0] != '+') ==>
              && (r.Some? <==> JavaDigits(s.value) && JavaDigitsValue(s.value) <= IntMax)
              && (r.Some? ==> r.value == JavaDigitsValue(s.value) as int)
    ensures (s.Some? && |s.value| > 0 && s.value[0] == '+') ==>
              && (r.Some? <==> |s.value| > 1 && JavaDigits(s.value[1..]) && JavaDigitsValue(s.value[1..]) <= IntMax)
              && (r.Some? ==> r.value == JavaDigitsValue(s.value[1..]) as int)
    ensures (s.Some? && |s.value| > 0 && s.value[0] == '-') ==>
              && (r.Some? <==> |s.value| > 1 && JavaDigits(s.value[1..]) && JavaDigitsValue(s.value[1..]) <= -IntMin)
              && (r.Some? ==> r.value == -(JavaDigitsValue(s.value[1..]) as int))
  {
    if s.None? || |s.value| == 0 then None
    else
      var t := s.value;
      AsciiDigitsAgree(t);
      assert JavaDigit('-').None? && JavaDigit('+').None?;
      if t[0] == '-' || t[0] == '+' then SignedValue(t[1..], t[0] == '-')
      else SignedValue(t, false)
  }

  /** A digit from another script parses too: the fullwidth digits of East
      Asian text give their values. */
  lemma FullwidthDigitParses(d: nat)
    requires d < 10
    ensures ParseInt(Some([(0xFF10 + d) as char])) == Some(d)
  {
    var c := (0xFF10 + d) as char;
    assert JavaDigit(c).Some? by {
      assert DigitZeros[36] <= c as int < DigitZeros[36] + 10;
    }
    var i :| 0 <= i < |DigitZeros| && JavaDigit(c).value == c as int - DigitZeros[i] && 0 <= JavaDigit(c).value < 10;
    DigitZerosBounds(i);
    var t := [c];
    assert t[..0] == [];
    assert JavaDigitsValue(t) == d;
  }

  /** Decimal rendering of a natural number, most significant digit first. */
  function Decimal(n: nat): (s: string)
    ensures |s| > 0 && AllDigits(s)
  {
    var d := ['0' + (n % 10) as char];
    if n < 10 then d else Decimal(n / 10) + d
  }

  lemma {:induction false} DigitsValueOfDecimal(n: nat)
    ensures DigitsValue(Decimal(n)) == n
  {
    var s := Decimal(n);
    if n >= 10 {
      DigitsValueOfDecimal(n / 10);
      assert s[..|s| - 1] == Decimal(n / 10);
    }
  }

  /** Round trip: `Integer.parseInt` reads back the decimal rendering of
      every non-negative 32-bit value. */
  lemma ParseIntOfDecimal(n: nat)
    requires n <= IntMax
    ensures ParseInt(Some(Decimal(n))) == Some(n)
  {
    DigitsValueOfDecimal(n);
  }

  /** The UTF-16 code units Java stores for one Unicode scalar value. */
  function Utf16Units(c: char): (u: seq<int>)
    ensures |u| == 1 || |u| == 2
    ensures forall i :: 0 <= i < |u| ==> 0 <= u[i] < 0x10000
  {
    var n := c as int;
    if n < 0x10000 then [n]
    else
      var m := n - 0x10000;
      [0xD800 + m / 0x400, 0xDC00 + m % 0x400]
  }

  /** Two's-complement truncation to 32 bits, as Java's `int` arithmetic. */
  function Wrap32(x: int): (r: int)
    ensures IntMin <= r <= IntMax
    ensures (r - x) % 0x1_0000_0000 == 0
  {
    (x - IntMin) % 0x1_0000_0000 + IntMin
  }

  /** Values already in range are left alone. */
  lemma Wrap32Identity(x: int)
    requires IntMin <= x <= IntMax
    ensures Wrap32(x) == x
  {
    var y := x - IntMin;
    assert 0 <= y < 0x1_0000_0000;
    assert y % 0x1_0000_0000 == y;
  }

  function HashUnits(h: int, u: seq<int>): (r: int)
    requires IntMin <= h <= IntMax
    ensures IntMin <= r <= IntMax
    decreases |u|
  {
    if |u| == 0 then h else HashUnits(Wrap32(31 * h + u[0]), u[1..])
  }

  function Units(s: string): seq<int>
  {
    if |s| == 0 then [] else Utf16Units(s[0]) + Units(s[1..])
  }

  /** `String.hashCode`: `s[0]*31^(n-1) + … + s[n-1]` over UTF-16 code
      units, in 32-bit arithmetic. */
  function StringHash(s: string): (h: int)
    ensures IntMin <= h <= IntMax
  {
    HashUnits(0, Units(s))
  }
}
