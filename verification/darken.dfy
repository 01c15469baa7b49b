/** `Block.darkenColor`: the three channels of a `#rrggbb` colour, each scaled down by
    a percentage, written back as lowercase hexadecimal. Channels are read with
    `parseInt(…, 16)`, so a malformed colour yields NaN channels, written `NaN`. The
    percentage is an integer here. */
module BlockColor {
  import opened Options
  import opened IrStrings

  /** The white space and line terminators `parseInt` skips before the number. */
  predicate IsJsSpace(c: char) {
    c == '\t' || c == '\n' || c == '\U{000B}' || c == '\U{000C}' || c == '\r' || c == ' ' ||
    c == '\U{00A0}' || c == '\U{1680}' || ('\U{2000}' <= c <= '\U{200A}') ||
    c == '\U{2028}' || c == '\U{2029}' || c == '\U{202F}' || c == '\U{205F}' ||
    c == '\U{3000}' || c == '\U{FEFF}'
  }

  predicate IsHexDigit(c: char) {
    ('0' <= c <= '9') || ('a' <= c <= 'f') || ('A' <= c <= 'F')
  }

  predicate AllHexDigits(s: string) {
    forall i :: 0 <= i < |s| ==> IsHexDigit(s[i])
  }

  function DigitValue(c: char): (d: nat)
    requires IsHexDigit(c)
    ensures d < 16
  {
    if '0' <= c <= '9' then c as int - '0' as int
    else if 'a' <= c <= 'f' then c as int - 'a' as int + 10
    else c as int - 'A' as int + 10
  }

  /** The value of a run of hexadecimal digits, most significant first. */
  function HexValue(ds: string): nat
    requires AllHexDigits(ds)
  {
    if ds == [] then 0 else 16 * HexValue(ds[..|ds| - 1]) + DigitValue(ds[|ds| - 1])
  }

  function TrimStart(s: string): (t: string)
    ensures |t| > 0 ==> !IsJsSpace(t[0])
  {
    if |s| > 0 && IsJsSpace(s[0]) then TrimStart(s[1..]) else s
  }

  /** The length of the run of hexadecimal digits at the start of `s`. */
  function HexRun(s: string): (n: nat)
    ensures n <= |s| && AllHexDigits(s[..n])
    ensures n < |s| ==> !IsHexDigit(s[n])
  {
    if |s| > 0 && IsHexDigit(s[0]) then
      assert s[..1 + HexRun(s[1..])] == [s[0]] + s[1..][..HexRun(s[1..])];
      1 + HexRun(s[1..])
    else 0
  }

  /** `parseInt(s, 16)`: leading white space, then an optional sign, then an optional
      `0x` or `0X`, then the longest run of hexadecimal digits; `None` is NaN, the
      result when that run is empty. */
  function ParseHexInt(s: string): Option<int> {
    var t := TrimStart(s);
    var negative := |t| > 0 && t[0] == '-';
    var unsigned := if |t| > 0 && (t[0] == '-' || t[0] == '+') then t[1..] else t;
    var digits :=
      if |unsigned| >= 2 && unsigned[0] == '0' && (unsigned[1] == 'x' || unsigned[1] == 'X')
      then unsigned[2..] else unsigned;
    var n := HexRun(digits);
    if n == 0 then None
    else
      var m: int := HexValue(digits[..n]);
      var value: int := if negative then -m else m;
      Some(value)
  }

  /** `substring`'s slice of a sequence: the bounds are clamped to the sequence and
      swapped when out of order. */
  function Substring<T>(s: seq<T>, start: nat, end: nat): (r: seq<T>)
    ensures |r| <= |s|
    ensures var a := if start < |s| then start else |s|;
      var b := if end < |s| then end else |s|;
      |r| == (if a <= b then b - a else a - b)
  {
    var a := if start < |s| then start else |s|;
    var b := if end < |s| then end else |s|;
    if a <= b then s[a..b] else s[b..a]
  }

  /** A code unit read back as a character. A unit that is a character of its own is
      that character; a lone surrogate has no `char`, and becomes U+FFFD, which, like
      the surrogate, is neither white space, a sign nor a digit to `parseInt`. */
  function UnitChar(u: int): (c: char)
    ensures 0 <= u < 0xD800 || 0xE000 <= u < 0x10000 ==> c as int == u
    ensures !(0 <= u < 0xD800 || 0xE000 <= u < 0x10000) ==> c == '\U{FFFD}'
  {
    if 0 <= u < 0xD800 || 0xE000 <= u < 0x10000 then u as char else '\U{FFFD}'
  }

  /** A run of code units read back unit by unit. */
  function UnitText(units: seq<int>): (t: string)
    ensures |t| == |units|
    ensures forall i :: 0 <= i < |units| ==> t[i] == UnitChar(units[i])
  {
    if units == [] then [] else [UnitChar(units[0])] + UnitText(units[1..])
  }

  /** `s.substring(start, end)`: JavaScript indexes the UTF-16 code units, so a
      character above U+FFFF takes two positions and may be cut in half. */
  function JsSubstring(s: string, start: nat, end: nat): string {
    UnitText(Substring(Utf16Units(s), start, end))
  }

  /** On text without characters above U+FFFF, code units and characters coincide. */
  lemma {:induction false} BmpUnits(s: string)
    requires forall i :: 0 <= i < |s| ==> s[i] as int < 0x10000
    ensures |Utf16Units(s)| == |s|
    ensures forall i :: 0 <= i < |s| ==> Utf16Units(s)[i] == s[i] as int
  {
    if s != [] {
      BmpUnits(s[1..]);
      assert Utf16Units(s) == [s[0] as int] + Utf16Units(s[1..]);
    }
  }

  /** On text without characters above U+FFFF, `substring` cuts by characters. */
  lemma BmpSubstring(s: string, start: nat, end: nat)
    requires forall i :: 0 <= i < |s| ==> s[i] as int < 0x10000
    ensures JsSubstring(s, start, end) == Substring(s, start, end)
  {
    BmpUnits(s);
    var u := Substring(Utf16Units(s), start, end);
    var t := Substring(s, start, end);
    assert |u| == |t|;
    forall i | 0 <= i < |t|
      ensures UnitText(u)[i] == t[i]
    {
    }
  }

  /** `s.replace('#', '')`: only the first `#` goes. */
  function RemoveFirstHash(s: string): string {
    if s == [] then []
    else if s[0] == '#' then s[1..]
    else [s[0]] + RemoveFirstHash(s[1..])
  }

  /** `Math.max(0, Math.floor(c * (100 - percent) / 100))`; NaN stays NaN. */
  function Scale(c: Option<int>, percent: int): Option<nat> {
    if c.None? then None
    else
      var scaled := c.value * (100 - percent) / 100;
      Some(if scaled < 0 then 0 else scaled)
  }

  function HexChar(d: nat): char
    requires d < 16
  {
    "0123456789abcdef"[d]
  }

  /** `n.toString(16)`. */
  function HexString(n: nat): (s: string)
    ensures |s| >= 1
  {
    if n < 16 then [HexChar(n)] else HexString(n / 16) + [HexChar(n % 16)]
  }

  /** `c.toString(16).padStart(2, '0')`. */
  function ToHex(c: Option<nat>): (s: string)
    ensures |s| >= 2
  {
    if c.None? then "NaN"
    else
      var s := HexString(c.value);
      if |s| >= 2 then s else "0" + s
  }

  /** Channel `k` (0 red, 1 green, 2 blue), read from `hex.substring(2k, 2k + 2)`,
      scaled and written back. */
  function DarkChannel(hex: string, k: nat, percent: int): string {
    ToHex(Scale(ParseHexInt(JsSubstring(hex, 2 * k, 2 * k + 2)), percent))
  }

  /** `darkenColor`. */
  function DarkenColor(color: string, percent: int): (r: string)
    ensures |r| >= 7 && r[0] == '#'
  {
    var hex := RemoveFirstHash(color);
    "#" + DarkChannel(hex, 0, percent) + DarkChannel(hex, 1, percent) + DarkChannel(hex, 2, percent)
  }

  // ----- Properties -----

  predicate IsLowerHexDigit(c: char) {
    ('0' <= c <= '9') || ('a' <= c <= 'f')
  }

  /** A colour written `#rrggbb`. */
  predicate IsHexColor(s: string) {
    |s| == 7 && s[0] == '#' && forall i :: 1 <= i < 7 ==> IsHexDigit(s[i])
  }

  /** The value of channel `k` (0 red, 1 green, 2 blue) of a `#rrggbb` colour. */
  function Channel(s: string, k: nat): nat
    requires IsHexColor(s) && k < 3
  {
    HexValue(s[1 + 2 * k..3 + 2 * k])
  }

  /** `HexChar` writes a lowercase digit that reads back as its value. */
  lemma HexCharDigit(d: nat)
    requires d < 16
    ensures IsLowerHexDigit(HexChar(d)) && IsHexDigit(HexChar(d))
    ensures DigitValue(HexChar(d)) == d
    ensures HexChar(d) == '0' <==> d == 0
  {
  }

  /** `toString(16)` writes lowercase digits with no leading zero. */
  lemma {:induction false} HexStringDigits(n: nat)
    ensures forall i :: 0 <= i < |HexString(n)| ==> IsLowerHexDigit(HexString(n)[i])
    ensures AllHexDigits(HexString(n))
    ensures HexString(n)[0] == '0' ==> n == 0
  {
    HexCharDigit(n % 16);
    if n >= 16 {
      HexStringDigits(n / 16);
      assert HexString(n) == HexString(n / 16) + [HexChar(n % 16)];
    }
  }

  /** `toString(16)` writes the value it is given. */
  lemma {:induction false} HexStringValue(n: nat)
    ensures AllHexDigits(HexString(n)) && HexValue(HexString(n)) == n
  {
    HexStringDigits(n);
    HexCharDigit(n % 16);
    if n >= 16 {
      HexStringValue(n / 16);
      var s := HexString(n);
      assert s[..|s| - 1] == HexString(n / 16);
      assert s[|s| - 1] == HexChar(n % 16);
    }
  }

  /** A byte takes at most two hexadecimal digits. */
  lemma HexStringOfByte(n: nat)
    requires n < 256
    ensures |HexString(n)| <= 2
  {
    if n >= 16 {
      assert n / 16 < 16;
    }
  }

  /** A leading zero does not change the value. */
  lemma {:induction false} HexValueLeadingZero(ds: string)
    requires AllHexDigits(ds)
    ensures AllHexDigits("0" + ds) && HexValue("0" + ds) == HexValue(ds)
    decreases |ds|
  {
    if ds != [] {
      HexValueLeadingZero(ds[..|ds| - 1]);
      assert ("0" + ds)[..|"0" + ds| - 1] == "0" + ds[..|ds| - 1];
    }
  }

  /** A run of digits that does not start with a space, a sign or `0x` parses to its
      value. */
  lemma ParseDigits(ds: string)
    requires |ds| > 0 && AllHexDigits(ds)
    requires |ds| >= 2 && ds[0] == '0' ==> ds[1] != 'x' && ds[1] != 'X'
    ensures ParseHexInt(ds) == Some(HexValue(ds))
  {
    assert !IsJsSpace(ds[0]);
    assert TrimStart(ds) == ds;
    HexRunAll(ds);
    assert ds[..|ds|] == ds;
  }

  lemma {:induction false} HexRunAll(ds: string)
    requires AllHexDigits(ds)
    ensures HexRun(ds) == |ds|
    decreases |ds|
  {
    if ds != [] {
      HexRunAll(ds[1..]);
    }
  }

  /** `parseInt(…, 16)` reads back what `toString(16).padStart(2, '0')` writes. */
  lemma ToHexRoundTrip(n: nat)
    ensures ParseHexInt(ToHex(Some(n))) == Some(n)
  {
    HexStringDigits(n);
    HexStringValue(n);
    var s := HexString(n);
    if |s| >= 2 {
      ParseDigits(s);
    } else {
      HexValueLeadingZero(s);
      ParseDigits("0" + s);
    }
  }

  /** A channel of a well-formed colour parses to its value. */
  lemma ChannelParses(color: string, k: nat)
    requires IsHexColor(color) && k < 3
    ensures ParseHexInt(JsSubstring(RemoveFirstHash(color), 2 * k, 2 * k + 2)) == Some(Channel(color, k))
    ensures Channel(color, k) < 256
  {
    var pair := color[1 + 2 * k..3 + 2 * k];
    assert RemoveFirstHash(color) == color[1..];
    BmpSubstring(color[1..], 2 * k, 2 * k + 2);
    assert Substring(color[1..], 2 * k, 2 * k + 2) == pair;
    ParseDigits(pair);
    assert HexValue(pair[..1]) == DigitValue(pair[0]) by {
      assert pair[..1][..0] == [];
    }
    assert HexValue(pair) == 16 * HexValue(pair[..1]) + DigitValue(pair[1]);
  }

  lemma ToHexOfByte(m: nat)
    requires m < 256
    ensures |ToHex(Some(m))| == 2
    ensures forall i :: 0 <= i < 2 ==> IsLowerHexDigit(ToHex(Some(m))[i])
    ensures AllHexDigits(ToHex(Some(m))) && HexValue(ToHex(Some(m))) == m
  {
    HexStringDigits(m);
    HexStringValue(m);
    HexStringOfByte(m);
    if |HexString(m)| < 2 {
      HexValueLeadingZero(HexString(m));
    }
  }

  lemma ScaleBounds(c: nat, percent: int)
    requires 0 <= percent <= 100
    ensures 0 <= c * (100 - percent) / 100 <= c
  {
    var q := 100 - percent;
    assert 0 <= q <= 100;
    var x := c * q;
    assert c * 100 - x == c * (100 - q);
    assert c * (100 - q) >= 0;
    assert 0 <= x <= c * 100;
  }

  /** One channel of a well-formed colour, darkened: two lowercase digits whose value
      is the scaled channel, never above the original. */
  lemma DarkChannelSpec(color: string, percent: int, k: nat)
    requires IsHexColor(color) && 0 <= percent <= 100 && k < 3
    ensures |DarkChannel(RemoveFirstHash(color), k, percent)| == 2
    ensures forall i :: 0 <= i < 2 ==> IsLowerHexDigit(DarkChannel(RemoveFirstHash(color), k, percent)[i])
    ensures AllHexDigits(DarkChannel(RemoveFirstHash(color), k, percent))
    ensures HexValue(DarkChannel(RemoveFirstHash(color), k, percent)) == Channel(color, k) * (100 - percent) / 100
    ensures Channel(color, k) * (100 - percent) / 100 <= Channel(color, k)
  {
    var c := Channel(color, k);
    ChannelParses(color, k);
    var m := c * (100 - percent) / 100;
    ScaleBounds(c, percent);
    assert Scale(Some(c), percent) == Some(m);
    ToHexOfByte(m);
  }

  /** Where three two-character parts land in `"#" + a + b + c`. */
  lemma ColourSlices(a: string, b: string, c: string)
    requires |a| == 2 && |b| == 2 && |c| == 2
    ensures |"#" + a + b + c| == 7 && ("#" + a + b + c)[0] == '#'
    ensures forall k :: 0 <= k < 3 ==> ("#" + a + b + c)[1 + 2 * k..3 + 2 * k] == [a, b, c][k]
  {
    var out := "#" + a + b + c;
    assert out[1..3] == a;
    assert out[3..5] == b;
    assert out[5..7] == c;
  }

  lemma DarkChannelLength(color: string, percent: int, k: nat)
    requires IsHexColor(color) && 0 <= percent <= 100 && k < 3
    ensures |DarkChannel(RemoveFirstHash(color), k, percent)| == 2
  {
    DarkChannelSpec(color, percent, k);
  }

  /** The three two-character channels of a darkened `#rrggbb` colour sit at
      positions 1, 3 and 5 of the result. */
  lemma DarkenLayout(color: string, percent: int)
    requires IsHexColor(color) && 0 <= percent <= 100
    ensures |DarkenColor(color, percent)| == 7 && DarkenColor(color, percent)[0] == '#'
    ensures forall k :: 0 <= k < 3 ==>
      DarkenColor(color, percent)[1 + 2 * k..3 + 2 * k] == DarkChannel(RemoveFirstHash(color), k, percent)
  {
    var hex := RemoveFirstHash(color);
    var parts := [DarkChannel(hex, 0, percent), DarkChannel(hex, 1, percent), DarkChannel(hex, 2, percent)];
    DarkChannelLength(color, percent, 0);
    DarkChannelLength(color, percent, 1);
    DarkChannelLength(color, percent, 2);
    ColourSlices(parts[0], parts[1], parts[2]);
    assert forall k :: 0 <= k < 3 ==> parts[k] == DarkChannel(hex, k, percent);
  }

  /** Three pairs of lowercase digits after a `#` make a lowercase `#rrggbb` colour. */
  lemma LowerColour(a: string, b: string, c: string)
    requires |a| == 2 && |b| == 2 && |c| == 2
    requires forall i :: 0 <= i < 2 ==> IsLowerHexDigit(a[i])
    requires forall i :: 0 <= i < 2 ==> IsLowerHexDigit(b[i])
    requires forall i :: 0 <= i < 2 ==> IsLowerHexDigit(c[i])
    ensures IsHexColor("#" + a + b + c)
    ensures forall i :: 1 <= i < 7 ==> IsLowerHexDigit(("#" + a + b + c)[i])
  {
    var out := "#" + a + b + c;
    assert out[1] == a[0] && out[2] == a[1];
    assert out[3] == b[0] && out[4] == b[1];
    assert out[5] == c[0] && out[6] == c[1];
  }

  /** Darkening a `#rrggbb` colour by a percentage between 0 and 100 gives a `#rrggbb`
      colour in lowercase. */
  lemma DarkenShape(color: string, percent: int)
    requires IsHexColor(color) && 0 <= percent <= 100
    ensures IsHexColor(DarkenColor(color, percent))
    ensures forall i :: 1 <= i < 7 ==> IsLowerHexDigit(DarkenColor(color, percent)[i])
  {
    var hex := RemoveFirstHash(color);
    DarkChannelSpec(color, percent, 0);
    DarkChannelSpec(color, percent, 1);
    DarkChannelSpec(color, percent, 2);
    LowerColour(DarkChannel(hex, 0, percent), DarkChannel(hex, 1, percent), DarkChannel(hex, 2, percent));
  }

  /** Every channel of the darkened colour is the scaled original channel, never
      above it. */
  lemma DarkenSpec(color: string, percent: int)
    requires IsHexColor(color) && 0 <= percent <= 100
    ensures IsHexColor(DarkenColor(color, percent))
    ensures forall k :: 0 <= k < 3 ==>
      Channel(DarkenColor(color, percent), k) == Channel(color, k) * (100 - percent) / 100 &&
      Channel(DarkenColor(color, percent), k) <= Channel(color, k)
  {
    DarkenShape(color, percent);
    DarkenLayout(color, percent);
    forall k | 0 <= k < 3
      ensures Channel(DarkenColor(color, percent), k) == Channel(color, k) * (100 - percent) / 100
      ensures Channel(DarkenColor(color, percent), k) <= Channel(color, k)
    {
      DarkChannelSpec(color, percent, k);
    }
  }

  lemma DarkChannelBlack(hex: string, k: nat)
    requires ParseHexInt(JsSubstring(hex, 2 * k, 2 * k + 2)).Some?
    ensures DarkChannel(hex, k, 100) == "00"
  {
    var c := ParseHexInt(JsSubstring(hex, 2 * k, 2 * k + 2)).value;
    assert Scale(Some(c), 100) == Some(0);
    assert HexString(0) == "0";
  }

  /** Darkening by 100 percent gives black whenever all three channels parse. */
  lemma DarkenFully(color: string)
    requires ParseHexInt(JsSubstring(RemoveFirstHash(color), 0, 2)).Some?
    requires ParseHexInt(JsSubstring(RemoveFirstHash(color), 2, 4)).Some?
    requires ParseHexInt(JsSubstring(RemoveFirstHash(color), 4, 6)).Some?
    ensures DarkenColor(color, 100) == "#000000"
  {
    assert "#" + "00" + "00" + "00" == "#000000";
    DarkChannelBlack(RemoveFirstHash(color), 0);
    DarkChannelBlack(RemoveFirstHash(color), 1);
    DarkChannelBlack(RemoveFirstHash(color), 2);
  }

  /** Two hexadecimal digits parse to their value. */
  lemma ParsePair(a: char, b: char)
    requires IsHexDigit(a) && IsHexDigit(b) && !(a == '0' && (b == 'x' || b == 'X'))
    ensures ParseHexInt([a, b]) == Some(16 * DigitValue(a) + DigitValue(b))
  {
    ParseDigits([a, b]);
    assert [a, b][..1] == [a];
    assert [a][..0] == [];
    assert HexValue([a]) == DigitValue(a);
    assert HexValue([a, b]) == 16 * HexValue([a]) + DigitValue(b);
  }

  /** A value from 16 to 255 is written as two digits. */
  lemma HexStringPair(n: nat)
    requires 16 <= n < 256
    ensures HexString(n) == [HexChar(n / 16), HexChar(n % 16)]
  {
    assert n / 16 < 16;
  }

  lemma ShorthandRedText()
    ensures JsSubstring("fff", 0, 2) == "ff"
  {
    BmpSubstring("fff", 0, 2);
    assert Substring("fff", 0, 2) == "ff";
  }

  lemma ShorthandRed()
    ensures DarkChannel("fff", 0, 20) == "cc"
  {
    ShorthandRedText();
    ParsePair('f', 'f');
    assert Scale(Some(255), 20) == Some(204);
    HexStringPair(204);
  }

  lemma ShorthandGreen()
    ensures DarkChannel("fff", 1, 20) == "0c"
  {
    BmpSubstring("fff", 2, 4);
    assert Substring("fff", 2, 4) == "f";
    ParseDigits("f");
    assert HexString(12) == "c";
  }

  lemma ShorthandBlue()
    ensures DarkChannel("fff", 2, 20) == "NaN"
  {
    BmpSubstring("fff", 4, 6);
    assert Substring("fff", 4, 6) == "";
    assert HexRun("") == 0;
  }

  /** A shorthand colour is not expanded: `#fff` has a red channel `ff`, a green
      channel `f` and no blue channel. */
  lemma ShorthandColour()
    ensures DarkenColor("#fff", 20) == "#cc0cNaN"
  {
    assert "#" + "cc" + "0c" + "NaN" == "#cc0cNaN";
    assert RemoveFirstHash("#fff") == "fff";
    ShorthandRed();
    ShorthandGreen();
    ShorthandBlue();
  }

  /** The code units of `"\U{1F600}ab"`: a surrogate pair, then the two letters. */
  lemma EmojiUnits()
    ensures Utf16Units("\U{1F600}ab") == [0xD83D, 0xDE00, 0x61, 0x62]
  {
    assert CharUnits('\U{1F600}') == [0xD83D, 0xDE00];
    assert Utf16Units("ab") == [0x61, 0x62] by {
      assert Utf16Units("b") == [0x62] by { assert "b"[1..] == []; }
      assert "ab"[1..] == "b";
    }
    assert "\U{1F600}ab"[1..] == "ab";
  }

  lemma EmojiRed()
    ensures DarkChannel("\U{1F600}ab", 0, 20) == "NaN"
  {
    EmojiUnits();
    assert Substring(Utf16Units("\U{1F600}ab"), 0, 2) == [0xD83D, 0xDE00];
    var t := JsSubstring("\U{1F600}ab", 0, 2);
    assert t == ['\U{FFFD}', '\U{FFFD}'];
    assert TrimStart(t) == t;
    assert HexRun(t) == 0;
  }

  lemma EmojiGreenText()
    ensures JsSubstring("\U{1F600}ab", 2, 4) == "ab"
  {
    EmojiUnits();
    assert Substring(Utf16Units("\U{1F600}ab"), 2, 4) == [0x61, 0x62];
  }

  lemma GreenAb()
    ensures ToHex(Scale(ParseHexInt("ab"), 20)) == "88"
  {
    ParsePair('a', 'b');
    assert Scale(Some(171), 20) == Some(136);
    HexStringPair(136);
  }

  lemma EmojiGreen()
    ensures DarkChannel("\U{1F600}ab", 1, 20) == "88"
  {
    EmojiGreenText();
    GreenAb();
  }

  lemma EmojiBlue()
    ensures DarkChannel("\U{1F600}ab", 2, 20) == "NaN"
  {
    EmojiUnits();
    assert JsSubstring("\U{1F600}ab", 4, 6) == "";
    assert HexRun("") == 0;
  }

  /** Channels are cut by code units: in `#\U{1F600}ab` the character above U+FFFF
      fills the red channel with its two surrogates, so red and blue are NaN and green
      is `ab`, darkened to `88`. */
  lemma SupplementaryColour()
    ensures DarkenColor("#\U{1F600}ab", 20) == "#NaN88NaN"
  {
    var parts := "#" + "NaN" + "88" + "NaN";
    assert parts == "#NaN88NaN" by {
      assert |parts| == 9;
    }
    assert RemoveFirstHash("#\U{1F600}ab") == "\U{1F600}ab";
    EmojiRed();
    EmojiGreen();
    EmojiBlue();
  }
}
