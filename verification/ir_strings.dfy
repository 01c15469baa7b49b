/** How the generator measures and escapes the text of a string constant.
    A JavaScript string is a sequence of UTF-16 code units; a Dafny `string` is a
    sequence of Unicode scalar values, so `Utf16Units` spells out the code units that
    `str.length` counts and `str.charCodeAt(i)` reads. */
module IrStrings {

  /** The UTF-16 code units of one character. */
  function CharUnits(c: char): (u: seq<int>)
    ensures 1 <= |u| <= 2
    ensures forall k :: 0 <= k < |u| ==> 0 <= u[k] < 0x10000
    ensures |u| == 2 <==> c as int >= 0x10000
    ensures |u| == 2 ==> 0xD800 <= u[0] < 0xE000 && 0xD800 <= u[1] < 0xE000
  {
    var v := c as int;
    if v < 0x10000 then [v]
    else [0xD800 + (v - 0x10000) / 0x400, 0xDC00 + (v - 0x10000) % 0x400]
  }

  /** The UTF-16 code units of a string, the sequence JavaScript indexes. */
  function Utf16Units(s: string): seq<int> {
    if s == [] then [] else CharUnits(s[0]) + Utf16Units(s[1..])
  }

  /** Every code unit is a 16-bit value, so `charCodeAt` is always below 0x10000. */
  lemma {:induction false} Utf16UnitsInRange(s: string)
    ensures forall k :: 0 <= k < |Utf16Units(s)| ==> 0 <= Utf16Units(s)[k] < 0x10000
  {
    if s != [] {
      Utf16UnitsInRange(s[1..]);
      var u, rest := CharUnits(s[0]), Utf16Units(s[1..]);
      assert forall k :: 0 <= k < |u + rest| ==> (u + rest)[k] == if k < |u| then u[k] else rest[k - |u|];
    }
  }

  /** Each character outside the Basic Multilingual Plane takes two code units. */
  lemma {:induction false} Utf16LengthCounts(s: string)
    ensures Utf16Length(s) == |s| + SupplementaryCount(s)
  {
    if s != [] {
      Utf16LengthCounts(s[1..]);
    }
  }

  /** `str.length`. */
  function Utf16Length(s: string): nat {
    |Utf16Units(s)|
  }

  /** The bytes `getUTF8Length` adds for one code unit, by range. */
  function UnitBytes(u: int): nat {
    if u < 0x80 then 1 else if u < 0x800 then 2 else if u < 0x10000 then 3 else 4
  }

  /** The total `getUTF8Length` accumulates over a run of code units. */
  function UnitsBytes(units: seq<int>): nat {
    if units == [] then 0 else UnitsBytes(units[..|units| - 1]) + UnitBytes(units[|units| - 1])
  }

  /** The number of bytes UTF-8 uses for one character. */
  function CharUtf8Bytes(c: char): nat {
    var v := c as int;
    if v < 0x80 then 1 else if v < 0x800 then 2 else if v < 0x10000 then 3 else 4
  }

  /** The length of the UTF-8 encoding of a string. */
  function Utf8Length(s: string): nat {
    if s == [] then 0 else CharUtf8Bytes(s[0]) + Utf8Length(s[1..])
  }

  /** The number of characters outside the Basic Multilingual Plane. */
  function SupplementaryCount(s: string): nat {
    if s == [] then 0 else (if s[0] as int >= 0x10000 then 1 else 0) + SupplementaryCount(s[1..])
  }

  lemma {:induction false} UnitsBytesAppend(a: seq<int>, b: seq<int>)
    ensures UnitsBytes(a + b) == UnitsBytes(a) + UnitsBytes(b)
  {
    if b != [] {
      assert (a + b)[..|a + b| - 1] == a + b[..|b| - 1];
      UnitsBytesAppend(a, b[..|b| - 1]);
    } else {
      assert a + b == a;
    }
  }

  /** What `getUTF8Length` computes: the UTF-8 length, except that a character outside
      the Basic Multilingual Plane counts 6 bytes (3 per surrogate) instead of 4. */
  lemma {:induction false} UnitsBytesIsUtf8Length(s: string)
    ensures UnitsBytes(Utf16Units(s)) == Utf8Length(s) + 2 * SupplementaryCount(s)
  {
    if s != [] {
      UnitsBytesAppend(CharUnits(s[0]), Utf16Units(s[1..]));
      UnitsBytesIsUtf8Length(s[1..]);
      var u := CharUnits(s[0]);
      if |u| == 2 {
        assert u[..1] == [u[0]] && u[..1][..0] == [];
        assert UnitsBytes(u[..1]) == UnitBytes(u[0]);
        assert UnitsBytes(u) == UnitBytes(u[0]) + UnitBytes(u[1]);
      } else {
        assert u[..0] == [];
      }
    }
  }

  /** For text inside the Basic Multilingual Plane the count is the true UTF-8 length. */
  lemma BmpUnitsBytesExact(s: string)
    requires forall i :: 0 <= i < |s| ==> s[i] as int < 0x10000
    ensures UnitsBytes(Utf16Units(s)) == Utf8Length(s)
  {
    UnitsBytesIsUtf8Length(s);
    NoSupplementary(s);
  }

  lemma {:induction false} NoSupplementary(s: string)
    requires forall i :: 0 <= i < |s| ==> s[i] as int < 0x10000
    ensures SupplementaryCount(s) == 0
  {
    if s != [] {
      NoSupplementary(s[1..]);
    }
  }

  lemma {:induction false} Utf8Excess(s: string)
    ensures Utf8Length(s) + SupplementaryCount(s) >= |s|
    ensures Utf8Length(s) + SupplementaryCount(s) == |s| <==> forall i :: 0 <= i < |s| ==> s[i] as int < 0x80
  {
    if s != [] {
      Utf8Excess(s[1..]);
      if forall i :: 0 <= i < |s[1..]| ==> s[1..][i] as int < 0x80 {
        forall i | 0 <= i < |s| && s[0] as int < 0x80
          ensures s[i] as int < 0x80
        {
          if i > 0 {
            assert s[i] == s[1..][i - 1];
          }
        }
      }
      if forall i :: 0 <= i < |s| ==> s[i] as int < 0x80 {
        forall i | 0 <= i < |s[1..]|
          ensures s[1..][i] as int < 0x80
        {
          assert s[1..][i] == s[i + 1];
        }
      }
    }
  }

  /** The address the generator takes to a string constant is typed `[str.length + 1 x
      i8]` while the constant is declared with `getUTF8Length(str) + 1` bytes; the two
      agree exactly when every character of the string is ASCII. */
  lemma GepSizeMatchesConstantIffAscii(s: string)
    ensures Utf16Length(s) == UnitsBytes(Utf16Units(s))
        <==> forall i :: 0 <= i < |s| ==> s[i] as int < 0x80
  {
    UnitsBytesIsUtf8Length(s);
    Utf16LengthCounts(s);
    Utf8Excess(s);
  }

  // ---------------------------------------------------------------------------
  // Escaping: the chain of five global `replace` calls in `addStringConstants`.

  /** `s.replace(/c/g, rep)` for a single-character pattern. */
  function ReplaceAll(s: string, c: char, rep: string): (r: string)
    ensures c !in rep ==> c !in r
  {
    if s == [] then [] else (if s[0] == c then rep else [s[0]]) + ReplaceAll(s[1..], c, rep)
  }

  /** The escaping chain, in the order the generator applies it. */
  function Escape(s: string): string {
    ReplaceAll(ReplaceAll(ReplaceAll(ReplaceAll(ReplaceAll(
      s, '\\', "\\5C"), '"', "\\\""), '\n', "\\0A"), '\r', "\\0D"), '\t', "\\09")
  }

  /** The text one character becomes. */
  function EscapeChar(c: char): string {
    if c == '\\' then "\\5C"
    else if c == '"' then "\\\""
    else if c == '\n' then "\\0A"
    else if c == '\r' then "\\0D"
    else if c == '\t' then "\\09"
    else [c]
  }

  /** Escaping character by character. */
  function EscapeEach(s: string): string {
    if s == [] then [] else EscapeChar(s[0]) + EscapeEach(s[1..])
  }

  lemma {:induction false} ReplaceAllAppend(a: string, b: string, c: char, rep: string)
    ensures ReplaceAll(a + b, c, rep) == ReplaceAll(a, c, rep) + ReplaceAll(b, c, rep)
  {
    if a != [] {
      assert (a + b)[1..] == a[1..] + b;
      ReplaceAllAppend(a[1..], b, c, rep);
    } else {
      assert a + b == b;
    }
  }

  lemma EscapeAppend(a: string, b: string)
    ensures Escape(a + b) == Escape(a) + Escape(b)
  {
    var a1, b1 := ReplaceAll(a, '\\', "\\5C"), ReplaceAll(b, '\\', "\\5C");
    ReplaceAllAppend(a, b, '\\', "\\5C");
    var a2, b2 := ReplaceAll(a1, '"', "\\\""), ReplaceAll(b1, '"', "\\\"");
    ReplaceAllAppend(a1, b1, '"', "\\\"");
    var a3, b3 := ReplaceAll(a2, '\n', "\\0A"), ReplaceAll(b2, '\n', "\\0A");
    ReplaceAllAppend(a2, b2, '\n', "\\0A");
    var a4, b4 := ReplaceAll(a3, '\r', "\\0D"), ReplaceAll(b3, '\r', "\\0D");
    ReplaceAllAppend(a3, b3, '\r', "\\0D");
    ReplaceAllAppend(a4, b4, '\t', "\\09");
  }

  /** Replacing a character that does not occur changes nothing. */
  lemma {:induction false} ReplaceAbsent(s: string, c: char, rep: string)
    requires c !in s
    ensures ReplaceAll(s, c, rep) == s
  {
    if s != [] {
      ReplaceAbsent(s[1..], c, rep);
    }
  }

  lemma ReplaceSingle(c: char, p: char, rep: string)
    ensures ReplaceAll([c], p, rep) == if c == p then rep else [c]
  {
    assert [c][1..] == [];
  }

  lemma EscapeSingle(c: char)
    ensures Escape([c]) == EscapeChar(c)
  {
    var s1 := ReplaceAll([c], '\\', "\\5C");
    assert s1 == if c == '\\' then "\\5C" else [c] by {
      ReplaceSingle(c, '\\', "\\5C");
    }
    var s2 := ReplaceAll(s1, '"', "\\\"");
    assert s2 == if c == '\\' || c == '"' then EscapeChar(c) else [c] by {
      if c == '\\' {
        ReplaceAbsent(s1, '"', "\\\"");
      } else {
        ReplaceSingle(c, '"', "\\\"");
      }
    }
    var s3 := ReplaceAll(s2, '\n', "\\0A");
    assert s3 == if c == '\\' || c == '"' || c == '\n' then EscapeChar(c) else [c] by {
      if c == '\\' || c == '"' {
        ReplaceAbsent(s2, '\n', "\\0A");
      } else {
        ReplaceSingle(c, '\n', "\\0A");
      }
    }
    var s4 := ReplaceAll(s3, '\r', "\\0D");
    assert s4 == if c == '\\' || c == '"' || c == '\n' || c == '\r' then EscapeChar(c) else [c] by {
      if c == '\\' || c == '"' || c == '\n' {
        ReplaceAbsent(s3, '\r', "\\0D");
      } else {
        ReplaceSingle(c, '\r', "\\0D");
      }
    }
    if c == '\\' || c == '"' || c == '\n' || c == '\r' {
      ReplaceAbsent(s4, '\t', "\\09");
    } else {
      ReplaceSingle(c, '\t', "\\09");
    }
  }

  /** The five chained global replacements act character by character: since each
      replacement text is free of the characters replaced after it, no replacement
      rewrites the output of an earlier one. */
  lemma {:induction false} EscapeIsCharwise(s: string)
    ensures Escape(s) == EscapeEach(s)
  {
    if s == [] {
      ReplaceAbsent(s, '\\', "\\5C");
    } else {
      assert s == [s[0]] + s[1..];
      EscapeAppend([s[0]], s[1..]);
      EscapeSingle(s[0]);
      EscapeIsCharwise(s[1..]);
    }
  }

  /** Reads escaped constant text back. */
  function Unescape(t: string): string {
    if t == [] then []
    else if |t| >= 3 && t[..3] == "\\5C" then ['\\'] + Unescape(t[3..])
    else if |t| >= 2 && t[..2] == "\\\"" then ['"'] + Unescape(t[2..])
    else if |t| >= 3 && t[..3] == "\\0A" then ['\n'] + Unescape(t[3..])
    else if |t| >= 3 && t[..3] == "\\0D" then ['\r'] + Unescape(t[3..])
    else if |t| >= 3 && t[..3] == "\\09" then ['\t'] + Unescape(t[3..])
    else [t[0]] + Unescape(t[1..])
  }

  /** Escaping loses nothing: the constant's text determines the string it encodes. */
  lemma {:induction false} UnescapeEscape(s: string)
    ensures Unescape(Escape(s)) == s
  {
    EscapeIsCharwise(s);
    UnescapeEscapeEach(s);
  }

  lemma {:induction false} UnescapeEscapeEach(s: string)
    ensures Unescape(EscapeEach(s)) == s
  {
    if s != [] {
      var c := s[0];
      var rest := EscapeEach(s[1..]);
      var t := EscapeEach(s);
      assert t == EscapeChar(c) + rest;
      UnescapeEscapeEach(s[1..]);
      if c == '\\' {
        assert t[..3] == "\\5C" && t[3..] == rest;
        assert Unescape(t) == ['\\'] + Unescape(rest);
      } else if c == '"' {
        assert t[..2] == "\\\"" && t[2..] == rest;
        assert |t| >= 3 ==> t[..3][1] == '"';
        assert Unescape(t) == ['"'] + Unescape(rest);
      } else if c == '\n' {
        assert t[..3] == "\\0A" && t[3..] == rest;
        assert t[1] == '0' && t[2] == 'A';
      } else if c == '\r' {
        assert t[..3] == "\\0D" && t[3..] == rest;
        assert t[1] == '0' && t[2] == 'D';
      } else if c == '\t' {
        assert t[..3] == "\\09" && t[3..] == rest;
        assert t[1] == '0' && t[2] == '9';
      } else {
        assert t[0] == c && t[1..] == rest;
        assert |t| >= 3 ==> t[..3][0] == c;
        assert |t| >= 2 ==> t[..2][0] == c;
        assert Unescape(t) == [c] + Unescape(rest);
      }
      assert s == [c] + s[1..];
    }
  }

  /** An escaped constant never spans lines: it holds no line feed or carriage return. */
  lemma EscapedIsOneLine(s: string)
    ensures '\n' !in Escape(s) && '\r' !in Escape(s)
  {
    EscapeIsCharwise(s);
    EscapeEachOneLine(s);
  }

  lemma {:induction false} EscapeEachOneLine(s: string)
    ensures '\n' !in EscapeEach(s) && '\r' !in EscapeEach(s)
  {
    if s != [] {
      EscapeEachOneLine(s[1..]);
    }
  }
}
