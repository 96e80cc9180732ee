/** What the characters of a JSON text stand for, against tables of their own: hexadecimal digits,
    the UTF-8 layout of section 3 of RFC 3629, the escapes of section 7, the white space of section
    2 and the numbers of section 6 of RFC 8259. */
module JsonEscapes {
  import opened Wrappers
  import opened Json
  import opened JsonRoundTrip
  import Modular

  // -- Hexadecimal ------------------------------------------------------------------------------

  const LOWER: string := "0123456789abcdef"
  const UPPER: string := "0123456789ABCDEF"

  predicate IsHexOf(c: char, d: nat)
    requires d < 16
  {
    c == LOWER[d] || c == UPPER[d]
  }

  /** The four characters are the code's hexadecimal digits, each in either case. */
  predicate Spells(s: string, code: nat)
    requires code < 0x10000
  {
    && 4 <= |s|
    && IsHexOf(s[0], code / 0x1000) && IsHexOf(s[1], code / 0x100 % 16)
    && IsHexOf(s[2], code / 0x10 % 16) && IsHexOf(s[3], code % 16)
  }

  lemma DigitReads(c: char, d: nat)
    requires d < 16
    ensures IsHexOf(c, d) <==> HexValue(c) == d
  {
  }

  /** Four characters are read as a code exactly when they spell it. */
  lemma HexReads(s: string, code: nat)
    requires code < 0x10000
    ensures Hex4(s) == Some(code) <==> Spells(s, code)
  {
    hide IsHexOf, HexValue, Hex4;
    HexSum(s);
    if 4 <= |s| {
      DigitReads(s[0], code / 0x1000);
      DigitReads(s[1], code / 0x100 % 16);
      DigitReads(s[2], code / 0x10 % 16);
      DigitReads(s[3], code % 16);
      if Spells(s, code) {
        CodeOfDigits(code);
      } else if Hex4(s) == Some(code) {
        DigitsUnique(HexValue(s[0]), HexValue(s[1]), HexValue(s[2]), HexValue(s[3]), code);
      }
    }
  }

  lemma HexSum(s: string)
    ensures Hex4(s).Some? <==> 4 <= |s| && HexValue(s[0]) >= 0 && HexValue(s[1]) >= 0 && HexValue(s[2]) >= 0 && HexValue(s[3]) >= 0
    ensures Hex4(s).Some? ==>
      Hex4(s).value == 0x1000 * HexValue(s[0]) + 0x100 * HexValue(s[1]) + 0x10 * HexValue(s[2]) + HexValue(s[3])
  {
    hide HexValue;
  }

  lemma CodeOfDigits(code: nat)
    ensures code == 0x1000 * (code / 0x1000) + 0x100 * (code / 0x100 % 16) + 0x10 * (code / 0x10 % 16) + code % 16
  {
    var (x, d) := (code / 16, code % 16);
    var (y, c) := (x / 16, x % 16);
    var (a, b) := (y / 16, y % 16);
    Modular.DivModUnique(code, 0x100, y, 16 * c + d);
    Modular.DivModUnique(code, 0x1000, a, 0x100 * b + 16 * c + d);
  }

  lemma DigitsUnique(p: int, q: int, r: int, t: int, code: nat)
    requires 0 <= p < 16 && 0 <= q < 16 && 0 <= r < 16 && 0 <= t < 16
    requires code == 0x1000 * p + 0x100 * q + 0x10 * r + t
    ensures p == code / 0x1000 && q == code / 0x100 % 16 && r == code / 0x10 % 16 && t == code % 16
  {
    Modular.DivModUnique(code, 0x1000, p, 0x100 * q + 0x10 * r + t);
    Modular.DivModUnique(code, 0x100, 0x10 * p + q, 0x10 * r + t);
    Modular.DivModUnique(0x10 * p + q, 16, p, q);
    Modular.DivModUnique(code, 16, 0x100 * p + 0x10 * q + r, t);
    Modular.DivModUnique(0x100 * p + 0x10 * q + r, 16, 0x10 * p + q, r);
  }

  // -- UTF-8 ------------------------------------------------------------------------------------

  predicate IsTail(b: char) { 0x80 <= b as int <= 0xBF }

  /** The bytes carry the code in the layout of its range: the lead's mark, then six bits each. */
  predicate Encodes(bytes: string, code: nat) {
    if code <= 0x7F then |bytes| == 1 && bytes[0] as int == code
    else if code <= 0x7FF then
      && |bytes| == 2 && 0xC0 <= bytes[0] as int <= 0xDF && IsTail(bytes[1])
      && (bytes[0] as int - 0xC0) * 0x40 + (bytes[1] as int - 0x80) == code
    else if code <= 0xFFFF then
      && |bytes| == 3 && 0xE0 <= bytes[0] as int <= 0xEF && IsTail(bytes[1]) && IsTail(bytes[2])
      && (bytes[0] as int - 0xE0) * 0x1000 + (bytes[1] as int - 0x80) * 0x40 + (bytes[2] as int - 0x80) == code
    else
      && |bytes| == 4 && 0xF0 <= bytes[0] as int <= 0xF7 && IsTail(bytes[1]) && IsTail(bytes[2]) && IsTail(bytes[3])
      && (bytes[0] as int - 0xF0) * 0x40000 + (bytes[1] as int - 0x80) * 0x1000
         + (bytes[2] as int - 0x80) * 0x40 + (bytes[3] as int - 0x80) == code
  }

  lemma Utf8Encodes(code: nat)
    requires code <= 0x10FFFF
    ensures Encodes(Utf8(code), code)
  {
    SixBits(code);
    if 0xFFFF < code { LongEncodes(code); }
  }

  lemma LongEncodes(code: nat)
    requires 0xFFFF < code <= 0x10FFFF
    ensures Encodes(Utf8(code), code)
  {
    SixBits(code);
  }

  lemma SixBits(code: nat)
    requires code <= 0x10FFFF
    ensures code == (code / 0x40) * 0x40 + code % 0x40
    ensures code / 0x40 == (code / 0x1000) * 0x40 + code / 0x40 % 0x40
    ensures code / 0x1000 == (code / 0x40000) * 0x40 + code / 0x1000 % 0x40 && code / 0x40000 <= 4
  {
    var (x, d) := (code / 0x40, code % 0x40);
    var (y, c) := (x / 0x40, x % 0x40);
    var (a, b) := (y / 0x40, y % 0x40);
    Modular.DivModUnique(code, 0x1000, y, 0x40 * c + d);
    Modular.DivModUnique(code, 0x40000, a, 0x1000 * b + 0x40 * c + d);
  }

  /** No other bytes do. */
  lemma EncodingUnique(a: string, b: string, code: nat)
    requires Encodes(a, code) && Encodes(b, code)
    ensures a == b
  {
    if 0xFFFF < code {
      SixBitsUnique(a[0] as int - 0xF0, a[1] as int - 0x80, a[2] as int - 0x80, a[3] as int - 0x80, code);
      SixBitsUnique(b[0] as int - 0xF0, b[1] as int - 0x80, b[2] as int - 0x80, b[3] as int - 0x80, code);
    } else if 0x7FF < code {
      SixBitsUnique(0, a[0] as int - 0xE0, a[1] as int - 0x80, a[2] as int - 0x80, code);
      SixBitsUnique(0, b[0] as int - 0xE0, b[1] as int - 0x80, b[2] as int - 0x80, code);
    } else if 0x7F < code {
      SixBitsUnique(0, 0, a[0] as int - 0xC0, a[1] as int - 0x80, code);
      SixBitsUnique(0, 0, b[0] as int - 0xC0, b[1] as int - 0x80, code);
    }
  }

  lemma SixBitsUnique(p: int, q: int, r: int, t: int, code: nat)
    requires 0 <= p && 0 <= q < 0x40 && 0 <= r < 0x40 && 0 <= t < 0x40
    requires code == p * 0x40000 + q * 0x1000 + r * 0x40 + t
    ensures p == code / 0x40000 && q == code / 0x1000 % 0x40 && r == code / 0x40 % 0x40 && t == code % 0x40
  {
    Modular.DivModUnique(code, 0x40000, p, q * 0x1000 + r * 0x40 + t);
    Modular.DivModUnique(code, 0x1000, p * 0x40 + q, r * 0x40 + t);
    Modular.DivModUnique(p * 0x40 + q, 0x40, p, q);
    Modular.DivModUnique(code, 0x40, p * 0x1000 + q * 0x40 + r, t);
    Modular.DivModUnique(p * 0x1000 + q * 0x40 + r, 0x40, p * 0x40 + q, r);
  }

  // -- Escapes ----------------------------------------------------------------------------------

  /** Every code point of the basic plane but the surrogates, by its escape in any case. */
  lemma BasicEscape(hex: string, z: string, code: nat)
    requires |hex| == 4 && code < 0x10000 && !(0xD800 <= code <= 0xDFFF) && Spells(hex, code)
    ensures StringUnit("\\u" + hex + z).Some?
    ensures var (bytes, rest) := StringUnit("\\u" + hex + z).value; Encodes(bytes, code) && rest == z
  {
    hide Spells, Encodes, Utf8, Hex4;
    var s := "\\u" + hex + z;
    assert s[2..] == hex + z && (hex + z)[4..] == z;
    SpellsPrefix(hex, z, code);
    HexReads(hex + z, code);
    Utf8Encodes(code);
  }

  /** Every code point above it, by its pair of surrogate escapes in any case. */
  lemma PairEscape(hi: string, lo: string, z: string, code: nat)
    requires |hi| == |lo| == 4 && 0x10000 <= code <= 0x10FFFF
    requires Spells(hi, 0xD800 + (code - 0x10000) / 0x400) && Spells(lo, 0xDC00 + (code - 0x10000) % 0x400)
    ensures StringUnit("\\u" + hi + "\\u" + lo + z).Some?
    ensures var (bytes, rest) := StringUnit("\\u" + hi + "\\u" + lo + z).value;
            |bytes| == 4 && Encodes(bytes, code) && rest == z
  {
    hide Spells, Utf8, Hex4;
    var s := "\\u" + hi + "\\u" + lo + z;
    var second := "\\u" + lo + z;
    assert s[2..] == hi + second && (hi + second)[4..] == second;
    assert second[2..] == lo + z && second[6..] == z;
    var (h, l) := (0xD800 + (code - 0x10000) / 0x400, 0xDC00 + (code - 0x10000) % 0x400);
    SpellsPrefix(hi, second, h);
    HexReads(hi + second, h);
    SpellsPrefix(lo, z, l);
    HexReads(lo + z, l);
    assert code == 0x10000 + (h - 0xD800) * 0x400 + (l - 0xDC00);
    Utf8Encodes(code);
  }

  lemma SpellsPrefix(hex: string, z: string, code: nat)
    requires |hex| == 4 && code < 0x10000 && Spells(hex, code)
    ensures Spells(hex + z, code)
  {
  }

  /** A surrogate that is not half of a pair becomes U+FFFD, and what follows keeps its turn. */
  lemma StrayEscape(hex: string, z: string, code: nat)
    requires |hex| == 4 && 0xD800 <= code <= 0xDFFF && Spells(hex, code)
    requires code <= 0xDBFF && "\\u" <= z ==>
      exists next: nat :: next < 0x10000 && !(0xDC00 <= next <= 0xDFFF) && Spells(z[2..], next)
    ensures StringUnit("\\u" + hex + z) == Some((['\U{EF}', '\U{BF}', '\U{BD}'], z))
  {
    hide Spells, Utf8, Hex4;
    var s := "\\u" + hex + z;
    assert s[2..] == hex + z && (hex + z)[4..] == z;
    SpellsPrefix(hex, z, code);
    HexReads(hex + z, code);
    if code <= 0xDBFF && 2 <= |z| && z[0] == '\\' && z[1] == 'u' {
      assert z[..2] == "\\u";
      var next: nat :| next < 0x10000 && !(0xDC00 <= next <= 0xDFFF) && Spells(z[2..], next);
      HexReads(z[2..], next);
    }
    ReplacementBytes();
  }

  /** Four characters that spell no code are refused, after `\u` and after a high surrogate's `\u`. */
  lemma BrokenEscape(hex: string, z: string, code: nat)
    requires |hex| == 4 && 0xD800 <= code <= 0xDBFF && Spells(hex, code)
    requires forall c: nat :: c < 0x10000 ==> !Spells(z, c)
    ensures StringUnit("\\u" + z) == None && StringUnit("\\u" + hex + "\\u" + z) == None
  {
    hide Spells, Utf8, Hex4;
    HexSum(z);
    if Hex4(z).Some? {
      HexReads(z, Hex4(z).value);
    }
    var second := "\\u" + z;
    var s := "\\u" + hex + second;
    assert "\\u" + hex + "\\u" + z == s;
    assert second[2..] == z && s[2..] == hex + second && (hex + second)[4..] == second;
    SpellsPrefix(hex, second, code);
    HexReads(hex + second, code);
  }

  lemma ReplacementBytes()
    ensures Utf8(0xFFFD) == ['\U{EF}', '\U{BF}', '\U{BD}']
  {
    Utf8Encodes(0xFFFD);
    EncodingUnique(Utf8(0xFFFD), ['\U{EF}', '\U{BF}', '\U{BD}'], 0xFFFD);
  }

  /** The two-character escapes, letter by letter, and the bytes they stand for. */
  const LETTERS: string := "\"\\/bfnrt"
  const MEANT: seq<int> := [0x22, 0x5C, 0x2F, 0x08, 0x0C, 0x0A, 0x0D, 0x09]

  lemma LetterEscape(i: nat, z: string)
    requires i < 8
    ensures StringUnit(['\\', LETTERS[i]] + z) == Some(([MEANT[i] as char], z))
  {
    var s := ['\\', LETTERS[i]] + z;
    assert s[2..] == z;
  }

  /** Nothing else may follow a backslash, and no control character stands for itself. */
  lemma OthersRefused(c: char, z: string)
    ensures c != 'u' && c !in LETTERS ==> StringUnit(['\\', c] + z) == None
    ensures c as int < 0x20 ==> StringUnit([c] + z) == None
    ensures 0x20 <= c as int && c != '"' && c != '\\' ==> StringUnit([c] + z) == Some(([c], z))
  {
    var l := LETTERS;
    assert l[0] == '"' && l[1] == '\\' && l[2] == '/' && l[3] == 'b' && l[4] == 'f' && l[5] == 'n' && l[6] == 'r' && l[7] == 't';
    assert ([c] + z)[1..] == z;
  }

  /** What the writer spells out: two characters for the seven it names, the four lower-case
      hexadecimal digits of any other control character, everything else as it is. */
  lemma Written(c: char)
    ensures c in "\"\\\n\r\t\U{8}\U{C}" ==> |EscapeChar(c)| == 2 && EscapeChar(c)[0] == '\\' && EscapeChar(c)[1] in "\"\\nrtbf"
    ensures c !in "\"\\\n\r\t\U{8}\U{C}" && c as int < 0x20 ==>
      EscapeChar(c) == "\\u00" + [LOWER[c as int / 16], LOWER[c as int % 16]]
    ensures c !in "\"\\\n\r\t\U{8}\U{C}" && 0x20 <= c as int ==> EscapeChar(c) == [c]
  {
  }

  // -- White space ------------------------------------------------------------------------------

  /** Any run of the four white space characters before a document is insignificant. */
  lemma {:induction false} LeadingSpace(space: string, text: string, converts: Converts)
    requires forall i :: 0 <= i < |space| ==> space[i] as int in {0x20, 0x09, 0x0A, 0x0D}
    ensures SkipSpace(space + text) == SkipSpace(text)
    ensures ParseDocument(space + text, converts) == ParseDocument(text, converts)
  {
    hide ParseToken;
    if space == [] {
      assert space + text == text;
    } else {
      LeadingSpace(space[1..], text, converts);
      assert (space + text)[1..] == space[1..] + text;
    }
  }

  /** And nothing else is skipped. */
  lemma NoOtherSpace(c: char, text: string)
    requires c as int !in {0x20, 0x09, 0x0A, 0x0D}
    ensures SkipSpace([c] + text) == [c] + text
  {
  }

  // -- Numbers ----------------------------------------------------------------------------------

  predicate Decimal(c: char) { c in "0123456789" }

  predicate Digits(s: string) {
    s != [] && forall i :: 0 <= i < |s| ==> Decimal(s[i])
  }

  predicate IsSign(s: string) { s == "" || s == "-" }
  predicate IsInt(s: string) { s == "0" || (Digits(s) && s[0] != '0') }
  predicate IsFrac(s: string) { s == "" || (s[0] == '.' && Digits(s[1..])) }
  predicate IsExp(s: string) {
    s == "" || (|s| >= 2 && (s[0] == 'e' || s[0] == 'E')
                && (Digits(s[1..]) || ((s[1] == '+' || s[1] == '-') && Digits(s[2..]))))
  }

  /** A text that does not carry a number on. */
  predicate EndsNumber(z: string) {
    z == [] || !(Decimal(z[0]) || z[0] == '.' || z[0] == 'e' || z[0] == 'E')
  }

  lemma DigitChar(c: char)
    ensures IsDigit(c) <==> Decimal(c)
  {
    var t := "0123456789";
    assert t[0] == '0' && t[1] == '1' && t[2] == '2' && t[3] == '3' && t[4] == '4';
    assert t[5] == '5' && t[6] == '6' && t[7] == '7' && t[8] == '8' && t[9] == '9';
  }

  lemma {:induction false} SkipsDigits(d: string, z: string)
    requires d == [] || Digits(d)
    requires z == [] || !Decimal(z[0])
    ensures SkipDigits(d + z) == z
  {
    hide Decimal, IsDigit;
    if d == [] {
      assert d + z == z;
      if z != [] { DigitChar(z[0]); }
    } else {
      assert (d + z)[1..] == d[1..] + z;
      DigitChar(d[0]);
      SkipsDigits(d[1..], z);
    }
  }

  lemma {:induction false} DigitsSkipped(s: string) returns (d: string)
    ensures s == d + SkipDigits(s) && (d == [] || Digits(d))
  {
    hide Decimal, IsDigit;
    if s != [] && IsDigit(s[0]) {
      DigitChar(s[0]);
      var rest := DigitsSkipped(s[1..]);
      d := [s[0]] + rest;
      assert forall i :: 1 <= i < |d| ==> d[i] == rest[i - 1];
    } else {
      d := [];
    }
  }

  /** Whatever the parser takes for a number is one of the grammar. */
  lemma NumberSound(s: string) returns (sign: string, int': string, frac: string, exp: string)
    requires NumberTail(s).Some?
    ensures IsSign(sign) && IsInt(int') && IsFrac(frac) && IsExp(exp)
    ensures Before(s, NumberTail(s).value) == sign + int' + frac + exp
  {
    hide SkipDigits, Digits, Decimal, IsDigit, FractionTail, ExponentTail, IsInt, IsFrac, IsExp, Before, NumberTail;
    sign := if StartsWith(s, '-') then "-" else "";
    var fraction := TailSteps(s);
    var rest;
    int', rest := IntSound(s[|sign|..]);
    frac := FracSound(fraction);
    exp := ExpSound(FractionTail(fraction).value);
    assert s == sign + s[|sign|..];
    Chained(s, sign, int', frac, exp, NumberTail(s).value);
  }

  /** The parser's three stages. */
  lemma TailSteps(s: string) returns (fraction: string)
    requires NumberTail(s).Some?
    ensures var unsigned := if StartsWith(s, '-') then s[1..] else s[0..];
      && unsigned != [] && IsDigit(unsigned[0])
      && fraction == (if unsigned[0] == '0' then unsigned[1..] else SkipDigits(unsigned[1..]))
      && FractionTail(fraction).Some? && ExponentTail(FractionTail(fraction).value) == NumberTail(s)
  {
    hide SkipDigits, IsDigit, FractionTail, ExponentTail;
    var unsigned := if StartsWith(s, '-') then s[1..] else s;
    assert s[0..] == s;
    fraction := if unsigned[0] == '0' then unsigned[1..] else SkipDigits(unsigned[1..]);
  }

  lemma Chained(s: string, a: string, b: string, c: string, d: string, r: string)
    requires s == a + (b + (c + (d + r)))
    ensures |r| <= |s| && Before(s, r) == a + b + c + d
  {
    assert s == (a + b + c + d) + r;
  }

  lemma IntSound(s: string) returns (int': string, rest: string)
    requires s != [] && IsDigit(s[0])
    ensures IsInt(int') && s == int' + rest && rest == if s[0] == '0' then s[1..] else SkipDigits(s[1..])
  {
    hide SkipDigits, Decimal, IsDigit;
    DigitChar(s[0]);
    if s[0] == '0' {
      int', rest := "0", s[1..];
    } else {
      rest := SkipDigits(s[1..]);
      var d := DigitsSkipped(s[1..]);
      int' := [s[0]] + d;
      assert forall i :: 1 <= i < |int'| ==> int'[i] == d[i - 1];
    }
  }

  lemma FracSound(s: string) returns (frac: string)
    requires FractionTail(s).Some?
    ensures IsFrac(frac) && s == frac + FractionTail(s).value
  {
    hide SkipDigits, Decimal;
    if StartsWith(s, '.') {
      DigitChar(s[1]);
      var d := DigitsSkipped(s[1..]);
      frac := "." + d;
      assert d != [];
    } else {
      frac := "";
    }
  }

  lemma ExpSound(s: string) returns (exp: string)
    requires ExponentTail(s).Some?
    ensures IsExp(exp) && s == exp + ExponentTail(s).value
  {
    hide SkipDigits, Decimal;
    if StartsWith(s, 'e') || StartsWith(s, 'E') {
      var n := if 2 <= |s| && (s[1] == '+' || s[1] == '-') then 2 else 1;
      DigitChar(s[n]);
      var d := DigitsSkipped(s[n..]);
      exp := s[..n] + d;
      assert d != [] && exp[n..] == d;
    } else {
      exp := "";
    }
  }

  /** Every number of the grammar is taken whole. */
  lemma NumberComplete(sign: string, int': string, frac: string, exp: string, z: string)
    requires IsSign(sign) && IsInt(int') && IsFrac(frac) && IsExp(exp) && EndsNumber(z)
    ensures NumberTail(sign + int' + frac + exp + z) == Some(z)
  {
    hide SkipDigits, Digits, Decimal, IsDigit, FractionTail, ExponentTail, IsInt, IsFrac, IsExp, EndsNumber;
    var tail := exp + z;
    var rest := frac + tail;
    var unsigned := int' + rest;
    var s := sign + int' + frac + exp + z;
    assert s == sign + unsigned;
    ExpComplete(exp, z);
    NotADigit(frac, exp, z);
    FracComplete(frac, tail);
    IntComplete(int', rest);
    assert (sign == "" ==> s == unsigned) && (sign == "-" ==> s[0] == '-' && s[1..] == unsigned);
  }

  lemma IntComplete(int': string, rest: string)
    requires IsInt(int') && (rest == [] || !Decimal(rest[0]))
    ensures var s := int' + rest;
            && s != [] && IsDigit(s[0]) && s[0] != '-'
            && (if s[0] == '0' then s[1..] else SkipDigits(s[1..])) == rest
  {
    hide SkipDigits, Decimal;
    IntStart(int');
    var s := int' + rest;
    assert s[0] == int'[0];
    if int' == "0" {
      assert s[1..] == rest;
    } else {
      IntSkips(int', rest);
    }
  }

  lemma IntStart(int': string)
    requires IsInt(int')
    ensures int' != [] && IsDigit(int'[0]) && (int'[0] == '0' <==> int' == "0")
  {
    DigitChar('0');
    DigitChar(int'[0]);
  }

  lemma NotADigit(frac: string, exp: string, z: string)
    requires IsFrac(frac) && IsExp(exp) && EndsNumber(z)
    ensures var rest := frac + (exp + z); rest == [] || !Decimal(rest[0])
    ensures var tail := exp + z; tail == [] || (!Decimal(tail[0]) && tail[0] != '.')
  {
    hide Digits;
    DigitChar('.');
    DigitChar('e');
    DigitChar('E');
    hide Decimal;
  }

  lemma IntSkips(int': string, rest: string)
    requires Digits(int') && (rest == [] || !Decimal(rest[0]))
    ensures SkipDigits((int' + rest)[1..]) == rest
  {
    hide SkipDigits, Decimal;
    assert (int' + rest)[1..] == int'[1..] + rest;
    SkipsDigits(int'[1..], rest);
  }

  lemma FracComplete(frac: string, tail: string)
    requires IsFrac(frac) && (tail == [] || (!Decimal(tail[0]) && tail[0] != '.'))
    ensures FractionTail(frac + tail) == Some(tail)
  {
    hide SkipDigits, Decimal;
    if frac == "" {
      assert frac + tail == tail;
    } else {
      DigitChar(frac[1]);
      SkipsDigits(frac[1..], tail);
      assert (frac + tail)[1..] == frac[1..] + tail;
    }
  }

  lemma ExpComplete(exp: string, z: string)
    requires IsExp(exp) && EndsNumber(z)
    ensures ExponentTail(exp + z) == Some(z)
  {
    hide SkipDigits, Decimal, Digits;
    if exp == "" {
      assert exp + z == z;
    } else {
      SignIsNoDigit();
      var n := if exp[1] == '+' || exp[1] == '-' then 2 else 1;
      FirstDigit(exp[1..]);
      FirstDigit(exp[2..]);
      DropFirst(exp, z, n);
      var s := exp + z;
      assert s[0] == exp[0] && s[1] == exp[1];
      SkipsRun(exp[n..], z);
    }
  }

  lemma SignIsNoDigit()
    ensures !Decimal('+') && !Decimal('-')
  {
    DigitChar('+');
    DigitChar('-');
  }

  lemma FirstDigit(d: string)
    ensures Digits(d) ==> d != [] && Decimal(d[0]) && IsDigit(d[0])
  {
    if d != [] { DigitChar(d[0]); }
  }

  lemma DropFirst(a: string, z: string, n: nat)
    requires n <= |a|
    ensures (a + z)[n..] == a[n..] + z
  {
  }

  lemma SkipsRun(d: string, z: string)
    requires Digits(d) && EndsNumber(z)
    ensures d + z != [] && IsDigit((d + z)[0]) && SkipDigits(d + z) == z
  {
    hide SkipDigits, Decimal;
    FirstDigit(d);
    SkipsDigits(d, z);
  }
}
