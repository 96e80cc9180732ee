/** The span scanner and the parser, two independent readers of one text, agree: on every
    body the parser accepts as an object, and every ASCII key. */
module JsonAgreement {
  import opened Wrappers
  import opened Json
  import opened JsonLocality
  import opened JsonSpan

  // -- The scanner steps over whatever the parser reads ------------------------------------

  lemma {:induction false} ScanHex(s: string, depth: int)
    requires Hex4(s).Some?
    ensures ToQuote(s) == ToQuote(s[4..])
    ensures ToClose(s, depth, true) == ToClose(s[4..], depth, true)
  {
    forall i | 0 <= i < 4
      ensures s[i] != '"' && s[i] != '\\'
    {
      assert HexValue(s[i]) >= 0;
    }
    assert s[1..][1..] == s[2..] && s[2..][1..] == s[3..] && s[3..][1..] == s[4..];
    assert ToQuote(s) == ToQuote(s[1..]);
    assert ToQuote(s[1..]) == ToQuote(s[2..]);
    assert ToQuote(s[2..]) == ToQuote(s[3..]);
    assert ToQuote(s[3..]) == ToQuote(s[4..]);
    assert ToClose(s, depth, true) == ToClose(s[1..], depth, true);
    assert ToClose(s[1..], depth, true) == ToClose(s[2..], depth, true);
    assert ToClose(s[2..], depth, true) == ToClose(s[3..], depth, true);
    assert ToClose(s[3..], depth, true) == ToClose(s[4..], depth, true);
  }

  lemma ScanUnicode(s: string, depth: int)
    requires UnicodeEscape(s).Some?
    ensures ToQuote(s) == ToQuote(UnicodeEscape(s).value.1)
    ensures ToClose(s, depth, true) == ToClose(UnicodeEscape(s).value.1, depth, true)
  {
    hide Hex4;
    var rest := s[4..];
    ScanHex(s, depth);
    if UnicodeEscape(s).value.1 != rest {
      ScanHex(rest[2..], depth);
      assert rest[2..][4..] == rest[6..];
      assert ToQuote(rest) == ToQuote(rest[2..]);
    }
  }

  lemma ScanUnit(s: string, depth: int)
    requires s != [] && s[0] != '"' && StringUnit(s).Some?
    ensures ToQuote(s) == ToQuote(StringUnit(s).value.1)
    ensures ToClose(s, depth, true) == ToClose(StringUnit(s).value.1, depth, true)
  {
    hide UnicodeEscape;
    if s[0] == '\\' && s[1] == 'u' {
      ScanUnicode(s[2..], depth);
    }
  }

  lemma {:induction false} ScanBody(s: string, depth: int)
    requires StringBody(s).Some?
    ensures ToQuote(s).At? && StartsWith(ToQuote(s).rest, '"')
    ensures ToQuote(s).rest[1..] == StringBody(s).value.1
    ensures ToClose(s, depth, true) == ToClose(StringBody(s).value.1, depth, false)
    decreases |s|
  {
    hide StringUnit;
    if s[0] != '"' {
      ScanUnit(s, depth);
      ScanBody(StringUnit(s).value.1, depth);
    }
  }

  lemma {:induction false} ScanSpace(s: string, depth: int)
    ensures ToClose(s, depth, false) == ToClose(SkipSpace(s), depth, false)
    decreases |s|
  {
    if s != [] && IsSpace(s[0]) {
      ScanSpace(s[1..], depth);
    }
  }

  /** A character that neither scan reacts to outside strings. */
  predicate Inert(c: char) {
    IsDigit(c) || c == '-' || c == '+' || c == '.' || 'a' <= c <= 'z' || c == 'E'
  }

  /** `r` is `s` without some inert characters at its front. */
  ghost predicate InertDown(s: string, r: string) {
    && |r| <= |s| && s[|s| - |r|..] == r
    && forall i :: 0 <= i < |s| - |r| ==> Inert(s[i])
  }

  lemma {:induction false} ScanInert(s: string, r: string, depth: int)
    requires InertDown(s, r)
    ensures ToClose(s, depth, false) == ToClose(r, depth, false)
    ensures ToDelimiter(s) == ToDelimiter(r)
    decreases |s|
  {
    if |r| < |s| {
      assert Inert(s[0]);
      assert forall i :: 0 <= i < |s[1..]| - |r| ==> s[1..][i] == s[i + 1];
      ScanInert(s[1..], r, depth);
    }
  }

  lemma InertTrans(s: string, t: string, r: string)
    requires InertDown(s, t) && InertDown(t, r)
    ensures InertDown(s, r)
  {
    forall i | 0 <= i < |s| - |r|
      ensures Inert(s[i])
    {
      if |s| - |t| <= i {
        assert s[i] == t[i - (|s| - |t|)];
      }
    }
  }

  lemma InertStep(s: string, k: nat)
    requires k <= |s| && forall i :: 0 <= i < k ==> Inert(s[i])
    ensures InertDown(s, s[k..])
  {
  }

  lemma {:induction false} InertDigits(s: string)
    ensures InertDown(s, SkipDigits(s))
    decreases |s|
  {
    if s != [] && IsDigit(s[0]) {
      InertDigits(s[1..]);
      InertStep(s, 1);
      InertTrans(s, s[1..], SkipDigits(s));
    }
  }

  lemma InertFraction(s: string)
    requires FractionTail(s).Some?
    ensures InertDown(s, FractionTail(s).value)
  {
    hide SkipDigits;
    InertStep(s, 0);
    if StartsWith(s, '.') {
      InertStep(s, 1);
      InertDigits(s[1..]);
      InertTrans(s, s[1..], SkipDigits(s[1..]));
    }
  }

  lemma InertExponent(s: string)
    requires ExponentTail(s).Some?
    ensures InertDown(s, ExponentTail(s).value)
  {
    hide SkipDigits;
    InertStep(s, 0);
    if StartsWith(s, 'e') || StartsWith(s, 'E') {
      var k := if 2 <= |s| && (s[1] == '+' || s[1] == '-') then 2 else 1;
      InertStep(s, k);
      InertDigits(s[k..]);
      InertTrans(s, s[k..], SkipDigits(s[k..]));
    }
  }

  lemma InertNumber(s: string)
    requires NumberTail(s).Some?
    ensures InertDown(s, NumberTail(s).value)
  {
    hide SkipDigits, FractionTail, ExponentTail;
    var k := if StartsWith(s, '-') then 1 else 0;
    var unsigned := s[k..];
    var fraction := if unsigned[0] == '0' then unsigned[1..] else SkipDigits(unsigned[1..]);
    assert unsigned == if StartsWith(s, '-') then s[1..] else s;
    InertStep(s, k + 1);
    assert s[k + 1..] == unsigned[1..];
    InertStep(unsigned[1..], 0);
    InertDigits(unsigned[1..]);
    InertTrans(s, unsigned[1..], fraction);
    InertFraction(fraction);
    InertTrans(s, fraction, FractionTail(fraction).value);
    InertExponent(FractionTail(fraction).value);
    InertTrans(s, FractionTail(fraction).value, NumberTail(s).value);
  }

  /** Literals and numbers are inert. */
  lemma InertScalar(s: string, converts: Converts)
    requires ParseToken(s, converts).Some? && s[0] != '"' && s[0] != '[' && s[0] != '{'
    ensures InertDown(s, ParseToken(s, converts).value.1) && Inert(s[0])
  {
    hide NumberTail;
    match s[0]
    case 'n' => assert s[0] == "null"[0] && s[1] == "null"[1] && s[2] == "null"[2] && s[3] == "null"[3]; InertStep(s, 4);
    case 't' => assert s[0] == "true"[0] && s[1] == "true"[1] && s[2] == "true"[2] && s[3] == "true"[3]; InertStep(s, 4);
    case 'f' =>
      assert s[0] == "false"[0] && s[1] == "false"[1] && s[2] == "false"[2] && s[3] == "false"[3] && s[4] == "false"[4];
      InertStep(s, 5);
    case _ => InertNumber(s);
  }

  // -- Containers -------------------------------------------------------------------------

  /** Where the scan goes on after a closing bracket met at `depth`. */
  function AfterClose(r: string, depth: int): Scan {
    if depth == 1 then At(r) else ToClose(r, depth - 1, false)
  }

  lemma {:induction false} ScanToken(s: string, depth: int, converts: Converts)
    requires ParseToken(s, converts).Some? && 1 <= depth
    ensures ToClose(s, depth, false) == ToClose(ParseToken(s, converts).value.1, depth, false)
    decreases |s|, 0
  {
    hide StringBody, ParseItems, ParseMembers, NumberTail, ParseLiteral, InertDown;
    if s[0] == '"' {
      ScanBody(s[1..], depth);
    } else if s[0] == '[' {
      ScanItems(s[1..], depth + 1, converts);
    } else if s[0] == '{' {
      ScanMembers(s[1..], depth + 1, converts);
    } else {
      InertScalar(s, converts);
      ScanInert(s, ParseToken(s, converts).value.1, depth);
    }
  }

  lemma {:induction false} ScanValue(s: string, depth: int, converts: Converts)
    requires ParseValue(s, converts).Some? && 1 <= depth
    ensures ToClose(s, depth, false) == ToClose(ParseValue(s, converts).value.1, depth, false)
    decreases |s|, 1
  {
    hide ParseToken, ToClose;
    ScanSpace(s, depth);
    ScanToken(SkipSpace(s), depth, converts);
  }

  lemma {:induction false} ScanItems(s: string, depth: int, converts: Converts)
    requires ParseItems(s, converts).Some? && 1 <= depth
    ensures ToClose(s, depth, false) == AfterClose(ParseItems(s, converts).value.1, depth)
    decreases |s|, 3
  {
    hide ItemsFrom, SkipSpace;
    if StartsWith(SkipSpace(s), ']') {
      ScanSpace(s, depth);
    } else {
      ScanItemsFrom(s, depth, converts);
    }
  }

  lemma {:induction false} ScanItemsFrom(s: string, depth: int, converts: Converts)
    requires ItemsFrom(s, converts).Some? && 1 <= depth
    ensures ToClose(s, depth, false) == AfterClose(ItemsFrom(s, converts).value.1, depth)
    decreases |s|, 2
  {
    hide ParseValue, SkipSpace;
    var first := ParseValue(s, converts);
    var t := SkipSpace(first.value.1);
    ScanValue(s, depth, converts);
    ScanSpace(first.value.1, depth);
    if StartsWith(t, ',') {
      ScanItemsFrom(t[1..], depth, converts);
    }
  }

  lemma {:induction false} ScanMembers(s: string, depth: int, converts: Converts)
    requires ParseMembers(s, converts).Some? && 1 <= depth
    ensures ToClose(s, depth, false) == AfterClose(ParseMembers(s, converts).value.1, depth)
    decreases |s|, 4
  {
    hide MembersFrom, SkipSpace;
    if StartsWith(SkipSpace(s), '}') {
      ScanSpace(s, depth);
    } else {
      ScanMembersFrom(s, depth, converts);
    }
  }

  lemma {:induction false} ScanMember(s: string, depth: int, converts: Converts)
    requires ParseMember(s, converts).Some? && 1 <= depth
    ensures ToClose(s, depth, false) == ToClose(ParseMember(s, converts).value.1, depth, false)
    decreases |s|, 2
  {
    hide ParseValue, SkipSpace, StringBody;
    var t := SkipSpace(s);
    var key := StringBody(t[1..]);
    var colon := SkipSpace(key.value.1);
    ScanSpace(s, depth);
    ScanBody(t[1..], depth);
    ScanSpace(key.value.1, depth);
    ScanValue(colon[1..], depth, converts);
  }

  lemma {:induction false} ScanMembersFrom(s: string, depth: int, converts: Converts)
    requires MembersFrom(s, converts).Some? && 1 <= depth
    ensures ToClose(s, depth, false) == AfterClose(MembersFrom(s, converts).value.1, depth)
    decreases |s|, 3
  {
    hide ParseMember, SkipSpace;
    var first := ParseMember(s, converts);
    var t := SkipSpace(first.value.1);
    ScanMember(s, depth, converts);
    ScanSpace(first.value.1, depth);
    if StartsWith(t, ',') {
      ScanMembersFrom(t[1..], depth, converts);
    }
  }

  /** Skipping a value ends where parsing it ends, when a delimiter or nothing follows. */
  lemma SkipEndsWhereParseEnds(s: string, converts: Converts)
    requires ParseToken(s, converts).Some?
    requires var rest := ParseToken(s, converts).value.1; rest == [] || EndsScalar(rest[0])
    ensures SkipValue(s) == At(ParseToken(s, converts).value.1)
  {
    hide StringBody, ParseItems, ParseMembers, NumberTail, ParseLiteral, InertDown;
    if s[0] == '"' {
      ScanBody(s[1..], 0);
    } else if s[0] == '[' {
      ScanItems(s[1..], 1, converts);
    } else if s[0] == '{' {
      ScanMembers(s[1..], 1, converts);
    } else {
      InertScalar(s, converts);
      ScanInert(s, ParseToken(s, converts).value.1, 0);
    }
  }

  // -- Keys ---------------------------------------------------------------------------------

  ghost predicate Ascii(s: string) {
    forall i :: 0 <= i < |s| ==> s[i] as int < 0x80
  }

  /** Two decodings no ASCII text can tell apart. */
  ghost predicate SameToAscii(a: string, b: string) {
    a == b || (!Ascii(a) && !Ascii(b))
  }

  lemma SameConcat(a: string, b: string, c: string, d: string)
    requires SameToAscii(a, b) && SameToAscii(c, d)
    ensures SameToAscii(a + c, b + d)
  {
    if a != b {
      AsciiParts(a, c);
      AsciiParts(b, d);
    } else if c != d {
      AsciiParts(a, c);
      AsciiParts(b, d);
    }
  }

  lemma AsciiParts(a: string, b: string)
    ensures Ascii(a + b) <==> Ascii(a) && Ascii(b)
  {
    assert forall i :: 0 <= i < |a| ==> (a + b)[i] == a[i];
    assert forall i :: 0 <= i < |b| ==> (a + b)[|a| + i] == b[i];
  }

  lemma EncodedSame(strict: nat, loose: nat)
    requires strict <= 0x10FFFF && loose <= 0x10FFFF
    requires strict == loose || (0x80 <= strict && 0x80 <= loose)
    ensures SameToAscii(Utf8(strict), LooseUtf8(loose))
  {
    if strict != loose || 0xFFFF < strict {
      assert !Ascii(Utf8(strict)) by {
        assert Utf8(strict)[0] as int >= 0x80;
      }
      assert !Ascii(LooseUtf8(loose)) by {
        assert LooseUtf8(loose)[0] as int >= 0x80;
      }
    }
  }

  lemma HexSame(s: string)
    requires Hex4(s).Some?
    ensures LooseHex4(s) == Hex4(s).value
  {
    assert forall i :: 0 <= i < 4 ==> HexValue(s[i]) >= 0;
  }

  /** A `\u` escape (read after the `u`) gives both readers the same rest of the literal. */
  lemma UnicodeSame(s: string, n: nat)
    requires 2 <= |s| && s[0] == '\\' && s[1] == 'u' && UnicodeEscape(s[2..]).Some?
    requires var rest := UnicodeEscape(s[2..]).value.1;
             StringBody(rest).Some? && n == |StringBody(rest).value.1| + 1
    ensures var (code, rest) := UnicodeEscape(s[2..]).value;
            var (chunk, loose) := LooseUnit(Trim(s, n));
            n <= |rest| && loose == Trim(rest, n) && SameToAscii(Utf8(code), chunk)
  {
    hide Hex4, StringBody, Utf8, LooseUtf8, LooseHex4, SameToAscii;
    var b := Trim(s, n);
    var (code, end) := UnicodeEscape(s[2..]).value;
    var rest := s[6..];
    assert rest == s[2..][4..];
    var first := Hex4(s[2..]).value;
    TrimDrop(s, n, 2);
    TrimDrop(s, n, 6);
    TrimHex(s[2..], n);
    HexSame(Trim(s[2..], n));
    if 2 <= |rest| && rest[0] == '\\' && rest[1] == 'u' && IsHighSurrogate(first) {
      if end == rest {
        EscapeIsInside(rest, n - 1);
      }
      TrimDrop(rest, n, 2);
      TrimDrop(rest, n, 6);
      TrimHex(rest[2..], n);
      HexSame(Trim(rest[2..], n));
      var low := Hex4(rest[2..]).value;
      EncodedSame(code, if IsLowSurrogate(low) then code else first);
    } else {
      EncodedSame(code, first);
    }
  }

  lemma UnitSame(s: string, n: nat)
    requires s != [] && s[0] != '"' && StringUnit(s).Some?
    requires var rest := StringUnit(s).value.1;
             StringBody(rest).Some? && n == |StringBody(rest).value.1| + 1
    ensures var (chunk, rest) := StringUnit(s).value;
            && n <= |rest| && Trim(s, n) != []
            && LooseUnit(Trim(s, n)).1 == Trim(rest, n)
            && SameToAscii(chunk, LooseUnit(Trim(s, n)).0)
  {
    hide StringBody, UnicodeEscape, Utf8, LooseUtf8, LooseHex4;
    if s[0] == '\\' && s[1] == 'u' {
      UnicodeSame(s, n);
    } else {
      TrimDrop(s, n, if s[0] == '\\' then 2 else 1);
    }
  }

  /** The two decoders of a key literal agree, or neither result is ASCII. */
  lemma {:induction false} DecodeSame(s: string)
    requires StringBody(s).Some?
    ensures SameToAscii(StringBody(s).value.0, LooseDecode(Trim(s, |StringBody(s).value.1| + 1)))
    decreases |s|
  {
    hide StringUnit, LooseUnit, SameToAscii;
    var n := |StringBody(s).value.1| + 1;
    if s[0] == '"' {
      assert Trim(s, n) == [];
      assert SameToAscii("", "") by { SameSelf(""); }
    } else {
      var (chunk, rest) := StringUnit(s).value;
      UnitSame(s, n);
      DecodeSame(rest);
      SameConcat(chunk, LooseUnit(Trim(s, n)).0, StringBody(rest).value.0, LooseDecode(Trim(rest, n)));
    }
  }

  lemma SameSelf(a: string)
    ensures SameToAscii(a, a)
  {
  }

  /** A string body none of whose units is an escape of a surrogate. */
  predicate SurrogateFree(s: string)
    requires StringBody(s).Some?
    decreases |s|
  {
    s[0] == '"' || (!SurrogateUnit(s) && SurrogateFree(StringUnit(s).value.1))
  }

  predicate SurrogateUnit(s: string) {
    && 2 <= |s| && s[0] == '\\' && s[1] == 'u'
    && Hex4(s[2..]).Some? && 0xD800 <= Hex4(s[2..]).value <= 0xDFFF
  }

  /** Shorter, or as long with a smaller first byte. */
  predicate Precedes(a: string, b: string) {
    |a| < |b| || (|a| == |b| && a != [] && a[0] < b[0])
  }

  /** One unit's two encodings: the same, or for a surrogate escape the scanner's comes first. */
  lemma UnitExact(s: string, n: nat)
    requires s != [] && s[0] != '"' && StringUnit(s).Some?
    requires var rest := StringUnit(s).value.1;
             StringBody(rest).Some? && n == |StringBody(rest).value.1| + 1
    ensures n <= |s| && Trim(s, n) != []
    ensures var (chunk, loose) := (StringUnit(s).value.0, LooseUnit(Trim(s, n)).0);
            && |loose| <= |chunk|
            && (if SurrogateUnit(s) then Precedes(loose, chunk) else chunk == loose)
  {
    hide StringBody;
    UnitSame(s, n);
    if s[0] == '\\' && s[1] == 'u' {
      UnicodeExact(s, n);
    } else {
      TrimDrop(s, n, if s[0] == '\\' then 2 else 1);
    }
  }

  /** The two encodings of one code. */
  lemma CodeExact(code: nat)
    requires code <= 0x10FFFF
    ensures |LooseUtf8(code)| <= |Utf8(code)|
    ensures code <= 0xFFFF ==> Utf8(code) == LooseUtf8(code)
    ensures 0xFFFF < code ==> Precedes(LooseUtf8(code), Utf8(code))
    ensures 0xD800 <= code <= 0xDFFF ==> Precedes(LooseUtf8(code), Utf8(0xFFFD)) && |LooseUtf8(code)| <= |Utf8(0xFFFD)|
  {
  }

  lemma UnicodeExact(s: string, n: nat)
    requires 2 <= |s| && s[0] == '\\' && s[1] == 'u' && UnicodeEscape(s[2..]).Some?
    requires var rest := UnicodeEscape(s[2..]).value.1;
             StringBody(rest).Some? && n == |StringBody(rest).value.1| + 1
    ensures n <= |s| && Trim(s, n) != []
    ensures var (chunk, loose) := (Utf8(UnicodeEscape(s[2..]).value.0), LooseUnit(Trim(s, n)).0);
            && |loose| <= |chunk|
            && (if SurrogateUnit(s) then Precedes(loose, chunk) else chunk == loose)
  {
    hide Hex4, StringBody, LooseHex4, Utf8, LooseUtf8, Precedes;
    var (code, end) := UnicodeEscape(s[2..]).value;
    var rest := s[6..];
    assert rest == s[2..][4..];
    var first := Hex4(s[2..]).value;
    TrimDrop(s, n, 2);
    TrimDrop(s, n, 6);
    TrimHex(s[2..], n);
    HexSame(Trim(s[2..], n));
    if 2 <= |rest| && rest[0] == '\\' && rest[1] == 'u' && IsHighSurrogate(first) {
      if end == rest {
        EscapeIsInside(rest, n - 1);
      }
      TrimDrop(rest, n, 2);
      TrimDrop(rest, n, 6);
      TrimHex(rest[2..], n);
      HexSame(Trim(rest[2..], n));
    }
    CodeExact(first);
    CodeExact(code);
  }

  /** The two decoders of a key literal agree exactly on literals free of surrogate escapes. */
  lemma {:induction false} DecodeExactIff(s: string)
    requires StringBody(s).Some?
    ensures var (strict, loose) := (StringBody(s).value.0, LooseDecode(Trim(s, |StringBody(s).value.1| + 1)));
            |loose| <= |strict| && (strict == loose <==> SurrogateFree(s))
    decreases |s|
  {
    hide StringUnit, LooseUnit, SurrogateUnit;
    var n := |StringBody(s).value.1| + 1;
    if s[0] == '"' {
      assert Trim(s, n) == [];
    } else {
      var (chunk, rest) := StringUnit(s).value;
      UnitSame(s, n);
      UnitExact(s, n);
      DecodeExactIff(rest);
      var loose := LooseUnit(Trim(s, n)).0;
      var (strict', loose') := (StringBody(rest).value.0, LooseDecode(Trim(rest, n)));
      if chunk + strict' == loose + loose' {
        assert chunk == (chunk + strict')[..|chunk|] && loose == (loose + loose')[..|loose|];
        assert strict' == (chunk + strict')[|chunk|..] && loose' == (loose + loose')[|loose|..];
      }
    }
  }

  // -- Members ------------------------------------------------------------------------------

  /** The value of the first member named `key`. */
  function FindMember(members: seq<(string, Value)>, key: string): Option<Value> {
    if members == [] then None
    else if members[0].0 == key then Some(members[0].1)
    else FindMember(members[1..], key)
  }

  ghost predicate SpanOf(span: Option<string>, v: Option<Value>, converts: Converts) {
    if v.None? then span.None? else span.Some? && ParseDocument(span.value, converts) == v
  }

  lemma {:induction false} SpaceStops(s: string)
    requires s == [] || !IsSpace(s[0])
    ensures SkipSpace(s) == s
  {
  }

  /** The text a token was read from, parsed alone, is the same value. */
  lemma SpanParses(s: string, converts: Converts)
    requires ParseToken(s, converts).Some? && !IsSpace(s[0])
    ensures var (v, rest) := ParseToken(s, converts).value;
            ParseDocument(Before(s, rest), converts) == Some(v)
  {
    hide ParseToken, SkipSpace;
    var (v, rest) := ParseToken(s, converts).value;
    TrimToken(s, |rest|, converts);
    var span := Trim(s, |rest|);
    assert Before(s, rest) == span && span[0] == s[0];
    SpaceStops(span);
    assert Trim(rest, |rest|) == [];
    SpaceStops(Trim(rest, |rest|));
  }

  /** The key of the member at the front of `s`, as the scanner decodes it. */
  ghost function ScannedKey(s: string, converts: Converts): string
    requires ParseMember(s, converts).Some?
  {
    var inner := SkipSpace(s)[1..];
    LooseDecode(Trim(inner, |StringBody(inner).value.1| + 1))
  }

  ghost predicate PlainKey(s: string, converts: Converts)
    requires ParseMember(s, converts).Some?
  {
    SurrogateFree(SkipSpace(s)[1..])
  }

  /** No member's key literal escapes a surrogate. */
  ghost predicate PlainKeys(s: string, converts: Converts)
    requires MembersFrom(s, converts).Some?
    decreases |s|
  {
    && PlainKey(s, converts)
    && var t := SkipSpace(ParseMember(s, converts).value.1);
       StartsWith(t, ',') ==> PlainKeys(t[1..], converts)
  }

  /** One turn of the scanner's loop over a member the parser accepts. */
  lemma RawMemberStep(s: string, key: string, converts: Converts)
    requires ParseMember(s, converts).Some?
    requires var t := SkipSpace(ParseMember(s, converts).value.1); StartsWith(t, ',') || StartsWith(t, '}')
    ensures var (member, rest) := ParseMember(s, converts).value;
            if ScannedKey(s, converts) == key then SpanOf(RawFrom(s, key), Some(member.1), converts)
            else RawFrom(s, key) == RawFrom(rest, key)
  {
    hide ParseDocument, StringBody, SkipValue, ToQuote, ParseToken, LooseDecode;
    var t := SkipSpace(s);
    var body := StringBody(t[1..]).value;
    var colon := SkipSpace(body.1);
    var value := SkipSpace(colon[1..]);
    var rest := ParseMember(s, converts).value.1;
    ScanBody(t[1..], 0);
    assert rest[0] == ',' || rest[0] == '}' || IsSpace(rest[0]);
    SkipEndsWhereParseEnds(value, converts);
    SpanParses(value, converts);
    var literal := Before(t, body.1);
    assert literal[1..|literal| - 1] == Trim(t[1..], |body.1| + 1);
  }

  /** On an ASCII key, or any key of a plain literal, both decoders give the same answer. */
  lemma KeysMatch(s: string, key: string, converts: Converts)
    requires ParseMember(s, converts).Some? && (Ascii(key) || PlainKey(s, converts))
    ensures ScannedKey(s, converts) == key <==> ParseMember(s, converts).value.0.0 == key
  {
    hide StringBody, LooseDecode, SameToAscii, SurrogateFree;
    var inner := SkipSpace(s)[1..];
    DecodeSame(inner);
    DecodeExactIff(inner);
    if Ascii(key) {
      KeyMatch(StringBody(inner).value.0, ScannedKey(s, converts), key);
    }
  }

  lemma {:induction false} RawFromFinds(s: string, key: string, converts: Converts)
    requires MembersFrom(s, converts).Some? && (Ascii(key) || PlainKeys(s, converts))
    ensures SpanOf(RawFrom(s, key), FindMember(MembersFrom(s, converts).value.0, key), converts)
    decreases |s|
  {
    hide ParseMember, SkipSpace, ParseDocument, StringBody, SkipValue, ToQuote, DecodeKey, ParseToken, Before;
    hide PlainKey, ScannedKey;
    var (member, rest) := ParseMember(s, converts).value;
    RawMemberStep(s, key, converts);
    KeysMatch(s, key, converts);
    var t := SkipSpace(rest);
    if member.0 != key && StartsWith(t, ',') {
      RawFromFinds(t[1..], key, converts);
    }
  }

  lemma KeyMatch(a: string, b: string, key: string)
    requires SameToAscii(a, b) && Ascii(key)
    ensures a == key <==> b == key
  {
  }

  lemma {:induction false} FoundIsMapped(members: seq<(string, Value)>, key: string)
    requires DistinctKeys(members)
    ensures FindMember(members, key) == if key in MapOf(members) then Some(MapOf(members)[key]) else None
  {
    if members != [] {
      var n := |members| - 1;
      FoundIsMapped(members[..n], key);
      FindSnoc(members[..n], members[n], key);
      assert members == members[..n] + [members[n]];
      if members[n].0 == key && FindMember(members[..n], key).Some? {
        FindGives(members[..n], key);
      }
    }
  }

  lemma {:induction false} FindSnoc(members: seq<(string, Value)>, last: (string, Value), key: string)
    ensures FindMember(members + [last], key)
         == if FindMember(members, key).Some? then FindMember(members, key)
            else if last.0 == key then Some(last.1) else None
  {
    if members == [] {
      assert members + [last] == [last];
    } else {
      assert (members + [last])[1..] == members[1..] + [last];
      FindSnoc(members[1..], last, key);
    }
  }

  lemma {:induction false} FindGives(members: seq<(string, Value)>, key: string)
    requires FindMember(members, key).Some?
    ensures exists i :: 0 <= i < |members| && members[i].0 == key
  {
    if members[0].0 == key {
    } else {
      FindGives(members[1..], key);
      var i :| 0 <= i < |members[1..]| && members[1..][i].0 == key;
      assert members[i + 1].0 == key;
    }
  }

  lemma ObjectToken(s: string, converts: Converts)
    requires ParseToken(s, converts).Some? && ParseToken(s, converts).value.0.Obj?
    ensures StartsWith(s, '{') && ParseMembers(s[1..], converts).Some?
    ensures var list := ParseMembers(s[1..], converts).value.0;
            DistinctKeys(list) && ParseToken(s, converts).value.0.members == MapOf(list)
  {
    hide NumberTail, StringBody, ParseItems, ParseMembers, DistinctKeys, MapOf;
  }

  /** No top-level key of an accepted object body escapes a surrogate. */
  ghost predicate PlainBody(body: string, converts: Converts) {
    var t := SkipSpace(body);
    t != [] && (MembersFrom(t[1..], converts).Some? ==> PlainKeys(t[1..], converts))
  }

  /** For every body the parser accepts as an object and every ASCII key (or any key, when
      no key of the body escapes a surrogate), the scanner returns a span exactly when the
      object has the member, and that span, parsed alone, is the member's value. */
  lemma SpanAgreesWithParser(body: string, key: string, converts: Converts)
    requires ParseDocument(body, converts).Some? && ParseDocument(body, converts).value.Obj?
    requires Ascii(key) || PlainBody(body, converts)
    ensures var members := ParseDocument(body, converts).value.members;
            var span := RawMember(body, key);
            && (span.Some? <==> key in members)
            && (span.Some? ==> ParseDocument(span.value, converts) == Some(members[key]))
  {
    hide SkipSpace, ParseToken, MembersFrom, DistinctKeys, MapOf, Ascii, PlainKeys;
    var t := SkipSpace(body);
    SpaceStops(t);
    ObjectToken(t, converts);
    var (list, rest) := ParseMembers(t[1..], converts).value;
    FoundIsMapped(list, key);
    if StartsWith(SkipSpace(t[1..]), '}') {
      assert RawFrom(t[1..], key) == None;
    } else {
      RawFromFinds(t[1..], key, converts);
    }
  }

  /** A literal on which the decoders differ: U+10000, spelled as a pair of escapes. */
  const PAIR: string := "\\ud800\\udc00\""

  lemma PairDiffers()
    ensures StringBody(PAIR) == Some((Utf8(0x10000), "")) && !SurrogateFree(PAIR)
    ensures DecodeKey("\"" + PAIR) != Utf8(0x10000)
  {
    hide LooseDecode, Utf8;
    PairUnit();
    assert StringBody("\"") == Some(("", ""));
    assert Utf8(0x10000) + "" == Utf8(0x10000);
    DecodeExactIff(PAIR);
    assert ("\"" + PAIR)[1..|PAIR|] == Trim(PAIR, 1);
  }

  lemma PairUnit()
    ensures StringUnit(PAIR) == Some((Utf8(0x10000), "\"")) && SurrogateUnit(PAIR)
  {
    var s := PAIR;
    assert s[2..] == "d800\\udc00\"" && s[2..][4..] == "\\udc00\"";
    assert Hex4(s[2..]) == Some(0xD800);
    assert s[2..][4..][2..] == "dc00\"";
    assert Hex4(s[2..][4..][2..]) == Some(0xDC00);
    assert s[2..][4..][6..] == "\"";
    assert UnicodeEscape(s[2..]) == Some((0x10000, "\""));
  }
}
