/** JSON values and the recursive-descent reading of them, over what is left of the text.
    A `char` stands for one byte of the source's strings. Whether a number lexeme converts
    is the library's decision (`std::stod`), so it is a parameter; a number is its lexeme. */
module Json {
  import opened Wrappers

  datatype Value =
    | Null
    | Bool(flag: bool)
    | Number(lexeme: string)
    | Str(text: string)
    | Arr(items: seq<Value>)
    | Obj(members: map<string, Value>)

  type Converts = string -> bool

  // -- Characters ---------------------------------------------------------------------

  predicate IsSpace(c: char) {
    c == ' ' || c == '\n' || c == '\r' || c == '\t'
  }

  predicate IsDigit(c: char) {
    '0' <= c <= '9'
  }

  function SkipSpace(s: string): (r: string)
    ensures |r| <= |s|
    ensures r != [] ==> !IsSpace(r[0])
  {
    if s != [] && IsSpace(s[0]) then SkipSpace(s[1..]) else s
  }

  function SkipDigits(s: string): (r: string)
    ensures |r| <= |s|
    ensures r != [] ==> !IsDigit(r[0])
  {
    if s != [] && IsDigit(s[0]) then SkipDigits(s[1..]) else s
  }

  predicate StartsWith(s: string, c: char) {
    s != [] && s[0] == c
  }

  // -- Strings ------------------------------------------------------------------------

  function HexValue(c: char): (v: int)
    ensures -1 <= v < 16
  {
    if '0' <= c <= '9' then c as int - '0' as int
    else if 'a' <= c <= 'f' then c as int - 'a' as int + 10
    else if 'A' <= c <= 'F' then c as int - 'A' as int + 10
    else -1
  }

  function Hex4(s: string): (r: Option<nat>)
    ensures r.Some? ==> 4 <= |s| && r.value <= 0xFFFF
  {
    if |s| < 4 || exists i :: 0 <= i < 4 && HexValue(s[i]) < 0 then None
    else Some(0x1000 * HexValue(s[0]) + 0x100 * HexValue(s[1]) + 0x10 * HexValue(s[2]) + HexValue(s[3]))
  }

  predicate IsHighSurrogate(code: nat) {
    0xD800 <= code <= 0xDBFF
  }

  predicate IsLowSurrogate(code: nat) {
    0xDC00 <= code <= 0xDFFF
  }

  /** The code point of a `\u` escape, read after the `u`. A pair of surrogates is one code
      point; a stray surrogate becomes U+FFFD. */
  function UnicodeEscape(s: string): (r: Option<(nat, string)>)
    ensures r.Some? ==> r.value.0 <= 0x10FFFF && |r.value.1| < |s|
  {
    var first := Hex4(s);
    if first.None? then None
    else
      var rest := s[4..];
      if IsHighSurrogate(first.value) && 2 <= |rest| && rest[0] == '\\' && rest[1] == 'u' then
        var low := Hex4(rest[2..]);
        if low.None? then None
        else if IsLowSurrogate(low.value) then
          Some((0x10000 + (first.value - 0xD800) * 0x400 + (low.value - 0xDC00), rest[6..]))
        else Some((0xFFFD, rest))
      else if IsHighSurrogate(first.value) || IsLowSurrogate(first.value) then Some((0xFFFD, rest))
      else Some((first.value, rest))
  }

  function Byte(b: nat): char
    requires b < 0x100
  {
    b as char
  }

  /** The UTF-8 bytes of a code point. */
  function Utf8(code: nat): string
    requires code <= 0x10FFFF
  {
    if code <= 0x7F then [Byte(code)]
    else if code <= 0x7FF then [Byte(0xC0 + code / 0x40), Byte(0x80 + code % 0x40)]
    else if code <= 0xFFFF then
      [Byte(0xE0 + code / 0x1000), Byte(0x80 + code / 0x40 % 0x40), Byte(0x80 + code % 0x40)]
    else
      [Byte(0xF0 + code / 0x40000), Byte(0x80 + code / 0x1000 % 0x40),
       Byte(0x80 + code / 0x40 % 0x40), Byte(0x80 + code % 0x40)]
  }

  /** The character a one-letter escape stands for. */
  function SimpleEscape(c: char): Option<char> {
    match c
    case '"' => Some('"')
    case '\\' => Some('\\')
    case '/' => Some('/')
    case 'b' => Some(8 as char)
    case 'f' => Some(12 as char)
    case 'n' => Some('\n')
    case 'r' => Some('\r')
    case 't' => Some('\t')
    case _ => None
  }

  /** One unit of a string body: a plain character or a whole escape. */
  function StringUnit(s: string): (r: Option<(string, string)>)
    requires s != [] && s[0] != '"'
    ensures r.Some? ==> |r.value.1| < |s|
  {
    if s[0] < ' ' then None
    else if s[0] != '\\' then Some(([s[0]], s[1..]))
    else if |s| < 2 then None
    else if s[1] == 'u' then
      var escape := UnicodeEscape(s[2..]);
      if escape.None? then None else Some((Utf8(escape.value.0), escape.value.1))
    else
      var c := SimpleEscape(s[1]);
      if c.None? then None else Some(([c.value], s[2..]))
  }

  /** A string after its opening quote: the decoded text and what follows the closing one. */
  function StringBody(s: string): (r: Option<(string, string)>)
    ensures r.Some? ==> |r.value.1| < |s|
    decreases |s|
  {
    if s == [] then None
    else if s[0] == '"' then Some(("", s[1..]))
    else
      var unit := StringUnit(s);
      if unit.None? then None
      else
        var tail := StringBody(unit.value.1);
        if tail.None? then None else Some((unit.value.0 + tail.value.0, tail.value.1))
  }

  // -- Numbers ------------------------------------------------------------------------

  /** What follows the longest number at the front of `s`. */
  function NumberTail(s: string): (r: Option<string>)
    ensures r.Some? ==> |r.value| < |s|
  {
    var unsigned := if StartsWith(s, '-') then s[1..] else s;
    if unsigned == [] || !IsDigit(unsigned[0]) then None
    else
      var fraction := if unsigned[0] == '0' then unsigned[1..] else SkipDigits(unsigned[1..]);
      var exponent := FractionTail(fraction);
      if exponent.None? then None else ExponentTail(exponent.value)
  }

  function FractionTail(s: string): (r: Option<string>)
    ensures r.Some? ==> |r.value| <= |s|
  {
    if !StartsWith(s, '.') then Some(s)
    else if |s| < 2 || !IsDigit(s[1]) then None
    else Some(SkipDigits(s[1..]))
  }

  function ExponentTail(s: string): (r: Option<string>)
    ensures r.Some? ==> |r.value| <= |s|
  {
    if !StartsWith(s, 'e') && !StartsWith(s, 'E') then Some(s)
    else
      var signed := if 2 <= |s| && (s[1] == '+' || s[1] == '-') then s[2..] else s[1..];
      if signed == [] || !IsDigit(signed[0]) then None else Some(SkipDigits(signed))
  }

  /** The part of `s` before its tail `r`. */
  function Before(s: string, r: string): string
    requires |r| <= |s|
  {
    s[..|s| - |r|]
  }

  // -- Values -------------------------------------------------------------------------

  function ParseLiteral(s: string, literal: string, v: Value): (r: Option<(Value, string)>)
    ensures r.Some? && literal != [] ==> |r.value.1| < |s|
  {
    if literal <= s then Some((v, s[|literal|..])) else None
  }

  function ParseNumber(s: string, converts: Converts): (r: Option<(Value, string)>)
    ensures r.Some? ==> |r.value.1| < |s|
  {
    var tail := NumberTail(s);
    if tail.None? || !converts(Before(s, tail.value)) then None
    else Some((Number(Before(s, tail.value)), tail.value))
  }

  function ParseValue(s: string, converts: Converts): (r: Option<(Value, string)>)
    ensures r.Some? ==> |r.value.1| < |s|
    decreases |s|, 1
  {
    ParseToken(SkipSpace(s), converts)
  }

  /** A value at the front of a text with no leading space. */
  function ParseToken(s: string, converts: Converts): (r: Option<(Value, string)>)
    ensures r.Some? ==> |r.value.1| < |s|
    decreases |s|, 0
  {
    if s == [] then None
    else match s[0]
      case 'n' => ParseLiteral(s, "null", Null)
      case 't' => ParseLiteral(s, "true", Bool(true))
      case 'f' => ParseLiteral(s, "false", Bool(false))
      case '"' =>
        var body := StringBody(s[1..]);
        if body.None? then None else Some((Str(body.value.0), body.value.1))
      case '[' =>
        var items := ParseItems(s[1..], converts);
        if items.None? then None else Some((Arr(items.value.0), items.value.1))
      case '{' =>
        var members := ParseMembers(s[1..], converts);
        if members.None? || !DistinctKeys(members.value.0) then None
        else Some((Obj(MapOf(members.value.0)), members.value.1))
      case _ => ParseNumber(s, converts)
  }

  /** An array after its bracket. */
  function ParseItems(s: string, converts: Converts): (r: Option<(seq<Value>, string)>)
    ensures r.Some? ==> |r.value.1| < |s|
    decreases |s|, 3
  {
    var t := SkipSpace(s);
    if StartsWith(t, ']') then Some(([], t[1..])) else ItemsFrom(s, converts)
  }

  /** One item and the rest of the array. */
  function ItemsFrom(s: string, converts: Converts): (r: Option<(seq<Value>, string)>)
    ensures r.Some? ==> |r.value.1| < |s|
    decreases |s|, 2
  {
    var first := ParseValue(s, converts);
    if first.None? then None
    else
      var t := SkipSpace(first.value.1);
      if StartsWith(t, ']') then Some(([first.value.0], t[1..]))
      else if StartsWith(t, ',') then
        var rest := ItemsFrom(t[1..], converts);
        if rest.None? then None else Some(([first.value.0] + rest.value.0, rest.value.1))
      else None
  }

  /** An object after its brace: the members in source order. */
  function ParseMembers(s: string, converts: Converts): (r: Option<(seq<(string, Value)>, string)>)
    ensures r.Some? ==> |r.value.1| < |s|
    decreases |s|, 4
  {
    var t := SkipSpace(s);
    if StartsWith(t, '}') then Some(([], t[1..])) else MembersFrom(s, converts)
  }

  function ParseMember(s: string, converts: Converts): (r: Option<((string, Value), string)>)
    ensures r.Some? ==> |r.value.1| < |s|
    decreases |s|, 2
  {
    var t := SkipSpace(s);
    if !StartsWith(t, '"') then None
    else
      var key := StringBody(t[1..]);
      if key.None? then None
      else
        var colon := SkipSpace(key.value.1);
        if !StartsWith(colon, ':') then None
        else
          var value := ParseValue(colon[1..], converts);
          if value.None? then None else Some(((key.value.0, value.value.0), value.value.1))
  }

  /** One member and the rest of the object. */
  function MembersFrom(s: string, converts: Converts): (r: Option<(seq<(string, Value)>, string)>)
    ensures r.Some? ==> |r.value.1| < |s|
    ensures r.Some? ==> r.value.0 != []
    decreases |s|, 3
  {
    var first := ParseMember(s, converts);
    if first.None? then None
    else
      var t := SkipSpace(first.value.1);
      if StartsWith(t, '}') then Some(([first.value.0], t[1..]))
      else if StartsWith(t, ',') then
        var rest := MembersFrom(t[1..], converts);
        if rest.None? then None else Some(([first.value.0] + rest.value.0, rest.value.1))
      else None
  }

  predicate DistinctKeys(members: seq<(string, Value)>) {
    forall i, j :: 0 <= i < j < |members| ==> members[i].0 != members[j].0
  }

  function MapOf(members: seq<(string, Value)>): map<string, Value> {
    if members == [] then map[]
    else MapOf(members[..|members| - 1])[members[|members| - 1].0 := members[|members| - 1].1]
  }

  /** A whole document: one value, with nothing but space around it. */
  function ParseDocument(s: string, converts: Converts): Option<Value> {
    var v := ParseValue(SkipSpace(s), converts);
    if v.Some? && SkipSpace(v.value.1) == [] then Some(v.value.0) else None
  }
}
