/** The span scanner that finds a top-level member's source text without parsing it. */
module JsonSpan {
  import opened Wrappers
  import opened Json

  /** Where a scan stopped: at a tail of the text, or past its end (an escape cut short). */
  datatype Scan = At(rest: string) | Past

  /** The closing quote of a string, from inside it; the end of the text if there is none. */
  function ToQuote(s: string): (e: Scan)
    ensures e.At? ==> |e.rest| <= |s| && (e.rest == [] || e.rest[0] == '"')
  {
    if s == [] || s[0] == '"' then At(s)
    else if s[0] == '\\' then (if |s| < 2 then Past else ToQuote(s[2..]))
    else ToQuote(s[1..])
  }

  /** The end of the container opened `depth` levels up; inside a string or not. */
  function ToClose(s: string, depth: int, inString: bool): (e: Scan)
    ensures e.At? ==> |e.rest| <= |s|
  {
    if s == [] then At(s)
    else if inString then
      if s[0] == '\\' then (if |s| < 2 then Past else ToClose(s[2..], depth, true))
      else ToClose(s[1..], depth, s[0] != '"')
    else if s[0] == '"' then ToClose(s[1..], depth, true)
    else if s[0] == '{' || s[0] == '[' then ToClose(s[1..], depth + 1, false)
    else if s[0] == '}' || s[0] == ']' then
      (if depth == 1 then At(s[1..]) else ToClose(s[1..], depth - 1, false))
    else ToClose(s[1..], depth, false)
  }

  predicate EndsScalar(c: char) {
    c == ',' || c == '}' || c == ']' || IsSpace(c)
  }

  function ToDelimiter(s: string): (r: string)
    ensures |r| <= |s|
  {
    if s == [] || EndsScalar(s[0]) then s else ToDelimiter(s[1..])
  }

  /** What follows the value at the front of `s`. */
  function SkipValue(s: string): (e: Scan)
    ensures e.At? ==> |e.rest| <= |s|
  {
    if s == [] then At(s)
    else if s[0] == '"' then
      var quote := ToQuote(s[1..]);
      if quote.At? && quote.rest != [] then At(quote.rest[1..]) else quote
    else if s[0] == '{' || s[0] == '[' then ToClose(s, 0, false)
    else At(ToDelimiter(s))
  }

  // -- Keys -----------------------------------------------------------------------------

  function LooseHex(c: char): nat {
    if HexValue(c) < 0 then 0 else HexValue(c)
  }

  function LooseHex4(s: string): (code: nat)
    requires 4 <= |s|
    ensures code <= 0xFFFF
  {
    0x1000 * LooseHex(s[0]) + 0x100 * LooseHex(s[1]) + 0x10 * LooseHex(s[2]) + LooseHex(s[3])
  }

  /** Code points past U+FFFF are squeezed into three bytes, unlike the parser's `Utf8`. */
  function LooseUtf8(code: nat): string
    requires code <= 0x10FFFF
  {
    if code <= 0x7F then [Byte(code)]
    else if code <= 0x7FF then [Byte(0xC0 + code / 0x40), Byte(0x80 + code % 0x40)]
    else [Byte(0xE0 + code / 0x1000 % 0x20), Byte(0x80 + code / 0x40 % 0x40), Byte(0x80 + code % 0x40)]
  }

  /** One unit of a key literal's inside, with no validation. */
  function LooseUnit(s: string): (r: (string, string))
    requires s != []
    ensures |r.1| < |s|
  {
    if s[0] != '\\' then ([s[0]], s[1..])
    else if |s| < 2 then ("", "")
    else if s[1] == 'u' then
      if |s| < 6 then ("", s[2..])
      else
        var code := LooseHex4(s[2..]);
        var rest := s[6..];
        if IsHighSurrogate(code) && 6 <= |rest| && rest[0] == '\\' && rest[1] == 'u'
           && IsLowSurrogate(LooseHex4(rest[2..])) then
          (LooseUtf8(0x10000 + (code - 0xD800) * 0x400 + (LooseHex4(rest[2..]) - 0xDC00)), rest[6..])
        else (LooseUtf8(code), rest)
    else
      var c := SimpleEscape(s[1]);
      (if c.None? then "" else [c.value], s[2..])
  }

  function LooseDecode(s: string): string
    decreases |s|
  {
    if s == [] then "" else var unit := LooseUnit(s); unit.0 + LooseDecode(unit.1)
  }

  /** The value of a quoted key literal. */
  function DecodeKey(literal: string): string {
    if |literal| < 2 || literal[0] != '"' then "" else LooseDecode(literal[1..|literal| - 1])
  }

  // -- Members --------------------------------------------------------------------------

  function RawFrom(s: string, key: string): (r: Option<string>)
    decreases |s|
  {
    var t := SkipSpace(s);
    if t == [] then None
    else if t[0] == ',' then RawFrom(t[1..], key)
    else if t[0] != '"' then None
    else
      var quote := ToQuote(t[1..]);
      if quote.Past? || quote.rest == [] then None
      else
        var afterKey := quote.rest[1..];
        var colon := SkipSpace(afterKey);
        if !StartsWith(colon, ':') then None
        else
          var value := SkipSpace(colon[1..]);
          var end := SkipValue(value);
          if end.Past? then None
          else if DecodeKey(Before(t, afterKey)) == key then Some(Before(value, end.rest))
          else RawFrom(end.rest, key)
  }

  /** The source text of a top-level member of an object. */
  function RawMember(body: string, key: string): (r: Option<string>) {
    var t := SkipSpace(body);
    if !StartsWith(t, '{') then None else RawFrom(t[1..], key)
  }
}
