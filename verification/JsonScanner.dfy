/** The span scanner as it runs: index-advancing loops over the body. */
module JsonScanner {
  import opened Wrappers
  import opened Json
  import opened JsonSpan

  /** Where an index stands for a scan result: a tail of the text, or beyond it. */
  ghost predicate StandsFor(body: string, j: nat, e: Scan) {
    if e.At? then j <= |body| && body[j..] == e.rest else |body| < j
  }

  method SkipSpaceAt(body: string, index: nat) returns (j: nat)
    requires index <= |body|
    ensures index <= j <= |body| && body[j..] == SkipSpace(body[index..])
  {
    j := index;
    while j < |body| && IsSpace(body[j])
      invariant index <= j <= |body| && SkipSpace(body[j..]) == SkipSpace(body[index..])
    {
      j := j + 1;
    }
  }

  /** Advances to a closing quote, stepping over escaped characters. */
  method ToQuoteAt(body: string, index: nat) returns (j: nat)
    requires index <= |body|
    ensures index <= j && StandsFor(body, j, ToQuote(body[index..]))
  {
    j := index;
    while j < |body| && body[j] != '"'
      invariant index <= j
      invariant if j <= |body| then ToQuote(body[j..]) == ToQuote(body[index..])
                else ToQuote(body[index..]) == Past
    {
      if body[j] == '\\' {
        j := j + 1;
      }
      j := j + 1;
    }
  }

  method ToCloseAt(body: string, index: nat) returns (j: nat)
    requires index < |body| && (body[index] == '{' || body[index] == '[')
    ensures index <= j && StandsFor(body, j, ToClose(body[index..], 0, false))
  {
    var depth, inString := 0, false;
    ghost var end := ToClose(body[index..], 0, false);
    j := index;
    while j < |body|
      invariant index <= j
      invariant if j <= |body| then ToClose(body[j..], depth, inString) == end else end == Past
    {
      var c := body[j];
      if inString {
        if c == '\\' {
          j := j + 2;
          continue;
        }
        if c == '"' {
          inString := false;
        }
      } else if c == '"' {
        inString := true;
      } else if c == '{' || c == '[' {
        depth := depth + 1;
      } else if c == '}' || c == ']' {
        depth := depth - 1;
        if depth == 0 {
          j := j + 1;
          return;
        }
      }
      j := j + 1;
    }
  }

  method ToDelimiterAt(body: string, index: nat) returns (j: nat)
    requires index <= |body|
    ensures index <= j <= |body| && body[j..] == ToDelimiter(body[index..])
  {
    j := index;
    while j < |body|
      invariant index <= j <= |body| && ToDelimiter(body[j..]) == ToDelimiter(body[index..])
    {
      if EndsScalar(body[j]) {
        break;
      }
      j := j + 1;
    }
  }

  /** The index just past the value at `index`. */
  method SkipValueAt(body: string, index: nat) returns (j: nat)
    requires index <= |body|
    ensures index <= j && StandsFor(body, j, SkipValue(body[index..]))
  {
    if index >= |body| {
      return index;
    }
    if body[index] == '"' {
      assert body[index..][1..] == body[index + 1..];
      j := ToQuoteAt(body, index + 1);
      if j < |body| {
        j := j + 1;
      }
    } else if body[index] == '{' || body[index] == '[' {
      j := ToCloseAt(body, index);
    } else {
      j := ToDelimiterAt(body, index);
    }
  }

  /** Decodes a quoted key literal unit by unit. */
  method DecodeJsonString(literal: string) returns (out: string)
    ensures out == DecodeKey(literal)
  {
    hide LooseUnit;
    out := "";
    if |literal| < 2 || literal[0] != '"' {
      return;
    }
    var index, end := 1, |literal| - 1;
    while index < end
      invariant 1 <= index <= end
      invariant out + LooseDecode(literal[index..end]) == DecodeKey(literal)
    {
      var chunk, next := DecodeUnitAt(literal, index, end);
      assert out + (chunk + LooseDecode(literal[next..end])) == (out + chunk) + LooseDecode(literal[next..end]);
      out, index := out + chunk, next;
    }
  }

  method DecodeUnitAt(literal: string, index: nat, end: nat) returns (chunk: string, next: nat)
    requires index < end <= |literal|
    ensures index < next <= end && LooseUnit(literal[index..end]) == (chunk, literal[next..end])
  {
    hide LooseHex4, LooseUtf8;
    ghost var s := literal[index..end];
    if literal[index] != '\\' {
      return [literal[index]], index + 1;
    }
    if index + 1 >= end {
      assert literal[end..end] == "";
      return "", end;
    }
    if literal[index + 1] != 'u' {
      var escaped := SimpleEscape(literal[index + 1]);
      return (if escaped.None? then "" else [escaped.value]), index + 2;
    }
    if end < index + 6 {
      return "", index + 2;
    }
    assert s[2..] == literal[index + 2..end] && s[6..] == literal[index + 6..end];
    var code := LooseHex4(literal[index + 2..end]);
    next := index + 6;
    if IsHighSurrogate(code) && next + 6 <= end && literal[next] == '\\' && literal[next + 1] == 'u' {
      assert s[6..][2..] == literal[next + 2..end] && s[6..][6..] == literal[next + 6..end];
      var low := LooseHex4(literal[next + 2..end]);
      if IsLowSurrogate(low) {
        next := next + 6;
        code := 0x10000 + (code - 0xD800) * 0x400 + (low - 0xDC00);
      }
    }
    chunk := LooseUtf8(code);
  }

  /** The source text of the top-level member `key`. */
  method RawMemberText(body: string, key: string) returns (r: Option<string>)
    ensures r == RawMember(body, key)
  {
    hide SkipSpace, SkipValue, ToQuote, DecodeKey, RawFrom;
    var index := SkipSpaceAt(body, 0);
    assert body[0..] == body;
    if index >= |body| || body[index] != '{' {
      return None;
    }
    assert body[index..][1..] == body[index + 1..];
    index := index + 1;
    ghost var all := RawFrom(body[index..], key);
    while index < |body|
      invariant index <= |body| && RawFrom(body[index..], key) == all
    {
      var done, span, next := NextMember(body, index, key);
      if done {
        return span;
      }
      index := next;
    }
    RawFromEnd(body[index..], key);
    r := None;
  }

  lemma RawFromEnd(s: string, key: string)
    requires s == []
    ensures RawFrom(s, key) == None
  {
  }

  /** One turn of the member loop: an answer, or the index to go on from. */
  method NextMember(body: string, start: nat, key: string) returns (done: bool, span: Option<string>, next: nat)
    requires start < |body|
    ensures done ==> span == RawFrom(body[start..], key)
    ensures !done ==> start < next <= |body| && RawFrom(body[start..], key) == RawFrom(body[next..], key)
  {
    hide SkipSpace, SkipValue, ToQuote, DecodeKey;
    var index := SkipSpaceAt(body, start);
    if index >= |body| || body[index] == '}' {
      return true, None, start;
    }
    ghost var t := body[index..];
    if body[index] == ',' {
      assert t[1..] == body[index + 1..];
      return false, None, index + 1;
    }
    if body[index] != '"' {
      return true, None, start;
    }
    var keyStart := index;
    assert t[1..] == body[index + 1..];
    index := ToQuoteAt(body, index + 1);
    if index >= |body| {
      return true, None, start;
    }
    assert body[index..][1..] == body[index + 1..];
    index := index + 1;
    var literal := body[keyStart..index];
    assert literal == Before(t, body[index..]);
    index := SkipSpaceAt(body, index);
    if index >= |body| || body[index] != ':' {
      return true, None, start;
    }
    assert body[index..][1..] == body[index + 1..];
    var valueStart := SkipSpaceAt(body, index + 1);
    var valueEnd := SkipValueAt(body, valueStart);
    if valueEnd > |body| {
      return true, None, start;
    }
    var decoded := DecodeJsonString(literal);
    if decoded == key {
      assert body[valueStart..valueEnd] == Before(body[valueStart..], body[valueEnd..]);
      return true, Some(body[valueStart..valueEnd]), start;
    }
    return false, None, valueEnd;
  }
}
