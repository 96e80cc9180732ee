/** The parser as it runs: one object with a position that its methods advance. A failed
    parse is `None`, where the source throws. */
module JsonParser {
  import opened Wrappers
  import opened Json

  class Parser {
    const text: string
    const converts: Converts
    var position: nat

    constructor (text: string, converts: Converts)
      ensures this.text == text && this.converts == converts && position == 0
    {
      this.text := text;
      this.converts := converts;
      position := 0;
    }

    ghost predicate Valid()
      reads this
    {
      position <= |text|
    }

    ghost function Rest(): string
      requires Valid()
      reads this
    {
      text[position..]
    }

    method ParseWhole() returns (r: Option<Value>)
      requires Valid() && position == 0
      modifies this
      ensures r == ParseDocument(text, converts)
    {
      assert Rest() == text;
      SkipWhitespace();
      var v := ParseOne();
      if v.None? {
        return None;
      }
      SkipWhitespace();
      if position != |text| {
        return None;
      }
      return v;
    }

    method SkipWhitespace()
      requires Valid()
      modifies this
      ensures Valid() && old(position) <= position && Rest() == SkipSpace(old(Rest()))
    {
      while position < |text| && IsSpace(text[position])
        invariant Valid() && old(position) <= position && SkipSpace(Rest()) == SkipSpace(old(Rest()))
      {
        assert Rest()[1..] == text[position + 1..];
        position := position + 1;
      }
    }

    method Consume(c: char) returns (found: bool)
      requires Valid()
      modifies this
      ensures Valid() && found == StartsWith(old(Rest()), c)
      ensures Rest() == if found then old(Rest())[1..] else old(Rest())
    {
      found := position < |text| && text[position] == c;
      if found {
        position := position + 1;
      }
    }

    method ParseOne() returns (r: Option<Value>)
      requires Valid()
      modifies this
      ensures Reads(r, ParseValue(old(Rest()), converts), old(position))
      decreases |text| - position, 1
    {
      SkipWhitespace();
      r := ParseFirst();
    }

    /** The method's outcome is the specification's: same value, same rest. */
    ghost predicate Reads<T>(r: Option<T>, spec: Option<(T, string)>, start: nat)
      reads this
    {
      if spec.None? then r.None?
      else r == Some(spec.value.0) && start < position && Valid() && Rest() == spec.value.1
    }

    method ParseFirst() returns (r: Option<Value>)
      requires Valid()
      modifies this
      ensures Reads(r, ParseToken(old(Rest()), converts), old(position))
      decreases |text| - position, 0
    {
      hide StringBody, ParseItems, ParseMembers, ParseNumber, DistinctKeys, MapOf;
      if position >= |text| {
        return None;
      }
      ghost var s := Rest();
      match text[position]
      case 'n' => r := ParseKeyword("null", Null);
      case 't' => r := ParseKeyword("true", Bool(true));
      case 'f' => r := ParseKeyword("false", Bool(false));
      case '"' =>
        position := position + 1;
        assert Rest() == s[1..];
        var body := ParseText();
        r := if body.None? then None else Some(Str(body.value));
      case '[' =>
        position := position + 1;
        assert Rest() == s[1..];
        var items := ParseArray();
        r := if items.None? then None else Some(Arr(items.value));
      case '{' =>
        position := position + 1;
        assert Rest() == s[1..];
        r := ParseObject();
      case _ => r := ParseNumeral();
    }

    method ParseKeyword(literal: string, v: Value) returns (r: Option<Value>)
      requires Valid() && literal != []
      modifies this
      ensures Reads(r, ParseLiteral(old(Rest()), literal, v), old(position))
    {
      ghost var s := Rest();
      if |text| < position + |literal| {
        return None;
      }
      assert s[..|literal|] == text[position..position + |literal|];
      if text[position..position + |literal|] != literal {
        return None;
      }
      position := position + |literal|;
      r := Some(v);
    }

    method SkipDigitRun()
      requires Valid()
      modifies this
      ensures Valid() && old(position) <= position && Rest() == SkipDigits(old(Rest()))
    {
      while position < |text| && IsDigit(text[position])
        invariant Valid() && old(position) <= position && SkipDigits(Rest()) == SkipDigits(old(Rest()))
      {
        assert Rest()[1..] == text[position + 1..];
        position := position + 1;
      }
    }

    method ParseNumeral() returns (r: Option<Value>)
      requires Valid()
      modifies this
      ensures Reads(r, ParseNumber(old(Rest()), converts), old(position))
    {
      hide SkipDigits, FractionTail, ExponentTail;
      ghost var s := Rest();
      var start := position;
      var negative := Consume('-');
      if position >= |text| || !IsDigit(text[position]) {
        return None;
      }
      var zero := text[position] == '0';
      assert Rest()[1..] == text[position + 1..];
      position := position + 1;
      if !zero {
        SkipDigitRun();
      }
      var fraction := SkipFraction();
      if !fraction {
        return None;
      }
      var exponent := SkipExponent();
      if !exponent {
        return None;
      }
      assert text[start..position] == Before(s, Rest());
      if !converts(text[start..position]) {
        return None;
      }
      r := Some(Number(text[start..position]));
    }

    method SkipFraction() returns (ok: bool)
      requires Valid()
      modifies this
      ensures ok == FractionTail(old(Rest())).Some?
      ensures ok ==> old(position) <= position && Valid() && Rest() == FractionTail(old(Rest())).value
    {
      hide SkipDigits;
      ghost var s := Rest();
      var dot := Consume('.');
      if dot {
        if position >= |text| || !IsDigit(text[position]) {
          return false;
        }
        SkipDigitRun();
      }
      ok := true;
    }

    method SkipExponent() returns (ok: bool)
      requires Valid()
      modifies this
      ensures ok == ExponentTail(old(Rest())).Some?
      ensures ok ==> old(position) <= position && Valid() && Rest() == ExponentTail(old(Rest())).value
    {
      hide SkipDigits;
      ghost var s := Rest();
      if position < |text| && (text[position] == 'e' || text[position] == 'E') {
        position := position + 1;
        if position < |text| && (text[position] == '+' || text[position] == '-') {
          assert s[2..] == text[position + 1..];
          position := position + 1;
        }
        if position >= |text| || !IsDigit(text[position]) {
          return false;
        }
        SkipDigitRun();
      }
      ok := true;
    }

    /** A string, from after its opening quote. */
    method ParseText() returns (r: Option<string>)
      requires Valid()
      modifies this
      ensures Reads(r, StringBody(old(Rest())), old(position))
    {
      hide StringUnit;
      ghost var spec := StringBody(Rest());
      ghost var start := position;
      var result := "";
      PrefixedNothing(spec);
      while position < |text|
        invariant Valid() && start <= position
        invariant spec == Prefixed(result, StringBody(Rest()))
      {
        ghost var s := Rest();
        if text[position] == '"' {
          position := position + 1;
          assert result + "" == result;
          return Some(result);
        }
        var unit := ParseUnit();
        if unit.None? {
          return None;
        }
        PrefixedTwice(result, unit.value, StringBody(Rest()));
        result := result + unit.value;
      }
      r := None;
    }

    method ParseUnit() returns (r: Option<string>)
      requires Valid() && position < |text| && text[position] != '"'
      modifies this
      ensures Reads(r, StringUnit(old(Rest())), old(position))
    {
      hide UnicodeEscape, Utf8;
      ghost var s := Rest();
      var c := text[position];
      position := position + 1;
      if c < ' ' {
        return None;
      }
      if c != '\\' {
        return Some([c]);
      }
      if position >= |text| {
        return None;
      }
      var escaped := text[position];
      position := position + 1;
      assert Rest() == s[2..];
      if escaped == 'u' {
        var code := ReadUnicodeEscape();
        return if code.None? then None else Some(Utf8(code.value));
      }
      var simple := SimpleEscape(escaped);
      r := if simple.None? then None else Some([simple.value]);
    }

    method ReadHex4() returns (r: Option<nat>)
      requires Valid()
      modifies this
      ensures r == Hex4(old(Rest()))
      ensures r.Some? ==> position == old(position) + 4 && Valid()
    {
      if position + 4 > |text| {
        return None;
      }
      ghost var s := Rest();
      var code := 0;
      for index := 0 to 4
        invariant position == old(position) + index && Valid()
        invariant forall i :: 0 <= i < index ==> HexValue(s[i]) >= 0
        invariant index == 1 ==> code == HexValue(s[0])
        invariant index == 2 ==> code == 0x10 * HexValue(s[0]) + HexValue(s[1])
        invariant index == 3 ==> code == 0x100 * HexValue(s[0]) + 0x10 * HexValue(s[1]) + HexValue(s[2])
        invariant index == 4 ==>
          code == 0x1000 * HexValue(s[0]) + 0x100 * HexValue(s[1]) + 0x10 * HexValue(s[2]) + HexValue(s[3])
        invariant index == 0 ==> code == 0
        invariant 0 <= code
      {
        var digit := HexValue(text[position]);
        assert text[position] == s[index];
        position := position + 1;
        if digit < 0 {
          return None;
        }
        code := code * 16 + digit;
      }
      r := Some(code);
    }

    method ReadUnicodeEscape() returns (r: Option<nat>)
      requires Valid()
      modifies this
      ensures Reads(r, UnicodeEscape(old(Rest())), old(position))
      ensures r.Some? ==> r.value <= 0x10FFFF
    {
      hide Hex4;
      ghost var s := Rest();
      var first := ReadHex4();
      if first.None? {
        return None;
      }
      var code := first.value;
      ghost var rest := Rest();
      assert rest == s[4..];
      if IsHighSurrogate(code) && position + 1 < |text| && text[position] == '\\' && text[position + 1] == 'u' {
        var saved := position;
        position := position + 2;
        assert Rest() == rest[2..];
        var low := ReadHex4();
        if low.None? {
          return None;
        }
        if IsLowSurrogate(low.value) {
          assert Rest() == rest[6..];
          code := 0x10000 + (code - 0xD800) * 0x400 + (low.value - 0xDC00);
        } else {
          position := saved;
          code := 0xFFFD;
        }
      }
      if IsHighSurrogate(code) || IsLowSurrogate(code) {
        code := 0xFFFD;
      }
      r := Some(code);
    }

    method ParseArray() returns (r: Option<seq<Value>>)
      requires Valid()
      modifies this
      ensures Reads(r, ParseItems(old(Rest()), converts), old(position))
      decreases |text| - position, 3
    {
      hide ParseValue, SkipSpace;
      ghost var s := Rest();
      ghost var start := position;
      SkipWhitespace();
      ghost var t := Rest();
      var empty := Consume(']');
      if empty {
        return Some([]);
      }
      ItemsSkipSpace(s, converts);
      ghost var spec := ItemsFrom(t, converts);
      PrefixedNothing(spec);
      var values: seq<Value> := [];
      while true
        invariant Valid() && start <= position
        invariant spec == Prefixed(values, ItemsFrom(Rest(), converts))
        decreases |text| - position
      {
        var v := ParseOne();
        if v.None? {
          return None;
        }
        ghost var tail := Rest();
        SkipWhitespace();
        var closed := Consume(']');
        if closed {
          return Some(values + [v.value]);
        }
        var comma := Consume(',');
        if !comma {
          return None;
        }
        PrefixedTwice(values, [v.value], ItemsFrom(Rest(), converts));
        values := values + [v.value];
      }
    }

    method ParseKey() returns (r: Option<string>)
      requires Valid()
      modifies this
      ensures var t := SkipSpace(old(Rest()));
              if !StartsWith(t, '"') then r.None? else Reads(r, StringBody(t[1..]), old(position))
    {
      hide StringBody, SkipSpace;
      SkipWhitespace();
      var quoted := Consume('"');
      if !quoted {
        return None;
      }
      r := ParseText();
    }

    method ParsePair() returns (r: Option<(string, Value)>)
      requires Valid()
      modifies this
      ensures Reads(r, ParseMember(old(Rest()), converts), old(position))
      decreases |text| - position, 2
    {
      hide StringBody, SkipSpace, ParseValue;
      var key := ParseKey();
      if key.None? {
        return None;
      }
      SkipWhitespace();
      var colon := Consume(':');
      if !colon {
        return None;
      }
      var value := ParseOne();
      r := if value.None? then None else Some((key.value, value.value));
    }

    method ParseObject() returns (r: Option<Value>)
      requires Valid()
      modifies this
      ensures Reads(r, ObjectOf(ParseMembers(old(Rest()), converts)), old(position))
      decreases |text| - position, 4
    {
      hide ParseMember, SkipSpace, DistinctKeys, MapOf;
      ghost var s := Rest();
      ghost var start := position;
      SkipWhitespace();
      ghost var t := Rest();
      var empty := Consume('}');
      if empty {
        EmptyObject();
        return Some(Obj(map[]));
      }
      MembersSkipSpace(s, converts);
      ghost var spec := MembersFrom(t, converts);
      PrefixedNothing(spec);
      ghost var members: seq<(string, Value)> := [];
      var values: map<string, Value> := map[];
      EmptyObject();
      while true
        invariant Valid() && start <= position
        invariant spec == Prefixed(members, MembersFrom(Rest(), converts))
        invariant DistinctKeys(members) && values == MapOf(members)
        decreases |text| - position
      {
        var m := ParsePair();
        if m.None? {
          return None;
        }
        MapOfNext(members, m.value);
        if m.value.0 in values {
          DuplicateFails(members, m.value, MembersFrom(Rest(), converts));
          ghost var rest := SkipSpace(Rest());
          if StartsWith(rest, ',') {
            PrefixedTwice(members, [m.value], MembersFrom(rest[1..], converts));
            DuplicateFails(members, m.value, MembersFrom(rest[1..], converts));
          }
          return None;
        }
        values := values[m.value.0 := m.value.1];
        ghost var tail := Rest();
        SkipWhitespace();
        var closed := Consume('}');
        if closed {
          return Some(Obj(values));
        }
        var comma := Consume(',');
        if !comma {
          return None;
        }
        PrefixedTwice(members, [m.value], MembersFrom(Rest(), converts));
        members := members + [m.value];
      }
    }
  }

  // -- Accumulating loops -----------------------------------------------------------------

  function Prefixed<T>(prefix: seq<T>, r: Option<(seq<T>, string)>): Option<(seq<T>, string)> {
    if r.None? then None else Some((prefix + r.value.0, r.value.1))
  }

  lemma PrefixedNothing<T>(r: Option<(seq<T>, string)>)
    ensures Prefixed([], r) == r
  {
    if r.Some? {
      assert [] + r.value.0 == r.value.0;
    }
  }

  lemma PrefixedTwice<T>(a: seq<T>, b: seq<T>, r: Option<(seq<T>, string)>)
    ensures Prefixed(a, Prefixed(b, r)) == Prefixed(a + b, r)
  {
    if r.Some? {
      assert a + (b + r.value.0) == (a + b) + r.value.0;
    }
  }

  function ObjectOf(members: Option<(seq<(string, Value)>, string)>): Option<(Value, string)> {
    if members.None? || !DistinctKeys(members.value.0) then None
    else Some((Obj(MapOf(members.value.0)), members.value.1))
  }

  lemma ItemsSkipSpace(s: string, converts: Converts)
    ensures ItemsFrom(s, converts) == ItemsFrom(SkipSpace(s), converts)
  {
  }

  lemma MembersSkipSpace(s: string, converts: Converts)
    ensures MembersFrom(s, converts) == MembersFrom(SkipSpace(s), converts)
  {
  }

  lemma EmptyObject()
    ensures DistinctKeys([]) && MapOf([]) == map[]
  {
  }

  /** Adding a member to a map keeps it the map of the members, if its key is new. */
  lemma MapOfNext(members: seq<(string, Value)>, m: (string, Value))
    requires DistinctKeys(members)
    ensures m.0 in MapOf(members) <==> exists i :: 0 <= i < |members| && members[i].0 == m.0
    ensures m.0 !in MapOf(members) ==> DistinctKeys(members + [m])
    ensures MapOf(members + [m]) == MapOf(members)[m.0 := m.1]
  {
    MapOfKeys(members, m.0);
    assert (members + [m])[..|members|] == members;
  }

  lemma {:induction false} MapOfKeys(members: seq<(string, Value)>, key: string)
    ensures key in MapOf(members) <==> exists i :: 0 <= i < |members| && members[i].0 == key
  {
    if members != [] {
      var n := |members| - 1;
      MapOfKeys(members[..n], key);
      assert members == members[..n] + [members[n]];
    }
  }

  /** Once a key repeats, no continuation is an object. */
  lemma DuplicateFails(
    members: seq<(string, Value)>, m: (string, Value), rest: Option<(seq<(string, Value)>, string)>)
    requires exists i :: 0 <= i < |members| && members[i].0 == m.0
    ensures !DistinctKeys(members + [m])
    ensures ObjectOf(Prefixed(members + [m], rest)).None?
  {
    var i :| 0 <= i < |members| && members[i].0 == m.0;
    assert (members + [m])[i].0 == (members + [m])[|members|].0;
    if rest.Some? {
      var all := (members + [m]) + rest.value.0;
      assert all[i].0 == all[|members|].0;
    }
  }
}
