/** Locality of the parser: what follows a construct does not change how it reads. */
module JsonLocality {
  import opened Wrappers
  import opened Json

  function Trim(s: string, n: nat): string
    requires n <= |s|
  {
    s[..|s| - n]
  }

  lemma TrimDrop(s: string, n: nat, k: nat)
    requires k + n <= |s|
    ensures Trim(s, n)[k..] == Trim(s[k..], n)
  {
  }

  lemma {:induction false} TrimSpace(s: string, n: nat)
    requires n <= |SkipSpace(s)|
    ensures SkipSpace(Trim(s, n)) == Trim(SkipSpace(s), n)
    decreases |s|
  {
    if s != [] && IsSpace(s[0]) {
      TrimDrop(s, n, 1);
      TrimSpace(s[1..], n);
    }
  }

  lemma {:induction false} TrimDigits(s: string, n: nat)
    requires n <= |SkipDigits(s)|
    ensures SkipDigits(Trim(s, n)) == Trim(SkipDigits(s), n)
    decreases |s|
  {
    if s != [] && IsDigit(s[0]) {
      TrimDrop(s, n, 1);
      TrimDigits(s[1..], n);
    }
  }

  lemma TrimHex(s: string, n: nat)
    requires n + 4 <= |s|
    ensures Hex4(Trim(s, n)) == Hex4(s)
  {
  }

  /** `s` is inside a string whose closing quote comes before the last `n` characters. */
  ghost predicate ClosesBefore(s: string, n: nat) {
    StringBody(s).Some? && n <= |StringBody(s).value.1|
  }

  /** An escape inside a string is whole: its digits come before the closing quote. */
  lemma EscapeIsInside(s: string, n: nat)
    requires ClosesBefore(s, n) && 2 <= |s| && s[0] == '\\' && s[1] == 'u'
    ensures n + 6 < |s| && Hex4(s[2..]).Some?
  {
  }

  lemma TrimUnicode(s: string, n: nat)
    requires UnicodeEscape(s).Some? && ClosesBefore(UnicodeEscape(s).value.1, n)
    ensures var (code, rest) := UnicodeEscape(s).value;
            n < |rest| && UnicodeEscape(Trim(s, n)) == Some((code, Trim(rest, n)))
  {
    hide Hex4, StringBody;
    CloseIsInside(UnicodeEscape(s).value.1, n);
    TrimHex(s, n);
    var rest := s[4..];
    TrimDrop(s, n, 4);
    if 2 <= |rest| && rest[0] == '\\' && rest[1] == 'u' {
      if UnicodeEscape(s).value.1 == rest {
        EscapeIsInside(rest, n);
      }
      TrimDrop(rest, n, 2);
      TrimHex(rest[2..], n);
      TrimDrop(rest, n, 6);
    }
  }

  lemma CloseIsInside(s: string, n: nat)
    requires ClosesBefore(s, n)
    ensures n < |s|
  {
  }

  lemma TrimUnit(s: string, n: nat)
    requires s != [] && s[0] != '"' && StringUnit(s).Some? && ClosesBefore(StringUnit(s).value.1, n)
    ensures var (chunk, rest) := StringUnit(s).value;
            && n < |rest| && Trim(s, n)[0] == s[0]
            && StringUnit(Trim(s, n)) == Some((chunk, Trim(rest, n)))
  {
    hide StringBody, UnicodeEscape;
    CloseIsInside(StringUnit(s).value.1, n);
    TrimDrop(s, n, 1);
    TrimDrop(s, n, 2);
    if s[0] == '\\' && s[1] == 'u' {
      TrimUnicode(s[2..], n);
    }
  }

  lemma {:induction false} TrimBody(s: string, n: nat)
    requires ClosesBefore(s, n)
    ensures n <= |s| && StringBody(Trim(s, n)) == Some((StringBody(s).value.0, Trim(StringBody(s).value.1, n)))
    decreases |s|
  {
    hide StringUnit;
    if s[0] == '"' {
      TrimDrop(s, n, 1);
    } else {
      TrimUnit(s, n);
      TrimBody(StringUnit(s).value.1, n);
    }
  }

  lemma TrimFraction(s: string, n: nat)
    requires FractionTail(s).Some? && n <= |FractionTail(s).value|
    ensures FractionTail(Trim(s, n)) == Some(Trim(FractionTail(s).value, n))
  {
    if StartsWith(s, '.') {
      TrimDrop(s, n, 1);
      TrimDigits(s[1..], n);
      assert SkipDigits(s[1..]) == SkipDigits(s[1..][1..]);
    }
  }

  lemma TrimExponent(s: string, n: nat)
    requires ExponentTail(s).Some? && n <= |ExponentTail(s).value|
    ensures ExponentTail(Trim(s, n)) == Some(Trim(ExponentTail(s).value, n))
  {
    if StartsWith(s, 'e') || StartsWith(s, 'E') {
      var signed := if 2 <= |s| && (s[1] == '+' || s[1] == '-') then s[2..] else s[1..];
      assert SkipDigits(signed) == SkipDigits(signed[1..]);
      TrimDrop(s, n, 1);
      if 2 <= |s| && (s[1] == '+' || s[1] == '-') {
        TrimDrop(s, n, 2);
      }
      TrimDigits(signed, n);
    }
  }

  lemma TrimNumber(s: string, n: nat)
    requires NumberTail(s).Some? && n <= |NumberTail(s).value|
    ensures NumberTail(Trim(s, n)) == Some(Trim(NumberTail(s).value, n))
    ensures Before(Trim(s, n), Trim(NumberTail(s).value, n)) == Before(s, NumberTail(s).value)
  {
    hide FractionTail, ExponentTail, SkipDigits;
    var unsigned := if StartsWith(s, '-') then s[1..] else s;
    var fraction := if unsigned[0] == '0' then unsigned[1..] else SkipDigits(unsigned[1..]);
    TrimDrop(s, n, 1);
    TrimDrop(unsigned, n, 1);
    if unsigned[0] != '0' {
      TrimDigits(unsigned[1..], n);
    }
    TrimFraction(fraction, n);
    TrimExponent(FractionTail(fraction).value, n);
  }

  lemma TrimLiteral(s: string, literal: string, v: Value, n: nat)
    requires literal <= s && n + |literal| <= |s|
    ensures ParseLiteral(Trim(s, n), literal, v) == Some((v, Trim(s[|literal|..], n)))
  {
    TrimDrop(s, n, |literal|);
  }

  /** Cutting off what follows a value does not change how it reads. */
  lemma {:induction false} TrimToken(s: string, n: nat, converts: Converts)
    requires ParseToken(s, converts).Some? && n <= |ParseToken(s, converts).value.1|
    ensures var (v, rest) := ParseToken(s, converts).value;
            ParseToken(Trim(s, n), converts) == Some((v, Trim(rest, n)))
    decreases |s|, 0
  {
    hide StringBody, NumberTail, ParseItems, ParseMembers, DistinctKeys, MapOf;
    TrimDrop(s, n, 1);
    assert Trim(s, n)[0] == s[0];
    match s[0]
    case 'n' => TrimLiteral(s, "null", Null, n);
    case 't' => TrimLiteral(s, "true", Bool(true), n);
    case 'f' => TrimLiteral(s, "false", Bool(false), n);
    case '"' => TrimBody(s[1..], n);
    case '[' => TrimItems(s[1..], n, converts);
    case '{' => TrimMembers(s[1..], n, converts);
    case _ => TrimNumber(s, n);
  }

  lemma {:induction false} TrimValue(s: string, n: nat, converts: Converts)
    requires ParseValue(s, converts).Some? && n <= |ParseValue(s, converts).value.1|
    ensures var (v, rest) := ParseValue(s, converts).value;
            ParseValue(Trim(s, n), converts) == Some((v, Trim(rest, n)))
    decreases |s|, 1
  {
    hide ParseToken;
    TrimSpace(s, n);
    TrimToken(SkipSpace(s), n, converts);
  }

  lemma {:induction false} TrimItems(s: string, n: nat, converts: Converts)
    requires ParseItems(s, converts).Some? && n <= |ParseItems(s, converts).value.1|
    ensures var (vs, rest) := ParseItems(s, converts).value;
            ParseItems(Trim(s, n), converts) == Some((vs, Trim(rest, n)))
    decreases |s|, 3
  {
    hide ItemsFrom, SkipSpace;
    var t := SkipSpace(s);
    if StartsWith(t, ']') {
      TrimSpace(s, n);
      TrimDrop(t, n, 1);
    } else {
      TrimItemsFrom(s, n, converts);
      ItemsStart(s, converts);
      TrimSpace(s, n);
    }
  }

  /** Items begin with a value, so the text has a non-space character before the rest. */
  lemma ItemsStart(s: string, converts: Converts)
    requires ItemsFrom(s, converts).Some?
    ensures |ItemsFrom(s, converts).value.1| < |SkipSpace(s)|
  {
    hide ParseToken;
    var first := ParseValue(s, converts);
    var t := SkipSpace(first.value.1);
  }

  lemma {:induction false} TrimItemsFrom(s: string, n: nat, converts: Converts)
    requires ItemsFrom(s, converts).Some? && n <= |ItemsFrom(s, converts).value.1|
    ensures var (vs, rest) := ItemsFrom(s, converts).value;
            ItemsFrom(Trim(s, n), converts) == Some((vs, Trim(rest, n)))
    decreases |s|, 2
  {
    hide ParseValue, SkipSpace;
    var first := ParseValue(s, converts);
    var t := SkipSpace(first.value.1);
    TrimValue(s, n, converts);
    TrimSpace(first.value.1, n);
    TrimDrop(t, n, 1);
    if StartsWith(t, ',') {
      TrimItemsFrom(t[1..], n, converts);
    }
  }

  lemma {:induction false} TrimMembers(s: string, n: nat, converts: Converts)
    requires ParseMembers(s, converts).Some? && n <= |ParseMembers(s, converts).value.1|
    ensures var (ms, rest) := ParseMembers(s, converts).value;
            ParseMembers(Trim(s, n), converts) == Some((ms, Trim(rest, n)))
    decreases |s|, 4
  {
    hide MembersFrom, SkipSpace;
    var t := SkipSpace(s);
    if StartsWith(t, '}') {
      TrimSpace(s, n);
      TrimDrop(t, n, 1);
    } else {
      TrimMembersFrom(s, n, converts);
      MembersStart(s, converts);
      TrimSpace(s, n);
    }
  }

  lemma MembersStart(s: string, converts: Converts)
    requires MembersFrom(s, converts).Some?
    ensures StartsWith(SkipSpace(s), '"') && |MembersFrom(s, converts).value.1| < |SkipSpace(s)|
  {
    hide ParseValue, StringBody;
    var first := ParseMember(s, converts);
    var t := SkipSpace(first.value.1);
  }

  lemma {:induction false} TrimMember(s: string, n: nat, converts: Converts)
    requires ParseMember(s, converts).Some? && n <= |ParseMember(s, converts).value.1|
    ensures var (m, rest) := ParseMember(s, converts).value;
            ParseMember(Trim(s, n), converts) == Some((m, Trim(rest, n)))
    decreases |s|, 2
  {
    hide ParseValue, StringBody, SkipSpace;
    var t := SkipSpace(s);
    var key := StringBody(t[1..]);
    var colon := SkipSpace(key.value.1);
    TrimSpace(s, n);
    TrimDrop(t, n, 1);
    TrimBody(t[1..], n);
    TrimSpace(key.value.1, n);
    TrimDrop(colon, n, 1);
    TrimValue(colon[1..], n, converts);
  }

  lemma {:induction false} TrimMembersFrom(s: string, n: nat, converts: Converts)
    requires MembersFrom(s, converts).Some? && n <= |MembersFrom(s, converts).value.1|
    ensures var (ms, rest) := MembersFrom(s, converts).value;
            MembersFrom(Trim(s, n), converts) == Some((ms, Trim(rest, n)))
    decreases |s|, 3
  {
    hide ParseMember, SkipSpace;
    var first := ParseMember(s, converts);
    var t := SkipSpace(first.value.1);
    TrimMember(s, n, converts);
    TrimSpace(first.value.1, n);
    TrimDrop(t, n, 1);
    if StartsWith(t, ',') {
      TrimMembersFrom(t[1..], n, converts);
    }
  }
}
