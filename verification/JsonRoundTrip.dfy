/** The text the writer emits for a tree of values, and the parser reading it back. */
module JsonRoundTrip {
  import opened Wrappers
  import opened Json

  type Int64 = n: int | -0x8000_0000_0000_0000 <= n < 0x8000_0000_0000_0000

  /** What a caller writes: containers in order, integers, strings of any bytes. */
  datatype Tree =
    | TNull
    | TBool(flag: bool)
    | TInt(n: Int64)
    | TStr(text: string)
    | TArr(items: seq<Tree>)
    | TObj(members: seq<(string, Tree)>)

  // -- Text of scalars --------------------------------------------------------------------

  function HexDigit(d: nat): char
    requires d < 16
  {
    if d < 10 then ('0' as int + d) as char else ('a' as int + d - 10) as char
  }

  function EscapeChar(c: char): string {
    if c == '"' then "\\\""
    else if c == '\\' then "\\\\"
    else if c == '\n' then "\\n"
    else if c == '\r' then "\\r"
    else if c == '\t' then "\\t"
    else if c == 8 as char then "\\b"
    else if c == 12 as char then "\\f"
    else if c < ' ' then "\\u00" + [HexDigit(c as int / 16), HexDigit(c as int % 16)]
    else [c]
  }

  function Escape(s: string): string {
    if s == [] then "" else EscapeChar(s[0]) + Escape(s[1..])
  }

  function DigitsOf(n: nat): string {
    if n < 10 then [('0' as int + n) as char]
    else DigitsOf(n / 10) + [('0' as int + n % 10) as char]
  }

  /** `std::to_string` of a signed integer. */
  function IntText(n: int): string {
    if n < 0 then "-" + DigitsOf(-n) else DigitsOf(n)
  }

  function Quoted(s: string): string {
    "\"" + Escape(s) + "\""
  }

  // -- Text of trees ------------------------------------------------------------------------

  function Emit(t: Tree): string
    decreases t, 1
  {
    match t
    case TNull => "null"
    case TBool(b) => if b then "true" else "false"
    case TInt(n) => IntText(n)
    case TStr(s) => Quoted(s)
    case TArr(items) => "[" + EmitItems(items) + "]"
    case TObj(members) => "{" + EmitMembers(members) + "}"
  }

  function EmitItems(items: seq<Tree>): string
    decreases items, 0
  {
    if items == [] then ""
    else if |items| == 1 then Emit(items[0])
    else Emit(items[0]) + ("," + EmitItems(items[1..]))
  }

  function EmitMember(m: (string, Tree)): string
    decreases m, 2
  {
    Quoted(m.0) + (":" + Emit(m.1))
  }

  function EmitMembers(members: seq<(string, Tree)>): string
    decreases members, 0
  {
    if members == [] then ""
    else if |members| == 1 then EmitMember(members[0])
    else EmitMember(members[0]) + ("," + EmitMembers(members[1..]))
  }

  // -- Meaning of trees ---------------------------------------------------------------------

  /** The value a tree stands for; object members become a map. */
  function Meaning(t: Tree): Value
    decreases t, 1
  {
    match t
    case TNull => Null
    case TBool(b) => Bool(b)
    case TInt(n) => Number(IntText(n))
    case TStr(s) => Str(s)
    case TArr(items) => Arr(Meanings(items))
    case TObj(members) => Obj(MapOf(MemberMeanings(members)))
  }

  function Meanings(items: seq<Tree>): (vs: seq<Value>)
    decreases items, 0
  {
    if items == [] then [] else [Meaning(items[0])] + Meanings(items[1..])
  }

  function MemberMeanings(members: seq<(string, Tree)>): (ms: seq<(string, Value)>)
    decreases members, 0
  {
    if members == [] then [] else [MemberMeaning(members[0])] + MemberMeanings(members[1..])
  }

  function MemberMeaning(m: (string, Tree)): (string, Value)
    decreases m, 2
  {
    (m.0, Meaning(m.1))
  }

  /** Objects name each member once, at every level. */
  predicate Distinct(t: Tree)
    decreases t, 1
  {
    match t
    case TArr(items) => forall i :: 0 <= i < |items| ==> Distinct(items[i])
    case TObj(members) =>
      && (forall i, j :: 0 <= i < j < |members| ==> members[i].0 != members[j].0)
      && forall i :: 0 <= i < |members| ==> Distinct(members[i].1)
    case _ => true
  }

  // -- Reading values -------------------------------------------------------------------------

  /** A digit string by Horner's rule. */
  function NatOf(digits: string): Option<nat> {
    if digits == "" then None
    else if |digits| == 1 then DigitOf(digits[0])
    else
      var (front, last) := (NatOf(digits[..|digits| - 1]), DigitOf(digits[|digits| - 1]));
      if front.None? || last.None? then None else Some(10 * front.value + last.value)
  }

  function DigitOf(c: char): Option<nat> {
    match c
    case '0' => Some(0) case '1' => Some(1) case '2' => Some(2) case '3' => Some(3) case '4' => Some(4)
    case '5' => Some(5) case '6' => Some(6) case '7' => Some(7) case '8' => Some(8) case '9' => Some(9)
    case _ => None
  }

  /** The integer a lexeme stands for, if it stands for one. */
  function IntOf(lexeme: string): Option<int> {
    if lexeme != "" && lexeme[0] == '-' then
      var n := NatOf(lexeme[1..]);
      if n.None? then None else Some(-(n.value as int))
    else
      var n := NatOf(lexeme);
      if n.None? then None else Some(n.value as int)
  }

  /** A parsed value is the tree a caller wrote: scalars by what they stand for, elements in
      order, members by name. */
  ghost predicate Denotes(v: Value, t: Tree)
    decreases t
  {
    match t
    case TNull => v.Null?
    case TBool(b) => v == Bool(b)
    case TInt(n) => v.Number? && IntOf(v.lexeme) == Some(n)
    case TStr(s) => v == Str(s)
    case TArr(items) =>
      && v.Arr? && |v.items| == |items|
      && forall i :: 0 <= i < |items| ==> Denotes(v.items[i], items[i])
    case TObj(members) =>
      && v.Obj? && (forall k :: k in v.members ==> exists i :: 0 <= i < |members| && members[i].0 == k)
      && forall i :: 0 <= i < |members| ==> members[i].0 in v.members && Denotes(v.members[members[i].0], members[i].1)
  }

  lemma {:induction false} DigitsRead(n: nat)
    ensures DigitsOf(n) != "" && NatOf(DigitsOf(n)) == Some(n)
    ensures forall i :: 0 <= i < |DigitsOf(n)| ==> IsDigit(DigitsOf(n)[i])
  {
    var last := ('0' as int + n % 10) as char;
    assert DigitOf(last) == Some(n % 10) && IsDigit(last);
    if 10 <= n {
      var front := DigitsOf(n / 10);
      DigitsRead(n / 10);
      assert (front + [last])[..|front|] == front;
    }
  }

  /** Every integer is what its printed text stands for. */
  lemma IntRead(n: int)
    ensures IntOf(IntText(n)) == Some(n)
  {
    hide NatOf, DigitsOf;
    DigitsRead(if n < 0 then -n else n);
    if n < 0 {
      assert IntText(n)[1..] == DigitsOf(-n);
    } else {
      assert IsDigit(DigitsOf(n)[0]);
    }
  }

  lemma {:induction false} MeaningsSize(items: seq<Tree>, i: nat)
    requires i < |items|
    ensures |Meanings(items)| == |items| && Meanings(items)[i] == Meaning(items[i])
  {
    if |items| > 1 { MeaningsSize(items[1..], if i > 0 then i - 1 else 0); }
  }

  lemma {:induction false} MembersSize(members: seq<(string, Tree)>, i: nat)
    requires i < |members|
    ensures |MemberMeanings(members)| == |members|
    ensures MemberMeanings(members)[i] == (members[i].0, Meaning(members[i].1))
  {
    if |members| > 1 { MembersSize(members[1..], if i > 0 then i - 1 else 0); }
  }

  lemma {:induction false} MapLooksUp(list: seq<(string, Value)>, i: nat)
    requires DistinctKeys(list) && i < |list|
    ensures list[i].0 in MapOf(list) && MapOf(list)[list[i].0] == list[i].1
  {
    var n := |list| - 1;
    if i < n { MapLooksUp(list[..n], i); }
  }

  lemma {:induction false} MapKeysListed(list: seq<(string, Value)>, k: string)
    requires k in MapOf(list)
    ensures exists i :: 0 <= i < |list| && list[i].0 == k
  {
    var n := |list| - 1;
    if list[n].0 != k {
      MapKeysListed(list[..n], k);
      var i :| 0 <= i < |list[..n]| && list[..n][i].0 == k;
      assert list[i].0 == k;
    }
  }

  lemma {:induction false} MeaningDenotes(t: Tree)
    requires Distinct(t)
    ensures Denotes(Meaning(t), t)
    decreases t
  {
    hide IntOf, IntText, Meanings, MemberMeanings, MapOf;
    match t
    case TInt(n) => IntRead(n);
    case TArr(items) =>
      if items == [] { NoMeanings(); } else { MeaningsSize(items, 0); }
      forall i | 0 <= i < |items| ensures Denotes(Meanings(items)[i], items[i]) {
        MeaningsSize(items, i);
        MeaningDenotes(items[i]);
      }
    case TObj(members) => ObjectDenotes(members);
    case _ =>
  }

  lemma NoMeanings()
    ensures Meanings([]) == [] && MemberMeanings([]) == []
  {
  }

  lemma {:induction false} ObjectDenotes(members: seq<(string, Tree)>)
    requires Distinct(TObj(members))
    ensures Denotes(Obj(MapOf(MemberMeanings(members))), TObj(members))
    decreases members
  {
    hide IntOf, IntText, Meaning, Meanings, MemberMeanings, MapOf;
    var list := MemberMeanings(members);
    if members == [] { NoMeanings(); } else { MembersSize(members, 0); }
    forall i | 0 <= i < |members| ensures list[i] == (members[i].0, Meaning(members[i].1)) { MembersSize(members, i); }
    assert DistinctKeys(list);
    forall i | 0 <= i < |members|
      ensures members[i].0 in MapOf(list) && Denotes(MapOf(list)[members[i].0], members[i].1)
    {
      MapLooksUp(list, i);
      MeaningDenotes(members[i].1);
    }
    forall k | k in MapOf(list) ensures exists i :: 0 <= i < |members| && members[i].0 == k {
      MapKeysListed(list, k);
      var i :| 0 <= i < |list| && list[i].0 == k;
      assert members[i].0 == k;
    }
  }

  // -- Reading scalars back -------------------------------------------------------------------

  lemma HexBack(d: nat)
    requires d < 16
    ensures HexValue(HexDigit(d)) == d
  {
  }

  lemma CharBack(c: char, z: string)
    ensures var e := EscapeChar(c) + z;
            e[0] != '"' && StringUnit(e) == Some(([c], z))
  {
    var e := EscapeChar(c) + z;
    if c < ' ' && EscapeChar(c)[1] == 'u' {
      var (hi, lo) := (c as int / 16, c as int % 16);
      HexBack(hi);
      HexBack(lo);
      assert e[2..] == ['0', '0', HexDigit(hi), HexDigit(lo)] + z;
      assert e[2..][4..] == z;
      assert Hex4(e[2..]) == Some(c as int);
      assert Utf8(c as int) == [c];
    } else if |EscapeChar(c)| == 2 {
      assert e[2..] == z;
    } else {
      assert e[1..] == z;
    }
  }

  lemma {:induction false} StringBack(s: string, z: string)
    ensures StringBody(Escape(s) + ("\"" + z)) == Some((s, z))
  {
    hide StringUnit, EscapeChar;
    if s == [] {
      assert Escape(s) + ("\"" + z) == "\"" + z;
    } else {
      var tail := Escape(s[1..]) + ("\"" + z);
      StringBack(s[1..], z);
      assert Escape(s) + ("\"" + z) == EscapeChar(s[0]) + tail;
      CharBack(s[0], tail);
      assert [s[0]] + s[1..] == s;
    }
  }

  /** A text that cannot continue a number. */
  predicate StopsNumber(z: string) {
    z == [] || z[0] == ',' || z[0] == ']' || z[0] == '}'
  }

  lemma {:induction false} DigitsBack(n: nat, z: string)
    requires z == [] || !IsDigit(z[0])
    ensures SkipDigits(DigitsOf(n) + z) == z
    ensures |DigitsOf(n)| > 0 && IsDigit(DigitsOf(n)[0]) && (DigitsOf(n)[0] == '0' ==> n == 0)
  {
    if n < 10 {
      assert (DigitsOf(n) + z)[1..] == z;
    } else {
      DigitsLead(n / 10);
      DigitsRun(n, z);
    }
  }

  lemma {:induction false} DigitsLead(n: nat)
    ensures |DigitsOf(n)| > 0 && IsDigit(DigitsOf(n)[0]) && (DigitsOf(n)[0] == '0' ==> n == 0)
  {
    if 10 <= n {
      DigitsLead(n / 10);
    }
  }

  /** A run of digits is skipped whole, whatever follows it. */
  lemma {:induction false} DigitsRun(n: nat, z: string)
    ensures SkipDigits(DigitsOf(n) + z) == SkipDigits(z)
  {
    if n < 10 {
      assert (DigitsOf(n) + z)[1..] == z;
    } else {
      var last := [('0' as int + n % 10) as char];
      assert DigitsOf(n) + z == DigitsOf(n / 10) + (last + z);
      DigitsRun(n / 10, last + z);
      assert (last + z)[1..] == z;
    }
  }

  lemma NaturalBack(n: nat, z: string)
    requires StopsNumber(z)
    ensures var s := DigitsOf(n) + z;
            s != [] && IsDigit(s[0]) && (if s[0] == '0' then s[1..] == z else SkipDigits(s[1..]) == z)
  {
    DigitsBack(n, z);
    var s := DigitsOf(n) + z;
    assert SkipDigits(s) == SkipDigits(s[1..]);
  }

  lemma IntBack(n: int, z: string)
    requires StopsNumber(z)
    ensures NumberTail(IntText(n) + z) == Some(z)
    ensures Before(IntText(n) + z, z) == IntText(n)
    ensures IntText(n) != [] && (IsDigit(IntText(n)[0]) || IntText(n)[0] == '-')
  {
    hide SkipDigits, DigitsOf, NumberTail;
    var magnitude := DigitsOf(if n < 0 then -n else n) + z;
    NaturalBack(if n < 0 then -n else n, z);
    NumberEnds(magnitude, z);
    assert IntText(n) + z == if n < 0 then "-" + magnitude else magnitude;
    assert (IntText(n) + z)[..|IntText(n)|] == IntText(n);
  }

  lemma NumberEnds(s: string, z: string)
    requires s != [] && IsDigit(s[0]) && StopsNumber(z)
    requires if s[0] == '0' then s[1..] == z else SkipDigits(s[1..]) == z
    ensures NumberTail(s) == NumberTail("-" + s) == Some(z)
  {
    hide SkipDigits;
    assert ("-" + s)[1..] == s;
  }

  // -- Reading trees back -----------------------------------------------------------------------

  ghost predicate AcceptsIntegers(converts: Converts) {
    forall lexeme: string | IntOf(lexeme).Some? && InRange(IntOf(lexeme).value) :: converts(lexeme)
  }

  predicate InRange(n: int) {
    -0x8000_0000_0000_0000 <= n < 0x8000_0000_0000_0000
  }

  lemma EmitStart(t: Tree)
    ensures Emit(t) != [] && !IsSpace(Emit(t)[0]) && Emit(t)[0] != ']'
  {
    if t.TInt? {
      IntBack(t.n, "");
      assert IntText(t.n) + "" == IntText(t.n);
    }
  }

  lemma {:induction false} LiteralBack(literal: string, v: Value, z: string)
    ensures ParseLiteral(literal + z, literal, v) == Some((v, z))
  {
    assert (literal + z)[|literal|..] == z;
  }

  lemma {:induction false} TokenBack(t: Tree, z: string, converts: Converts)
    requires Distinct(t) && StopsNumber(z) && AcceptsIntegers(converts)
    ensures ParseToken(Emit(t) + z, converts) == Some((Meaning(t), z))
    decreases t, 1
  {
    hide StringBody, ParseItems, ParseMembers, NumberTail, DistinctKeys, MapOf, IntText, IntOf, ParseLiteral;
    hide EmitItems, EmitMembers, Meanings, MemberMeanings, Escape;
    var s := Emit(t) + z;
    match t
    case TNull => LiteralBack("null", Null, z);
    case TBool(b) => LiteralBack(if b then "true" else "false", Bool(b), z);
    case TInt(n) =>
      IntBack(n, z);
      IntRead(n);
      assert converts(IntText(n));
    case TStr(text) =>
      StringBack(text, z);
      assert s[1..] == Escape(text) + ("\"" + z);
    case TArr(items) =>
      ItemsBack(items, z, converts);
      assert s[1..] == EmitItems(items) + ("]" + z);
    case TObj(members) =>
      MembersBack(members, z, converts);
      assert s[1..] == EmitMembers(members) + ("}" + z);
      KeysKept(members);
  }

  lemma ValueBack(t: Tree, z: string, converts: Converts)
    requires ParseToken(Emit(t) + z, converts) == Some((Meaning(t), z))
    ensures ParseValue(Emit(t) + z, converts) == Some((Meaning(t), z))
    ensures SkipSpace(Emit(t) + z) == Emit(t) + z
  {
    hide ParseToken, Emit;
    EmitStart(t);
    assert (Emit(t) + z)[0] == Emit(t)[0];
  }

  lemma {:induction false} ItemsBack(items: seq<Tree>, z: string, converts: Converts)
    requires (forall i :: 0 <= i < |items| ==> Distinct(items[i])) && AcceptsIntegers(converts)
    ensures ParseItems(EmitItems(items) + ("]" + z), converts) == Some((Meanings(items), z))
    decreases items, 1
  {
    hide ItemsFrom, Emit;
    var s := EmitItems(items) + ("]" + z);
    if items == [] {
      assert s == "]" + z;
      assert s[0] == ']' && s[1..] == z;
      assert SkipSpace(s) == s;
    } else {
      ItemsFromBack(items, z, converts);
      var first := Emit(items[0]);
      EmitStart(items[0]);
      assert s[0] == first[0];
    }
  }

  lemma {:induction false} ItemsFromBack(items: seq<Tree>, z: string, converts: Converts)
    requires items != [] && AcceptsIntegers(converts)
    requires forall i :: 0 <= i < |items| ==> Distinct(items[i])
    ensures ItemsFrom(EmitItems(items) + ("]" + z), converts) == Some((Meanings(items), z))
    decreases items, 0
  {
    hide ParseValue, Emit, Meaning, AcceptsIntegers;
    var t := items[0];
    var rest := if |items| == 1 then "]" + z else "," + (EmitItems(items[1..]) + ("]" + z));
    assert EmitItems(items) + ("]" + z) == Emit(t) + rest;
    TokenBack(t, rest, converts);
    ValueBack(t, rest, converts);
    assert SkipSpace(rest) == rest;
    if |items| == 1 {
      assert rest[1..] == z;
      assert Meanings(items) == [Meaning(t)];
    } else {
      assert rest[1..] == EmitItems(items[1..]) + ("]" + z);
      ItemsFromBack(items[1..], z, converts);
    }
  }

  lemma {:induction false} MembersBack(members: seq<(string, Tree)>, z: string, converts: Converts)
    requires (forall i :: 0 <= i < |members| ==> Distinct(members[i].1)) && AcceptsIntegers(converts)
    ensures ParseMembers(EmitMembers(members) + ("}" + z), converts) == Some((MemberMeanings(members), z))
    decreases members, 1
  {
    hide MembersFrom;
    var s := EmitMembers(members) + ("}" + z);
    if members == [] {
      assert s == "}" + z && SkipSpace(s) == s && s[1..] == z;
    } else {
      MembersFromBack(members, z, converts);
      assert s[0] == '"';
    }
  }

  lemma {:induction false} MemberBack(m: (string, Tree), z: string, converts: Converts)
    requires Distinct(m.1) && StopsNumber(z) && AcceptsIntegers(converts)
    ensures ParseMember(EmitMember(m) + z, converts) == Some((MemberMeaning(m), z))
    decreases m, 2
  {
    hide ParseValue, Emit, Meaning, StringBody, Distinct, AcceptsIntegers;
    var colon := ":" + (Emit(m.1) + z);
    var s := EmitMember(m) + z;
    assert s[0] == '"' && s[1..] == Escape(m.0) + ("\"" + colon);
    StringBack(m.0, colon);
    assert colon[1..] == Emit(m.1) + z;
    TokenBack(m.1, z, converts);
    ValueBack(m.1, z, converts);
  }

  lemma {:induction false} MembersFromBack(members: seq<(string, Tree)>, z: string, converts: Converts)
    requires members != [] && AcceptsIntegers(converts)
    requires forall i :: 0 <= i < |members| ==> Distinct(members[i].1)
    ensures MembersFrom(EmitMembers(members) + ("}" + z), converts) == Some((MemberMeanings(members), z))
    decreases members, 0
  {
    hide ParseMember, EmitMember, MemberMeaning, AcceptsIntegers;
    var m := members[0];
    var rest := if |members| == 1 then "}" + z else "," + (EmitMembers(members[1..]) + ("}" + z));
    assert EmitMembers(members) + ("}" + z) == EmitMember(m) + rest;
    MemberBack(m, rest, converts);
    assert SkipSpace(rest) == rest;
    if |members| == 1 {
      assert rest[1..] == z;
      assert MemberMeanings(members) == [MemberMeaning(m)];
    } else {
      assert rest[1..] == EmitMembers(members[1..]) + ("}" + z);
      MembersFromBack(members[1..], z, converts);
    }
  }

  lemma {:induction false} MeaningsKeys(members: seq<(string, Tree)>)
    ensures |MemberMeanings(members)| == |members|
    ensures forall i :: 0 <= i < |members| ==> MemberMeanings(members)[i].0 == members[i].0
  {
    if members != [] {
      MeaningsKeys(members[1..]);
    }
  }

  lemma KeysKept(members: seq<(string, Tree)>)
    requires forall i, j :: 0 <= i < j < |members| ==> members[i].0 != members[j].0
    ensures DistinctKeys(MemberMeanings(members))
  {
    MeaningsKeys(members);
  }

  /** The printer is undone by the parser: every tree of objects with distinct keys, arrays,
      strings of any bytes, 64-bit integers, booleans and null. */
  lemma RoundTrip(t: Tree, converts: Converts)
    requires Distinct(t) && AcceptsIntegers(converts)
    ensures ParseDocument(Emit(t), converts) == Some(Meaning(t))
    ensures Denotes(ParseDocument(Emit(t), converts).value, t)
  {
    hide ParseToken, Emit, Meaning, Distinct, Denotes;
    MeaningDenotes(t);
    TokenBack(t, "", converts);
    ValueBack(t, "", converts);
    assert Emit(t) + "" == Emit(t);
  }
}
