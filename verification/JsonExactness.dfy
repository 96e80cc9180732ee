/** Exactly which bodies the span scanner and the parser agree on, key by key: those none of
    whose top-level keys escapes a surrogate. */
module JsonExactness {
  import opened Wrappers
  import opened Json
  import opened JsonLocality
  import opened JsonSpan
  import opened JsonAgreement

  // -- Shortlex order ---------------------------------------------------------------------------

  predicate LexLess(a: string, b: string)
    requires |a| == |b|
  {
    a != [] && (a[0] < b[0] || (a[0] == b[0] && LexLess(a[1..], b[1..])))
  }

  predicate Below(a: string, b: string) {
    |a| < |b| || (|a| == |b| && LexLess(a, b))
  }

  lemma {:induction false} LexTotal(a: string, b: string)
    requires |a| == |b|
    ensures a == b || LexLess(a, b) || LexLess(b, a)
    ensures !(LexLess(a, b) && LexLess(b, a)) && !LexLess(a, a)
  {
    if a != [] {
      LexTotal(a[1..], b[1..]);
      LexTotal(a[1..], a[1..]);
      assert a == [a[0]] + a[1..] && b == [b[0]] + b[1..];
    }
  }

  lemma {:induction false} LexTransitive(a: string, b: string, c: string)
    requires |a| == |b| == |c| && LexLess(a, b) && LexLess(b, c)
    ensures LexLess(a, c)
  {
    if a[0] == b[0] == c[0] { LexTransitive(a[1..], b[1..], c[1..]); }
  }

  lemma BelowTotal(a: string, b: string)
    ensures a == b || Below(a, b) || Below(b, a)
    ensures !(a == b && Below(a, b))
  {
    if |a| == |b| { LexTotal(a, b); }
  }

  lemma BelowTransitive(a: string, b: string, c: string)
    requires Below(a, b) && Below(b, c)
    ensures Below(a, c)
  {
    if |a| == |b| == |c| { LexTransitive(a, b, c); }
  }

  lemma {:induction false} BelowAfter(p: string, a: string, b: string)
    requires Below(a, b)
    ensures Below(p + a, p + b)
  {
    if |a| == |b| {
      if p == [] {
        assert p + a == a && p + b == b;
      } else {
        BelowAfter(p[1..], a, b);
        assert (p + a)[1..] == p[1..] + a && (p + b)[1..] == p[1..] + b;
      }
    }
  }

  lemma BelowAtOnce(u: string, c: string, a: string, b: string)
    requires Precedes(u, c) && |a| <= |b|
    ensures Below(u + a, c + b)
  {
  }

  // -- One key ----------------------------------------------------------------------------------

  /** The scanner reads a key literal as the parser does, or strictly below it. */
  lemma {:induction false} DecodeBelow(s: string)
    requires StringBody(s).Some?
    ensures var (strict, loose) := (StringBody(s).value.0, LooseDecode(Trim(s, |StringBody(s).value.1| + 1)));
            if SurrogateFree(s) then strict == loose else Below(loose, strict)
    decreases |s|
  {
    hide StringUnit, LooseUnit, SurrogateUnit, Below, Precedes;
    var n := |StringBody(s).value.1| + 1;
    DecodeExactIff(s);
    if s[0] != '"' {
      var (chunk, rest) := StringUnit(s).value;
      UnitSame(s, n);
      UnitExact(s, n);
      DecodeBelow(rest);
      DecodeExactIff(rest);
      var loose := LooseUnit(Trim(s, n)).0;
      var (strict', loose') := (StringBody(rest).value.0, LooseDecode(Trim(rest, n)));
      if SurrogateUnit(s) {
        BelowAtOnce(loose, chunk, loose', strict');
      } else if !SurrogateFree(rest) {
        BelowAfter(chunk, loose', strict');
      }
    }
  }

  /** Each member's key as the parser reads it and as the scanner does. */
  ghost function KeyPairs(s: string, converts: Converts): (pairs: seq<(string, string)>)
    requires MembersFrom(s, converts).Some?
    ensures |pairs| == |MembersFrom(s, converts).value.0|
    ensures forall i :: 0 <= i < |pairs| ==> pairs[i].0 == MembersFrom(s, converts).value.0[i].0
    decreases |s|
  {
    var (member, rest) := ParseMember(s, converts).value;
    var t := SkipSpace(rest);
    [(member.0, ScannedKey(s, converts))] + if StartsWith(t, ',') then KeyPairs(t[1..], converts) else []
  }

  ghost predicate Scanned(pairs: seq<(string, string)>, key: string) {
    exists i :: 0 <= i < |pairs| && pairs[i].1 == key
  }

  ghost predicate Ordered(pairs: seq<(string, string)>) {
    forall i :: 0 <= i < |pairs| ==> pairs[i].1 == pairs[i].0 || Below(pairs[i].1, pairs[i].0)
  }

  ghost predicate Faithful(pairs: seq<(string, string)>) {
    forall i :: 0 <= i < |pairs| ==> pairs[i].1 == pairs[i].0
  }

  /** The scanner finds a key exactly when it reads some member's key that way. */
  lemma {:induction false} FindsScannedKeys(s: string, key: string, converts: Converts)
    requires MembersFrom(s, converts).Some?
    ensures RawFrom(s, key).Some? <==> Scanned(KeyPairs(s, converts), key)
    decreases |s|
  {
    hide ParseMember, SkipSpace, ParseDocument, StringBody, SkipValue, ToQuote, DecodeKey, ParseToken, Before;
    hide ScannedKey;
    var (member, rest) := ParseMember(s, converts).value;
    RawMemberStep(s, key, converts);
    var t := SkipSpace(rest);
    var head := (member.0, ScannedKey(s, converts));
    if StartsWith(t, ',') {
      var tail := KeyPairs(t[1..], converts);
      FindsScannedKeys(t[1..], key, converts);
      ScannedSplit(head, tail, key);
    } else {
      ScannedSplit(head, [], key);
      assert [head] + [] == [head];
    }
  }

  lemma ScannedSplit(head: (string, string), tail: seq<(string, string)>, key: string)
    ensures Scanned([head] + tail, key) <==> head.1 == key || Scanned(tail, key)
  {
    var all := [head] + tail;
    if Scanned(tail, key) {
      var i :| 0 <= i < |tail| && tail[i].1 == key;
      assert all[i + 1].1 == key;
    }
    assert all[0] == head;
  }

  /** Plain keys are read faithfully, and every other strictly below. */
  lemma {:induction false} PairsOrdered(s: string, converts: Converts)
    requires MembersFrom(s, converts).Some?
    ensures Ordered(KeyPairs(s, converts))
    ensures Faithful(KeyPairs(s, converts)) <==> PlainKeys(s, converts)
    decreases |s|
  {
    hide ParseMember, SkipSpace, Below, ScannedKey, PlainKey, Ordered, Faithful;
    var (member, rest) := ParseMember(s, converts).value;
    var t := SkipSpace(rest);
    var head := (member.0, ScannedKey(s, converts));
    KeyOrdered(s, converts);
    if StartsWith(t, ',') {
      PairsOrdered(t[1..], converts);
      PairsSplit(head, KeyPairs(t[1..], converts));
    } else {
      PairsSplit(head, []);
    }
  }

  lemma PairsSplit(head: (string, string), tail: seq<(string, string)>)
    ensures Ordered([head] + tail) <==> (head.1 == head.0 || Below(head.1, head.0)) && Ordered(tail)
    ensures Faithful([head] + tail) <==> head.1 == head.0 && Faithful(tail)
    ensures Ordered([]) && Faithful([])
  {
    hide Below;
    var all := [head] + tail;
    assert all[0] == head && forall i :: 0 <= i < |tail| ==> tail[i] == all[i + 1];
    assert forall i :: 1 <= i < |all| ==> all[i] == tail[i - 1];
  }

  lemma KeyOrdered(s: string, converts: Converts)
    requires ParseMember(s, converts).Some?
    ensures var (parsed, scanned) := (ParseMember(s, converts).value.0.0, ScannedKey(s, converts));
            if PlainKey(s, converts) then scanned == parsed else scanned != parsed && Below(scanned, parsed)
  {
    hide StringBody, LooseDecode, SurrogateFree, Below;
    var inner := SkipSpace(s)[1..];
    DecodeBelow(inner);
    DecodeExactIff(inner);
  }

  // -- The largest misread key --------------------------------------------------------------------

  ghost predicate Misread(pairs: seq<(string, string)>, i: int) {
    0 <= i < |pairs| && pairs[i].1 != pairs[i].0
  }

  lemma {:induction false} LargestMisread(pairs: seq<(string, string)>) returns (m: nat)
    requires !Faithful(pairs)
    ensures Misread(pairs, m)
    ensures forall i :: Misread(pairs, i) ==> pairs[i].0 == pairs[m].0 || Below(pairs[i].0, pairs[m].0)
  {
    hide Below;
    var n := |pairs| - 1;
    var rest := pairs[..n];
    assert forall i :: 0 <= i < n ==> rest[i] == pairs[i];
    if Faithful(rest) {
      m := n;
    } else {
      var k := LargestMisread(rest);
      assert forall i :: Misread(pairs, i) && i < n ==> Misread(rest, i);
      if pairs[n].1 == pairs[n].0 {
        m := k;
      } else {
        BelowTotal(pairs[n].0, pairs[k].0);
        m := if Below(pairs[k].0, pairs[n].0) then n else k;
        forall i | Misread(pairs, i) ensures pairs[i].0 == pairs[m].0 || Below(pairs[i].0, pairs[m].0) {
          if m == n && i < n && Below(pairs[i].0, pairs[k].0) {
            BelowTransitive(pairs[i].0, pairs[k].0, pairs[n].0);
          }
        }
      }
    }
  }

  /** Among distinct keys the largest misread one is scanned by no member. */
  lemma LargestIsLost(pairs: seq<(string, string)>, m: nat)
    requires Ordered(pairs) && Misread(pairs, m)
    requires forall i, j :: 0 <= i < j < |pairs| ==> pairs[i].0 != pairs[j].0
    requires forall i :: Misread(pairs, i) ==> pairs[i].0 == pairs[m].0 || Below(pairs[i].0, pairs[m].0)
    ensures !Scanned(pairs, pairs[m].0)
  {
    hide Below;
    forall i | 0 <= i < |pairs| ensures pairs[i].1 != pairs[m].0 {
      if Misread(pairs, i) {
        BelowTotal(pairs[i].1, pairs[m].0);
        if Below(pairs[i].0, pairs[m].0) { BelowTransitive(pairs[i].1, pairs[i].0, pairs[m].0); }
      } else {
        assert i < m || m < i;
      }
    }
  }

  // -- Bodies -----------------------------------------------------------------------------------

  /** On every key, a span exactly when the object has the member, and of the member's value. */
  ghost predicate AgreesOnEveryKey(body: string, members: map<string, Value>, converts: Converts) {
    forall key :: SpanOf(RawMember(body, key), if key in members then Some(members[key]) else None, converts)
  }

  ghost predicate FindsEveryKey(body: string, members: map<string, Value>) {
    forall key :: RawMember(body, key).Some? <==> key in members
  }

  /** For every body the parser accepts as an object: the two readers agree on every key, and
      already on which keys there are, if and only if no top-level key escapes a surrogate. */
  lemma AgreementExact(body: string, converts: Converts)
    requires ParseDocument(body, converts).Some? && ParseDocument(body, converts).value.Obj?
    ensures var members := ParseDocument(body, converts).value.members;
            && (AgreesOnEveryKey(body, members, converts) <==> PlainBody(body, converts))
            && (FindsEveryKey(body, members) <==> PlainBody(body, converts))
  {
    hide ParseDocument, PlainBody, RawMember;
    var members := ParseDocument(body, converts).value.members;
    if PlainBody(body, converts) {
      forall key ensures SpanOf(RawMember(body, key), if key in members then Some(members[key]) else None, converts) {
        SpanAgreesWithParser(body, key, converts);
      }
      assert forall key :: RawMember(body, key).Some? <==> key in members;
    } else {
      var key := LostKey(body, converts);
      assert !SpanOf(RawMember(body, key), Some(members[key]), converts);
    }
  }

  /** A key of the object that the scanner does not find. */
  lemma LostKey(body: string, converts: Converts) returns (key: string)
    requires ParseDocument(body, converts).Some? && ParseDocument(body, converts).value.Obj?
    requires !PlainBody(body, converts)
    ensures key in ParseDocument(body, converts).value.members && RawMember(body, key).None?
  {
    hide SkipSpace, ParseToken, MembersFrom, MapOf, PlainKeys, Below, KeyPairs;
    var t := SkipSpace(body);
    SpaceStops(t);
    ObjectToken(t, converts);
    var list := ParseMembers(t[1..], converts).value.0;
    PlainWhenEmpty(t[1..], converts);
    var pairs := KeyPairs(t[1..], converts);
    PairsOrdered(t[1..], converts);
    var m := LargestMisread(pairs);
    key := pairs[m].0;
    LargestIsLost(pairs, m);
    FindsScannedKeys(t[1..], key, converts);
    MapHasKey(list, m);
  }

  /** An object whose members can be listed is not empty. */
  lemma PlainWhenEmpty(s: string, converts: Converts)
    requires ParseMembers(s, converts).Some? && MembersFrom(s, converts).Some?
    ensures ParseMembers(s, converts) == MembersFrom(s, converts)
  {
    hide StringBody, ParseToken;
  }

  lemma {:induction false} MapHasKey(members: seq<(string, Value)>, m: nat)
    requires m < |members|
    ensures members[m].0 in MapOf(members)
  {
    var n := |members| - 1;
    if m < n { MapHasKey(members[..n], m); }
  }
}
