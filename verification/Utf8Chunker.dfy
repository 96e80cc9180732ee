/** The streaming UTF-8 decoder: complete code points go out, an incomplete tail is held,
    invalid bytes become U+FFFD. */
module Utf8Chunker {

  type Byte = b: int | 0 <= b < 0x100

  const REPLACEMENT: seq<Byte> := [0xEF, 0xBF, 0xBD]

  function SequenceLength(lead: Byte): nat {
    if 0xC2 <= lead <= 0xDF then 2
    else if 0xE0 <= lead <= 0xEF then 3
    else if 0xF0 <= lead <= 0xF4 then 4
    else 0
  }

  predicate ContinuationOk(lead: Byte, k: nat, b: Byte) {
    if 1 < k then 0x80 <= b <= 0xBF
    else if lead == 0xE0 then 0xA0 <= b <= 0xBF
    else if lead == 0xED then 0x80 <= b <= 0x9F
    else if lead == 0xF0 then 0x90 <= b <= 0xBF
    else if lead == 0xF4 then 0x80 <= b <= 0x8F
    else 0x80 <= b <= 0xBF
  }

  /** What the front of a buffer calls for: some output and bytes consumed, or waiting. */
  datatype Front = Take(output: seq<Byte>, length: nat) | Wait

  /** How many bytes after the lead, from the `k`-th on, are allowed continuations. */
  function Continued(s: seq<Byte>, k: nat): (n: nat)
    requires 1 <= k <= |s|
    ensures k <= n <= |s|
    decreases |s| - k
  {
    if k < |s| && k < SequenceLength(s[0]) && ContinuationOk(s[0], k, s[k]) then Continued(s, k + 1) else k
  }

  function FrontOf(s: seq<Byte>): (f: Front)
    requires s != []
    ensures f.Take? ==> 1 <= f.length <= |s|
  {
    if s[0] < 0x80 then Take([s[0]], 1)
    else if SequenceLength(s[0]) == 0 then Take(REPLACEMENT, 1)
    else
      var n := Continued(s, 1);
      if SequenceLength(s[0]) <= n then Take(s[..SequenceLength(s[0])], SequenceLength(s[0]))
      else if n == |s| then Wait
      else Take(REPLACEMENT, 1)
  }

  /** Output and held tail of one buffer. */
  function Decode(s: seq<Byte>): (r: (seq<Byte>, seq<Byte>))
    decreases |s|
  {
    if s == [] then ([], [])
    else
      var f := FrontOf(s);
      if f.Wait? then ([], s)
      else var rest := Decode(s[f.length..]); (f.output + rest.0, rest.1)
  }

  function Flushed(held: seq<Byte>): seq<Byte> {
    if held == [] then [] else REPLACEMENT
  }

  class Chunker {
    var held: seq<Byte>

    constructor ()
      ensures held == []
    {
      held := [];
    }

    method Push(bytes: seq<Byte>) returns (output: seq<Byte>)
      modifies this
      ensures (output, held) == Decode(old(held) + bytes)
    {
      hide FrontOf, Decode;
      output := [];
      var buffer := held + bytes;
      held := [];
      var index := 0;
      assert buffer[0..] == buffer && [] + Decode(buffer).0 == Decode(buffer).0;
      while index < |buffer|
        invariant 0 <= index <= |buffer| && held == []
        invariant Decode(buffer) == (output + Decode(buffer[index..]).0, Decode(buffer[index..]).1)
      {
        var front := Classify(buffer, index);
        if front.Wait? {
          WaitHolds(buffer[index..]);
          assert output + [] == output;
          held := buffer[index..];
          return;
        }
        Advance(buffer, index, output);
        output := output + front.output;
        index := index + front.length;
      }
      EmptyDecodes();
      assert buffer[index..] == [] && output + [] == output;
    }

    /** Reads the code point at `index`: the lead byte, then each continuation in turn. */
    static method Classify(buffer: seq<Byte>, index: nat) returns (front: Front)
      requires index < |buffer|
      ensures front == FrontOf(buffer[index..])
    {
      ghost var s := buffer[index..];
      var lead := buffer[index];
      if lead < 0x80 {
        return Take([lead], 1);
      }
      var length := SequenceLength(lead);
      if length == 0 {
        return Take(REPLACEMENT, 1);
      }
      var valid, complete, k := true, true, 1;
      while k < length
        invariant 1 <= k <= length && k <= |s| && valid && complete
        invariant Continued(s, k) == Continued(s, 1)
      {
        if index + k >= |buffer| {
          complete := false;
          break;
        }
        if !ContinuationOk(lead, k, buffer[index + k]) {
          valid := false;
          break;
        }
        k := k + 1;
      }
      if !valid {
        return Take(REPLACEMENT, 1);
      }
      if !complete {
        return Wait;
      }
      assert s[..length] == buffer[index..index + length];
      return Take(buffer[index..index + length], length);
    }

    method Flush() returns (output: seq<Byte>)
      modifies this
      ensures output == Flushed(old(held)) && held == []
    {
      output := [];
      if held != [] {
        output := REPLACEMENT;
        held := [];
      }
    }

    /** A whole reply pushed in pieces, then flushed. */
    method Drain(chunks: seq<seq<Byte>>) returns (output: seq<Byte>)
      requires held == []
      modifies this
      ensures output == Whole(Joined(chunks)) && held == []
    {
      output := [];
      for i := 0 to |chunks|
        invariant (output, held) == Decode(Joined(chunks[..i]))
      {
        var part := Push(chunks[i]);
        JoinedNext(chunks, i);
        DecodeInPieces(Joined(chunks[..i]), chunks[i]);
        output := output + part;
      }
      assert chunks[..|chunks|] == chunks;
      var tail := Flush();
      output := output + tail;
    }
  }

  lemma WaitHolds(s: seq<Byte>)
    requires s != [] && FrontOf(s).Wait?
    ensures Decode(s) == ([], s)
  {
  }

  lemma Advance(buffer: seq<Byte>, index: nat, output: seq<Byte>)
    requires index < |buffer| && FrontOf(buffer[index..]).Take?
    ensures var f := FrontOf(buffer[index..]);
            var next := buffer[index + f.length..];
            && Decode(buffer[index..]).1 == Decode(next).1
            && output + Decode(buffer[index..]).0 == (output + f.output) + Decode(next).0
  {
    hide FrontOf;
    var f := FrontOf(buffer[index..]);
    var next := buffer[index + f.length..];
    assert buffer[index..][f.length..] == next;
    assert Decode(buffer[index..]) == (f.output + Decode(next).0, Decode(next).1);
    assert output + (f.output + Decode(next).0) == (output + f.output) + Decode(next).0;
  }

  // -- Independence of the split -----------------------------------------------------------

  /** Output of one push of everything and a flush. */
  function Whole(s: seq<Byte>): seq<Byte> {
    Decode(s).0 + Flushed(Decode(s).1)
  }

  function Joined(chunks: seq<seq<Byte>>): seq<Byte> {
    if chunks == [] then [] else Joined(chunks[..|chunks| - 1]) + chunks[|chunks| - 1]
  }

  lemma JoinedNext(chunks: seq<seq<Byte>>, i: nat)
    requires i < |chunks|
    ensures Joined(chunks[..i + 1]) == Joined(chunks[..i]) + chunks[i]
  {
    assert chunks[..i + 1][..i] == chunks[..i];
  }

  lemma {:induction false} ContinuedMore(a: seq<Byte>, b: seq<Byte>, k: nat)
    requires 1 <= k <= |a|
    ensures Continued(a, k) < |a| || SequenceLength(a[0]) <= Continued(a, k) ==>
              Continued(a + b, k) == Continued(a, k)
    decreases |a| - k
  {
    if k < |a| {
      assert (a + b)[k] == a[k];
      if k < SequenceLength(a[0]) && ContinuationOk(a[0], k, a[k]) {
        ContinuedMore(a, b, k + 1);
      }
    }
  }

  /** A front that is decided stays decided when more bytes arrive. */
  lemma FrontIsStable(a: seq<Byte>, b: seq<Byte>)
    requires a != [] && FrontOf(a).Take?
    ensures FrontOf(a + b) == FrontOf(a)
  {
    if 0 < SequenceLength(a[0]) {
      ContinuedMore(a, b, 1);
      var n := FrontOf(a).length;
      assert (a + b)[..n] == a[..n];
    }
  }

  /** Decoding in two pieces, carrying the held tail, is decoding at once. */
  lemma {:induction false} DecodeInPieces(a: seq<Byte>, b: seq<Byte>)
    ensures var (first, held) := Decode(a);
            Decode(a + b) == (first + Decode(held + b).0, Decode(held + b).1)
    decreases |a|
  {
    hide FrontOf;
    if a == [] {
      assert a + b == b == [] + b;
    } else if FrontOf(a).Take? {
      var n := FrontOf(a).length;
      FrontIsStable(a, b);
      DecodeInPieces(a[n..], b);
      assert (a + b)[n..] == a[n..] + b;
      var (first, held) := Decode(a[n..]);
      assert FrontOf(a).output + (first + Decode(held + b).0) == (FrontOf(a).output + first) + Decode(held + b).0;
    } else {
      assert [] + Decode(a + b).0 == Decode(a + b).0;
    }
  }

  // -- Against the grammar of section 4 of RFC 3629 --------------------------------------------

  predicate Tail(b: Byte) {
    0x80 <= b <= 0xBF
  }

  predicate IsChar(c: seq<Byte>) {
    || (|c| == 1 && c[0] <= 0x7F)
    || (|c| == 2 && 0xC2 <= c[0] <= 0xDF && Tail(c[1]))
    || (|c| == 3 && c[0] == 0xE0 && 0xA0 <= c[1] <= 0xBF && Tail(c[2]))
    || (|c| == 3 && 0xE1 <= c[0] <= 0xEC && Tail(c[1]) && Tail(c[2]))
    || (|c| == 3 && c[0] == 0xED && 0x80 <= c[1] <= 0x9F && Tail(c[2]))
    || (|c| == 3 && 0xEE <= c[0] <= 0xEF && Tail(c[1]) && Tail(c[2]))
    || (|c| == 4 && c[0] == 0xF0 && 0x90 <= c[1] <= 0xBF && Tail(c[2]) && Tail(c[3]))
    || (|c| == 4 && 0xF1 <= c[0] <= 0xF3 && Tail(c[1]) && Tail(c[2]) && Tail(c[3]))
    || (|c| == 4 && c[0] == 0xF4 && 0x80 <= c[1] <= 0x8F && Tail(c[2]) && Tail(c[3]))
  }

  /** A sequence of characters of the grammar. */
  ghost predicate IsUtf8(s: seq<Byte>)
    decreases |s|
  {
    s == [] || exists n :: 1 <= n <= |s| && IsChar(s[..n]) && IsUtf8(s[n..])
  }

  /** The start of some character, missing at least one byte. */
  ghost predicate IsTruncated(s: seq<Byte>) {
    s != [] && exists t: seq<Byte> :: t != [] && IsChar(s + t)
  }

  predicate Allowed(s: seq<Byte>, j: nat) {
    1 <= j < |s| && j < SequenceLength(s[0]) && ContinuationOk(s[0], j, s[j])
  }

  lemma {:induction false} ContinuedIsAllowed(s: seq<Byte>, k: nat)
    requires 1 <= k <= |s|
    ensures forall j :: k <= j < Continued(s, k) ==> Allowed(s, j)
    decreases |s| - k
  {
    if Allowed(s, k) {
      ContinuedIsAllowed(s, k + 1);
    }
  }

  lemma FirstAllowed(s: seq<Byte>)
    requires s != []
    ensures var n := Continued(s, 1);
            (1 < n ==> Allowed(s, 1)) && (2 < n ==> Allowed(s, 2)) && (3 < n ==> Allowed(s, 3))
  {
    ContinuedIsAllowed(s, 1);
  }

  lemma {:induction false} ContinuedIsMaximal(s: seq<Byte>, k: nat, n: nat)
    requires 1 <= k <= n <= |s| && n <= SequenceLength(s[0])
    requires forall j :: k <= j < n ==> ContinuationOk(s[0], j, s[j])
    ensures n <= Continued(s, k)
    decreases n - k
  {
    if k < n {
      ContinuedIsMaximal(s, k + 1, n);
    }
  }

  /** The front takes a character of the grammar exactly when one is there. */
  lemma CharTaken(c: seq<Byte>, rest: seq<Byte>)
    requires IsChar(c)
    ensures FrontOf(c + rest) == Take(c, |c|)
  {
    var s := c + rest;
    if 1 < |c| {
      assert SequenceLength(s[0]) == |c|;
      assert forall j :: 1 <= j < |c| ==> s[j] == c[j] && ContinuationOk(s[0], j, s[j]);
      ContinuedIsMaximal(s, 1, |c|);
      assert s[..|c|] == c;
    }
  }

  /** Whatever is taken, its output is one character. */
  lemma OutputIsChar(s: seq<Byte>)
    requires s != [] && FrontOf(s).Take?
    ensures IsChar(FrontOf(s).output)
  {
    if 0x80 <= s[0] && 0 < SequenceLength(s[0]) {
      FirstAllowed(s);
    }
  }

  /** Only the start of a character is ever held, and never more than three bytes. */
  lemma WaitIsTruncated(s: seq<Byte>)
    requires s != [] && FrontOf(s).Wait?
    ensures |s| <= 3 && IsTruncated(s)
  {
    FirstAllowed(s);
    var missing := SequenceLength(s[0]) - |s|;
    var b: Byte := if s[0] == 0xE0 then 0xA0 else if s[0] == 0xF0 then 0x90 else 0x80;
    var t: seq<Byte> := if |s| == 1 then [b, 0x80, 0x80][..missing] else [0x80, 0x80][..missing];
    assert IsChar(s + t);
  }

  lemma {:induction false} HeldIsTruncated(s: seq<Byte>)
    ensures var held := Decode(s).1; held == [] || (|held| <= 3 && IsTruncated(held))
    decreases |s|
  {
    hide IsTruncated, FrontOf;
    if s != [] {
      if FrontOf(s).Wait? {
        WaitIsTruncated(s);
      } else {
        HeldIsTruncated(s[FrontOf(s).length..]);
      }
    }
  }

  lemma CharThenUtf8(c: seq<Byte>, rest: seq<Byte>)
    requires IsChar(c) && IsUtf8(rest)
    ensures IsUtf8(c + rest)
  {
    hide IsChar;
    var s := c + rest;
    assert c != [] by { CharNonEmpty(c); }
    assert s[..|c|] == c && s[|c|..] == rest;
  }

  lemma CharNonEmpty(c: seq<Byte>)
    requires IsChar(c)
    ensures 1 <= |c| <= 4
  {
  }

  lemma {:induction false} Utf8Concat(a: seq<Byte>, b: seq<Byte>)
    requires IsUtf8(a) && IsUtf8(b)
    ensures IsUtf8(a + b)
    decreases |a|
  {
    hide IsChar, IsUtf8;
    if a == [] {
      assert a + b == b;
    } else {
      var n := FirstChar(a);
      Utf8Concat(a[n..], b);
      CharThenUtf8(a[..n], a[n..] + b);
      assert a[..n] + (a[n..] + b) == a + b;
    }
  }

  /** Everything emitted is valid, whatever the input. */
  lemma {:induction false} OutputIsUtf8(s: seq<Byte>)
    ensures IsUtf8(Decode(s).0)
    decreases |s|
  {
    hide IsChar, FrontOf;
    if s != [] && FrontOf(s).Take? {
      var f := FrontOf(s);
      OutputIsChar(s);
      OutputIsUtf8(s[f.length..]);
      CharThenUtf8(f.output, Decode(s[f.length..]).0);
    }
  }

  lemma WholeIsUtf8(s: seq<Byte>)
    ensures IsUtf8(Whole(s))
  {
    hide Decode;
    OutputIsUtf8(s);
    assert IsChar(REPLACEMENT);
    CharThenUtf8(REPLACEMENT, []);
    assert REPLACEMENT + [] == REPLACEMENT;
    Utf8Concat(Decode(s).0, Flushed(Decode(s).1));
  }

  /** Valid text passes unchanged, and a truncated character after it is held as it is. */
  lemma {:induction false} ValidPasses(s: seq<Byte>, held: seq<Byte>)
    requires IsUtf8(s) && (held == [] || IsTruncated(held))
    ensures Decode(s + held) == (s, held)
    decreases |s|
  {
    hide IsChar, FrontOf, IsTruncated, IsUtf8, Decode;
    if s == [] {
      assert s + held == held;
      if held == [] {
        EmptyDecodes();
      } else {
        TruncatedWaits(held);
        WaitHolds(held);
      }
    } else {
      var n := FirstChar(s);
      ValidPasses(s[n..], held);
      CharDecodes(s[..n], s[n..] + held);
      assert s[..n] + (s[n..] + held) == s + held;
      assert s[..n] + s[n..] == s;
    }
  }

  lemma CharDecodes(c: seq<Byte>, rest: seq<Byte>)
    requires IsChar(c)
    ensures Decode(c + rest) == (c + Decode(rest).0, Decode(rest).1)
  {
    hide IsChar, FrontOf;
    CharNonEmpty(c);
    CharTaken(c, rest);
    assert (c + rest)[|c|..] == rest;
  }

  /** What is taken is a character of the grammar, or one byte of something that is none. */
  lemma TakenOrReplaced(s: seq<Byte>)
    requires s != [] && FrontOf(s).Take?
    ensures var f := FrontOf(s); (f.output == s[..f.length] && IsChar(s[..f.length])) || f == Take([0xEF, 0xBF, 0xBD], 1)
  {
    OutputIsChar(s);
  }

  /** The decoder by the grammar alone: a character in front passes; the beginning of one, with
      nothing after it, is held; anything else costs one U+FFFD and one byte. A held tail is
      flushed as one U+FFFD. */
  lemma DecodeByGrammar(s: seq<Byte>)
    requires s != []
    ensures forall n :: 0 <= n <= |s| && IsChar(s[..n]) ==> Decode(s) == (s[..n] + Decode(s[n..]).0, Decode(s[n..]).1)
    ensures IsTruncated(s) ==> Decode(s) == ([], s) && Whole(s) == [0xEF, 0xBF, 0xBD]
    ensures !IsTruncated(s) && (forall n :: 0 <= n <= |s| ==> !IsChar(s[..n])) ==>
      Decode(s) == ([0xEF, 0xBF, 0xBD] + Decode(s[1..]).0, Decode(s[1..]).1)
  {
    hide IsChar, FrontOf, IsTruncated;
    forall n | 0 <= n <= |s| && IsChar(s[..n]) ensures Decode(s) == (s[..n] + Decode(s[n..]).0, Decode(s[n..]).1) {
      CharDecodes(s[..n], s[n..]);
      assert s[..n] + s[n..] == s;
    }
    if IsTruncated(s) {
      TruncatedWaits(s);
    } else if forall n :: 0 <= n <= |s| ==> !IsChar(s[..n]) {
      if FrontOf(s).Wait? {
        WaitIsTruncated(s);
      } else {
        TakenOrReplaced(s);
      }
    }
  }

  lemma FirstChar(s: seq<Byte>) returns (n: nat)
    requires IsUtf8(s) && s != []
    ensures 1 <= n <= |s| && IsChar(s[..n]) && IsUtf8(s[n..])
  {
    hide IsChar;
    n :| 1 <= n <= |s| && IsChar(s[..n]) && IsUtf8(s[n..]);
  }

  lemma TruncatedWaits(s: seq<Byte>)
    requires IsTruncated(s)
    ensures FrontOf(s).Wait?
  {
    var t: seq<Byte> :| t != [] && IsChar(s + t);
    CharTaken(s + t, []);
    assert (s + t) + [] == s + t;
    assert (s + t)[0] == s[0];
    if FrontOf(s).Take? {
      FrontIsStable(s, t);
    }
  }

  /** The decoder is the identity exactly on valid UTF-8. */
  lemma UnchangedIffValid(s: seq<Byte>)
    ensures Whole(s) == s <==> IsUtf8(s)
  {
    hide Decode, IsUtf8;
    WholeIsUtf8(s);
    if IsUtf8(s) {
      ValidPasses(s, []);
      assert s + [] == s;
    }
  }

  /** Re-decoding what was emitted changes nothing. */
  lemma WholeIsIdempotent(s: seq<Byte>)
    ensures Whole(Whole(s)) == Whole(s)
  {
    hide Whole;
    WholeIsUtf8(s);
    UnchangedIffValid(Whole(s));
  }

  /** However a byte string is split, the outputs join to the one-shot output. */
  lemma SplitsAgree(chunks: seq<seq<Byte>>, others: seq<seq<Byte>>)
    requires Joined(chunks) == Joined(others)
    ensures PushAll(chunks) == PushAll(others)
  {
    PushAllIsDecode(chunks);
    PushAllIsDecode(others);
  }

  /** Outputs and held tail after pushing the chunks in turn. */
  function PushAll(chunks: seq<seq<Byte>>): (seq<Byte>, seq<Byte>) {
    if chunks == [] then ([], [])
    else
      var (out, held) := PushAll(chunks[..|chunks| - 1]);
      var (more, held') := Decode(held + chunks[|chunks| - 1]);
      (out + more, held')
  }

  lemma {:induction false} PushAllIsDecode(chunks: seq<seq<Byte>>)
    ensures PushAll(chunks) == Decode(Joined(chunks))
  {
    hide Decode;
    if chunks == [] {
      EmptyDecodes();
    } else {
      var n := |chunks| - 1;
      PushAllIsDecode(chunks[..n]);
      DecodeInPieces(Joined(chunks[..n]), chunks[n]);
    }
  }

  lemma EmptyDecodes()
    ensures Decode([]) == ([], [])
  {
  }
}
