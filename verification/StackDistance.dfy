/** Request streams, stack distances and a step-by-step LRU cache. The stack property
    of LRU ties the two: a request hits in `n` slots exactly when fewer than `n`
    distinct experts were selected since its last selection. */
module StackDistance {

  /** The profiler drops every id outside the model, so these are the streams it can hold. */
  ghost predicate InModel(s: seq<nat>, total: nat) {
    forall p :: 0 <= p < |s| ==> s[p] < total
  }

  /** The last position below `i` that selects `g`, or -1. */
  function LastBefore(s: seq<nat>, i: nat, g: nat): (p: int)
    requires i <= |s|
    ensures -1 <= p < i
    ensures 0 <= p ==> s[p] == g
    ensures forall q :: p < q < i ==> s[q] != g
  {
    if i == 0 then -1 else if s[i - 1] == g then i - 1 else LastBefore(s, i - 1, g)
  }

  ghost function Elems(s: seq<nat>, lo: nat, hi: nat): set<nat>
    requires lo <= hi <= |s|
  {
    set p | lo <= p < hi :: s[p]
  }

  ghost predicate Rereferenced(s: seq<nat>, i: nat)
    requires i < |s|
  {
    0 <= LastBefore(s, i, s[i])
  }

  /** Distinct experts selected since request `i`'s expert was last selected. */
  ghost function Distance(s: seq<nat>, i: nat): nat
    requires i < |s| && Rereferenced(s, i)
  {
    |Elems(s, LastBefore(s, i, s[i]) + 1, i)|
  }

  // -- The cache: most recently used first --------------------------------------

  function IndexOf(c: seq<nat>, g: nat): (k: nat)
    ensures k <= |c|
  {
    if c == [] || c[0] == g then 0 else 1 + IndexOf(c[1..], g)
  }

  lemma {:induction false} IndexOfIsFirst(c: seq<nat>, g: nat)
    ensures var k := IndexOf(c, g); (k < |c| ==> c[k] == g) && g !in c[..k]
  {
    if c == [] || c[0] == g {
    } else {
      IndexOfIsFirst(c[1..], g);
      var k := IndexOf(c[1..], g);
      assert c[..k + 1] == [c[0]] + c[1..][..k];
    }
  }

  /** `g` before the rest, the `k`-th left out. */
  function Fronted(c: seq<nat>, g: nat, k: nat): seq<nat>
    requires k <= |c|
  {
    [g] + c[..k] + if k < |c| then c[k + 1..] else []
  }

  function MoveToFront(c: seq<nat>, g: nat): seq<nat> {
    Fronted(c, g, IndexOf(c, g))
  }

  function Take(c: seq<nat>, n: nat): seq<nat> {
    if |c| <= n then c else c[..n]
  }

  /** The contents of an `n`-slot LRU cache after the first `i` requests. */
  function LruCache(s: seq<nat>, i: nat, n: nat): seq<nat>
    requires i <= |s|
  {
    if i == 0 then [] else Take(MoveToFront(LruCache(s, i - 1, n), s[i - 1]), n)
  }

  /** Requests of the first `m` that are counted and answered by the cache. */
  ghost function LruHits(s: seq<nat>, counted: seq<bool>, m: nat, n: nat): nat
    requires m <= |s| == |counted|
  {
    if m == 0 then 0
    else LruHits(s, counted, m - 1, n) +
         if counted[m - 1] && s[m - 1] in LruCache(s, m - 1, n) then 1 else 0
  }

  // -- The stack property ---------------------------------------------------------

  /** The unbounded recency order: every expert seen, latest first. */
  ghost function Recency(s: seq<nat>, i: nat): seq<nat>
    requires i <= |s|
  {
    if i == 0 then [] else MoveToFront(Recency(s, i - 1), s[i - 1])
  }

  ghost predicate Distinct(c: seq<nat>) {
    forall j, k :: 0 <= j < k < |c| ==> c[j] != c[k]
  }

  /** Exactly the experts seen, the latest selected first. */
  ghost predicate ByRecency(s: seq<nat>, i: nat, r: seq<nat>)
    requires i <= |s|
  {
    && (forall g :: g in r <==> 0 <= LastBefore(s, i, g))
    && forall j, k :: 0 <= j < k < |r| ==> LastBefore(s, i, r[k]) < LastBefore(s, i, r[j])
  }

  ghost function Members(c: seq<nat>): set<nat> {
    set g | g in c
  }

  lemma {:induction false} RecencyRanks(s: seq<nat>, i: nat)
    requires i <= |s|
    ensures ByRecency(s, i, Recency(s, i)) && Distinct(Recency(s, i))
  {
    if i == 0 {
    } else {
      RecencyRanks(s, i - 1);
      RecencyStep(s, i - 1, Recency(s, i - 1));
    }
  }

  lemma RecencyStep(s: seq<nat>, i: nat, r: seq<nat>)
    requires i < |s| && ByRecency(s, i, r) && Distinct(r)
    ensures ByRecency(s, i + 1, MoveToFront(r, s[i])) && Distinct(MoveToFront(r, s[i]))
  {
    hide LastBefore, IndexOf, MoveToFront, Distinct;
    var (g, m) := (s[i], MoveToFront(r, s[i]));
    var i' := i + 1;
    LastStep(s, i, i');
    MovedContents(r, g);
    forall j, k | 0 <= j < k < |m| ensures LastBefore(s, i', m[k]) < LastBefore(s, i', m[j]) {
      var b := MovedFrom(r, g, k);
      if 0 < j {
        var a := MovedFrom(r, g, j);
        MovedOrder(r, g, j, k, a, b);
      } else {
        assert LastBefore(s, i, m[k]) < i;
      }
    }
  }

  /** Where a member behind the front came from. */
  lemma MovedFrom(r: seq<nat>, g: nat, k: nat) returns (b: nat)
    requires Distinct(r) && 0 < k < |MoveToFront(r, g)|
    ensures b == (if k <= IndexOf(r, g) then k - 1 else k) && b < |r|
    ensures MoveToFront(r, g)[k] == r[b] && r[b] != g
  {
    hide IndexOf;
    IndexOfIsFirst(r, g);
    var x := IndexOf(r, g);
    b := if k <= x then k - 1 else k;
    if k <= x { assert r[b] in r[..x]; }
  }

  lemma MovedOrder(r: seq<nat>, g: nat, j: nat, k: nat, a: nat, b: nat)
    requires j < k && a == (if j <= IndexOf(r, g) then j - 1 else j) && b == (if k <= IndexOf(r, g) then k - 1 else k)
    ensures a < b
  {
  }

  lemma LastStep(s: seq<nat>, i: nat, i': nat)
    requires i < |s| && i' == i + 1
    ensures forall g: nat :: LastBefore(s, i', g) == if s[i] == g then i else LastBefore(s, i, g)
  {
  }

  /** An expert's place in the recency order is its stack distance. */
  lemma RankIsDistance(s: seq<nat>, i: nat, r: seq<nat>, k: nat)
    requires i <= |s| && k < |r| && ByRecency(s, i, r) && Distinct(r)
    ensures |Elems(s, LastBefore(s, i, r[k]) + 1, i)| == k
  {
    var last := LastBefore(s, i, r[k]);
    forall g | g in r[..k]
      ensures g in Elems(s, last + 1, i)
    {
      var p := LastBefore(s, i, g);
      assert s[p] == g && last < p < i;
    }
    forall g | g in Elems(s, last + 1, i)
      ensures g in r[..k]
    {
      assert last < LastBefore(s, i, g);
      var j :| 0 <= j < |r| && r[j] == g;
      assert j < k;
    }
    assert Elems(s, last + 1, i) == Members(r[..k]);
    MembersSize(r[..k]);
  }

  lemma MovedContents(r: seq<nat>, g: nat)
    requires Distinct(r)
    ensures Distinct(MoveToFront(r, g))
    ensures MoveToFront(r, g)[0] == g
    ensures forall x :: x in MoveToFront(r, g) <==> x == g || x in r
  {
    var k := IndexOf(r, g);
    IndexOfIsFirst(r, g);
    if k < |r| {
      assert r == r[..k] + [g] + r[k + 1..];
    }
  }

  lemma {:induction false} MembersSize(c: seq<nat>)
    requires Distinct(c)
    ensures |Members(c)| == |c|
  {
    if c == [] {
    } else {
      var n := |c| - 1;
      assert c == c[..n] + [c[n]];
      assert Members(c) == Members(c[..n]) + {c[n]};
      MembersSize(c[..n]);
    }
  }

  /** Every capacity's cache is a prefix of the one recency order. */
  lemma {:induction false} CacheIsPrefix(s: seq<nat>, i: nat, n: nat)
    requires i <= |s|
    ensures LruCache(s, i, n) == Take(Recency(s, i), n)
  {
    hide MoveToFront, Distinct, IndexOf;
    if i == 0 {
    } else {
      CacheIsPrefix(s, i - 1, n);
      RecencyRanks(s, i - 1);
      PrefixStep(Recency(s, i - 1), s[i - 1], n);
    }
  }

  lemma PrefixStep(r: seq<nat>, g: nat, n: nat)
    requires Distinct(r)
    ensures Take(MoveToFront(Take(r, n), g), n) == Take(MoveToFront(r, g), n)
  {
    hide IndexOf, Distinct, Fronted;
    if n < |r| {
      IndexInPrefix(r, g, n);
      FrontOfPrefix(r, g, n, IndexOf(r, g));
      assert Take(r, n) == r[..n];
    }
  }

  lemma IndexInPrefix(r: seq<nat>, g: nat, n: nat)
    requires n <= |r|
    ensures IndexOf(r, g) <= |r| && IndexOf(r[..n], g) == if IndexOf(r, g) < n then IndexOf(r, g) else n
  {
    hide IndexOf;
    IndexOfIsFirst(r, g);
    IndexOfIsFirst(r[..n], g);
    var (k, kt) := (IndexOf(r, g), IndexOf(r[..n], g));
    if k < n { assert r[..n][k] == g; }
    if kt < n { assert r[kt] == g; }
  }

  /** Cutting before or after moving the `k`-th to the front leaves the same first `n`. */
  lemma FrontOfPrefix(r: seq<nat>, g: nat, n: nat, k: nat)
    requires n < |r| && k <= |r|
    ensures Take(Fronted(r[..n], g, if k < n then k else n), n) == Take(Fronted(r, g, k), n)
  {
    var (a, b) := (Fronted(r[..n], g, if k < n then k else n), Fronted(r, g, k));
    var tail := if k < |r| then r[k + 1..] else [];
    if k < n {
      assert r[..n][..k] == r[..k] && r[..n][k + 1..] + r[n..] == r[k + 1..];
      assert b == a + r[n..];
      TakePrefix(a, r[n..], n);
    } else {
      assert r[..n][..n] == r[..n] && r[..n] + r[n..k] == r[..k];
      assert b == a + (r[n..k] + tail);
      TakePrefix(a, r[n..k] + tail, n);
    }
  }

  lemma TakePrefix(a: seq<nat>, rest: seq<nat>, n: nat)
    requires n <= |a|
    ensures Take(a + rest, n) == Take(a, n)
  {
    assert (a + rest)[..n] == a[..n];
    assert |a| == n ==> a[..n] == a;
    assert |a + rest| == n ==> rest == [] && a + rest == a;
  }

  lemma CacheDistinct(s: seq<nat>, i: nat, n: nat)
    requires i <= |s|
    ensures Distinct(LruCache(s, i, n))
  {
    CacheIsPrefix(s, i, n);
    RecencyRanks(s, i);
  }

  /** The stack property of LRU, for every stream, request and number of slots. */
  lemma LruHitIffNear(s: seq<nat>, i: nat, n: nat)
    requires i < |s|
    ensures s[i] in LruCache(s, i, n) <==> Rereferenced(s, i) && Distance(s, i) < n
  {
    hide LruCache, Recency, LastBefore, IndexOf, Elems;
    CacheIsPrefix(s, i, n);
    RecencyRanks(s, i);
    var r := Recency(s, i);
    if Rereferenced(s, i) {
      var k := IndexOf(r, s[i]);
      IndexOfIsFirst(r, s[i]);
      assert s[i] in r && r[k] == s[i];
      RankIsDistance(s, i, r, k);
      assert forall j :: 0 <= j < |Take(r, n)| ==> Take(r, n)[j] == r[j];
    } else {
      assert s[i] !in r;
    }
  }
}
