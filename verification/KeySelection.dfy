/** Ordered compaction of the keys a query may see: every query of a tile masks one shared
    candidate list by position. */
module KeySelection {
  import opened Wrappers
  import Modular
  import LocalRing
  import opened Compressor

  /** Rows labelled with positions; a window of 0 means causal only. */
  datatype Block = Block(positions: seq<int>, window: nat)

  /** Local rows, compressed rows, and, for a layer that selects, this query's picks. */
  datatype Candidates = Candidates(local: Block, remote: Block, picks: Option<seq<int>>) {
    function Count(): nat {
      |local.positions| + if picks.Some? then |picks.value| else |remote.positions|
    }
  }

  function WindowFirst(query: nat, window: nat): int {
    if window > 0 && query >= window - 1 then query - (window - 1) else 0
  }

  function Visible(b: Block, row: nat, query: nat): bool
    requires row < |b.positions|
  {
    WindowFirst(query, b.window) <= b.positions[row] <= query
  }

  /** The row candidate `k` stands for, or -1 when the query must not see it. */
  function Encoded(c: Candidates, query: nat, k: nat): int {
    var rows0 := |c.local.positions|;
    if k < rows0 then
      if Visible(c.local, k, query) then k else -1
    else if k < c.Count() then
      var row := if c.picks.Some? then c.picks.value[k - rows0] else k - rows0;
      if 0 <= row < |c.remote.positions| && Visible(c.remote, row, query) then rows0 + row else -1
    else -1
  }

  /** The visible candidates among `lo..hi`, in candidate order. */
  ghost function Kept(c: Candidates, query: nat, lo: nat, hi: nat): seq<int>
    requires lo <= hi
  {
    if lo == hi then []
    else Kept(c, query, lo, hi - 1) + if Encoded(c, query, hi - 1) >= 0 then [Encoded(c, query, hi - 1)] else []
  }

  lemma {:induction false} KeptSplit(c: Candidates, query: nat, lo: nat, mid: nat, hi: nat)
    requires lo <= mid <= hi
    ensures Kept(c, query, lo, hi) == Kept(c, query, lo, mid) + Kept(c, query, mid, hi)
  {
    if mid < hi { KeptSplit(c, query, lo, mid, hi - 1); }
  }

  lemma {:induction false} KeptSize(c: Candidates, query: nat, lo: nat, hi: nat)
    requires lo <= hi
    ensures |Kept(c, query, lo, hi)| <= hi - lo
  {
    if lo < hi { KeptSize(c, query, lo, hi - 1); }
  }

  lemma {:induction false} KeptNone(c: Candidates, query: nat, lo: nat, hi: nat)
    requires lo <= hi && forall k :: lo <= k < hi ==> Encoded(c, query, k) < 0
    ensures Kept(c, query, lo, hi) == []
  {
    if lo < hi { KeptNone(c, query, lo, hi - 1); }
  }

  ghost function Range(lo: int, hi: int): seq<int>
    requires lo <= hi
  {
    seq(hi - lo, i => lo + i)
  }

  lemma {:induction false} KeptAll(c: Candidates, query: nat, lo: nat, hi: nat)
    requires lo <= hi && forall k :: lo <= k < hi ==> Encoded(c, query, k) == k
    ensures Kept(c, query, lo, hi) == Range(lo, hi)
  {
    if lo < hi {
      KeptAll(c, query, lo, hi - 1);
      assert Range(lo, hi) == Range(lo, hi - 1) + [hi - 1];
    }
  }

  /** The candidate of a warp's first lane. */
  function Lane0(base: nat, warp: nat, lanes: nat): (k: nat)
    ensures base <= k
  {
    base + warp * lanes
  }

  lemma NextWarp(base: nat, warp: nat, lanes: nat)
    ensures Lane0(base, warp + 1, lanes) == Lane0(base, warp, lanes) + lanes && Lane0(base, 0, lanes) == base
  {
  }

  /** How many of a warp's lanes hold a visible candidate. */
  ghost function Votes(c: Candidates, query: nat, base: nat, warp: nat, lanes: nat): nat {
    |Kept(c, query, Lane0(base, warp, lanes), Lane0(base, warp, lanes) + lanes)|
  }

  method WarpCounts(c: Candidates, query: nat, base: nat, warps: nat, lanes: nat) returns (counts: seq<nat>)
    ensures |counts| == warps
    ensures forall w :: 0 <= w < warps ==> counts[w] == Votes(c, query, base, w, lanes)
  {
    hide Encoded, Lane0;
    counts := [];
    for w := 0 to warps
      invariant |counts| == w
      invariant forall v :: 0 <= v < w ==> counts[v] == Votes(c, query, base, v, lanes)
    {
      var count := 0;
      var first := Lane0(base, w, lanes);
      for lane := 0 to lanes
        invariant count == |Kept(c, query, first, first + lane)|
      {
        if Encoded(c, query, first + lane) >= 0 { count := count + 1; }
      }
      counts := counts + [count];
    }
  }

  /** A warp's offset: what was kept before its block, plus the votes of the warps before it. */
  method WarpOffset(c: Candidates, query: nat, base: nat, warp: nat, lanes: nat, valid: nat, counts: seq<nat>)
      returns (offset: nat)
    requires warp <= |counts| && forall w :: 0 <= w < |counts| ==> counts[w] == Votes(c, query, base, w, lanes)
    requires valid == |Kept(c, query, 0, base)|
    ensures offset == |Kept(c, query, 0, Lane0(base, warp, lanes))|
  {
    hide Encoded, Kept;
    offset := valid;
    NextWarp(base, 0, lanes);
    hide Lane0;
    for w := 0 to warp
      invariant offset == |Kept(c, query, 0, Lane0(base, w, lanes))|
    {
      NextWarp(base, w, lanes);
      KeptSplit(c, query, 0, Lane0(base, w, lanes), Lane0(base, w + 1, lanes));
      offset := offset + counts[w];
    }
  }

  /** One warp's threads put their keys in place, each at its rank among the voting lanes. */
  method WarpWrites(c: Candidates, query: nat, first: nat, lanes: nat, offset: nat, keys: array<int>)
    requires keys.Length == c.Count() && offset == |Kept(c, query, 0, first)|
    requires offset <= keys.Length && keys[..offset] == Kept(c, query, 0, first)
    modifies keys
    ensures |Kept(c, query, 0, first + lanes)| <= keys.Length
    ensures keys[..|Kept(c, query, 0, first + lanes)|] == Kept(c, query, 0, first + lanes)
  {
    hide Encoded;
    var rank := 0;
    for lane := 0 to lanes
      invariant offset + rank == |Kept(c, query, 0, first + lane)| <= keys.Length
      invariant keys[..offset + rank] == Kept(c, query, 0, first + lane)
    {
      var k := first + lane;
      if Encoded(c, query, k) >= 0 {
        VisibleInRange(c, query, k);
        KeptSize(c, query, 0, k);
        keys[offset + rank] := Encoded(c, query, k);
        rank := rank + 1;
      }
    }
  }

  lemma VisibleInRange(c: Candidates, query: nat, k: nat)
    requires Encoded(c, query, k) >= 0
    ensures k < c.Count()
  {
  }

  /** Threads scan the candidates in blocks of `warps * lanes`; each thread's place is its warp's
      offset plus its rank. The list is the visible candidates, in order. */
  method Compact(c: Candidates, query: nat, warps: nat, lanes: nat) returns (list: seq<int>)
    requires 0 < warps && 0 < lanes
    ensures list == Kept(c, query, 0, c.Count())
  {
    hide Encoded;
    var keys := new int[c.Count()];
    var valid, base := 0, 0;
    while base < c.Count()
      invariant valid == |Kept(c, query, 0, base)| <= keys.Length
      invariant keys[..valid] == Kept(c, query, 0, base)
      decreases c.Count() - base
    {
      hide Kept;
      var counts := WarpCounts(c, query, base, warps, lanes);
      NextWarp(base, 0, lanes);
      for warp := 0 to warps
        invariant |Kept(c, query, 0, Lane0(base, warp, lanes))| <= keys.Length
        invariant keys[..|Kept(c, query, 0, Lane0(base, warp, lanes))|] == Kept(c, query, 0, Lane0(base, warp, lanes))
      {
        var offset := WarpOffset(c, query, base, warp, lanes, valid, counts);
        WarpWrites(c, query, Lane0(base, warp, lanes), lanes, offset, keys);
        NextWarp(base, warp, lanes);
      }
      valid := WarpOffset(c, query, base, warps, lanes, valid, counts);
      Modular.MulAtLeast(warps, lanes);
      base := Lane0(base, warps, lanes);
    }
    list := keys[..valid];
    KeptSplit(c, query, 0, c.Count(), base);
    PastTheEnd(c, query, base);
  }

  lemma PastTheEnd(c: Candidates, query: nat, hi: nat)
    requires c.Count() <= hi
    ensures Kept(c, query, c.Count(), hi) == []
  {
    KeptNone(c, query, c.Count(), hi);
  }

  // -- What a tile's query sees -----------------------------------------------------------------

  /** The candidates of a tile: the union rows in position order, and every entry committed by
      the chunk's last position, labelled by its boundary. */
  ghost predicate IsTile(c: Candidates, first: nat, last: nat, capacity: nat, ratio: nat, entries: nat) {
    && c.local.window == capacity && c.remote.window == 0
    && first <= last && |c.local.positions| == last - first + 1
    && (forall r :: 0 <= r < |c.local.positions| ==> c.local.positions[r] == first + r)
    && |c.remote.positions| == CommittedEntries(last, ratio, entries)
    && (forall i :: 0 <= i < |c.remote.positions| ==> c.remote.positions[i] == (i + 1) * ratio - 1)
  }

  /** An entry is visible to a query exactly when it is among those committed by then. */
  lemma CommittedVisible(i: nat, query: nat, ratio: nat)
    requires 0 < ratio
    ensures (i + 1) * ratio - 1 <= query <==> i < (query + 1) / ratio
    ensures 0 <= (i + 1) * ratio - 1
  {
    Modular.MulAtLeast(i + 1, ratio);
    if i < (query + 1) / ratio {
      EntryInStream(i, query + 1, ratio);
    } else {
      Modular.DivModOf(query + 1, ratio);
      var d := i - (query + 1) / ratio;
      assert d * ratio >= 0;
      assert (i + 1) * ratio == ((query + 1) / ratio) * ratio + d * ratio + ratio;
    }
  }

  /** The local half: precisely the query's own causal window, ascending. */
  lemma LocalSelection(c: Candidates, first: nat, last: nat, capacity: nat, ratio: nat, entries: nat, query: nat)
    requires IsTile(c, first, last, capacity, ratio, entries) && 0 < capacity
    requires first <= LocalRing.First(query, capacity) && query <= last
    ensures Kept(c, query, 0, |c.local.positions|) == Range(LocalRing.First(query, capacity) - first, query + 1 - first)
  {
    var a, b, n := LocalRing.First(query, capacity) - first, query + 1 - first, |c.local.positions|;
    KeptNone(c, query, 0, a);
    KeptAll(c, query, a, b);
    KeptNone(c, query, b, n);
    KeptSplit(c, query, 0, a, b);
    KeptSplit(c, query, 0, b, n);
  }

  lemma RemoteVisible(c: Candidates, first: nat, last: nat, capacity: nat, ratio: nat, entries: nat, query: nat, row: nat)
    requires IsTile(c, first, last, capacity, ratio, entries) && query <= last && row < |c.remote.positions|
    ensures Visible(c.remote, row, query) <==> row < CommittedEntries(query, ratio, entries)
  {
    Modular.DivMonotone(query + 1, last + 1, ratio);
    CommittedVisible(row, query, ratio);
  }

  lemma CommittedMonotone(query: nat, last: nat, ratio: nat, entries: nat)
    requires query <= last
    ensures CommittedEntries(query, ratio, entries) <= CommittedEntries(last, ratio, entries)
  {
    if ratio > 0 { Modular.DivMonotone(query + 1, last + 1, ratio); }
  }

  /** The compressed half: precisely the first `CommittedEntries(query)` rows, ascending. */
  lemma CompressedSelection(c: Candidates, first: nat, last: nat, capacity: nat, ratio: nat, entries: nat, query: nat)
    requires IsTile(c, first, last, capacity, ratio, entries) && c.picks.None? && query <= last
    ensures var n := |c.local.positions|;
      && n <= c.Count()
      && Kept(c, query, n, c.Count()) == Range(n, n + CommittedEntries(query, ratio, entries))
  {
    hide CommittedEntries, Visible, Kept;
    var n, m := |c.local.positions|, CommittedEntries(query, ratio, entries);
    CommittedMonotone(query, last, ratio, entries);
    forall k | n <= k < c.Count()
      ensures Encoded(c, query, k) == if k < n + m then k else -1
    {
      RemoteVisible(c, first, last, capacity, ratio, entries, query, k - n);
    }
    KeptAll(c, query, n, n + m);
    KeptNone(c, query, n + m, c.Count());
    KeptSplit(c, query, n, n + m, c.Count());
  }

  /** The rows a selection names, padding dropped. */
  ghost function Chosen(picks: seq<int>, n: nat): seq<int> {
    if picks == [] then []
    else Chosen(picks[..|picks| - 1], n) + if picks[|picks| - 1] < 0 then [] else [n + picks[|picks| - 1]]
  }

  /** A query's own selection of committed rows is kept as it is, in selection order. */
  lemma {:induction false} PicksSelection(c: Candidates, first: nat, last: nat, capacity: nat, ratio: nat, entries: nat, query: nat, k: nat)
    requires IsTile(c, first, last, capacity, ratio, entries) && c.picks.Some? && query <= last && k <= |c.picks.value|
    requires forall j :: 0 <= j < |c.picks.value| ==> c.picks.value[j] < CommittedEntries(query, ratio, entries)
    ensures var n := |c.local.positions|; Kept(c, query, n, n + k) == Chosen(c.picks.value[..k], n)
  {
    hide CommittedEntries, Visible;
    var n := |c.local.positions|;
    if k > 0 {
      PicksSelection(c, first, last, capacity, ratio, entries, query, k - 1);
      var row := c.picks.value[k - 1];
      CommittedMonotone(query, last, ratio, entries);
      if row >= 0 { RemoteVisible(c, first, last, capacity, ratio, entries, query, row); }
      assert c.picks.value[..k][..k - 1] == c.picks.value[..k - 1];
    }
  }

  /** Masking the shared tile gives each query its own window, then its own committed entries. */
  lemma TileSelectionExact(c: Candidates, first: nat, last: nat, capacity: nat, ratio: nat, entries: nat, query: nat)
    requires IsTile(c, first, last, capacity, ratio, entries) && c.picks.None? && 0 < capacity
    requires first <= LocalRing.First(query, capacity) && query <= last
    ensures var n := |c.local.positions|;
      Kept(c, query, 0, c.Count()) ==
        Range(LocalRing.First(query, capacity) - first, query + 1 - first)
        + Range(n, n + CommittedEntries(query, ratio, entries))
  {
    hide *;
    LocalSelection(c, first, last, capacity, ratio, entries, query);
    CompressedSelection(c, first, last, capacity, ratio, entries, query);
    KeptSplit(c, query, 0, |c.local.positions|, c.Count());
  }
}
