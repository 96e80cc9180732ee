/** The grouped expert batch: experts are launched in groups, each expert's rows in windows of
    tiles, and every draw's contribution is summed per token in slot order. */
module GroupedMoe {
  import Modular
  import opened ExpertPermutation

  /** Experts per launch. */
  const PER_LAUNCH: nat := 8
  /** Rows per matrix tile. */
  const TILE_ROWS: nat := 16

  /** A routed chunk. The two projections are functions of the expert and its operands; nothing
      is assumed of them, nor of the accumulation `add`. */
  datatype Chunk<!A, !H, !W, !C> = Chunk(
    ids: seq<int>, weights: seq<W>, inputs: seq<A>, slots: nat, experts: nat,
    gate: (int, A) -> H, down: (int, H, W) -> C)
  {
    ghost predicate Routed() {
      && 0 < slots && |ids| == |weights| == |inputs| * slots
      && forall d :: 0 <= d < |ids| ==> 0 <= ids[d] < experts
    }
  }

  lemma TokenOf(d: nat, tokens: nat, slots: nat)
    requires 0 < slots && d < tokens * slots
    ensures 0 <= d / slots < tokens
  {
    Modular.DivBelow(d, tokens, slots);
  }

  /** What one draw contributes on the per-token path. */
  ghost function Contribution<A, H, W, C>(c: Chunk<A, H, W, C>, d: nat): C
    requires c.Routed() && d < |c.ids|
  {
    TokenOf(d, |c.inputs|, c.slots);
    c.down(c.ids[d], c.gate(c.ids[d], c.inputs[d / c.slots]), c.weights[d])
  }

  /** Every draw placed below `p` has its own contribution, written once; the others are
      still unwritten. */
  ghost predicate Done<A(!new), H(!new), W(!new), C(!new)>(c: Chunk<A, H, W, C>, contrib: seq<C>, writes: seq<nat>, p: nat)
    requires c.Routed()
  {
    && |contrib| == |writes| == |c.ids|
    && forall d :: 0 <= d < |c.ids| ==> DrawDone(c, contrib[d], writes[d], d, p)
  }

  ghost predicate DrawDone<A(!new), H(!new), W(!new), C(!new)>(c: Chunk<A, H, W, C>, row: C, writes: nat, d: nat, p: nat)
    requires c.Routed() && d < |c.ids|
  {
    if Place(c.ids, d) < p then row == Contribution(c, d) && writes == 1 else writes == 0
  }

  /** Storing position `p`'s result completes exactly its own draw. */
  lemma DoneStep<A(!new), H(!new), W(!new), C(!new)>(c: Chunk<A, H, W, C>, contrib: seq<C>, writes: seq<nat>, p: nat, d: nat)
    requires c.Routed() && Done(c, contrib, writes, p) && d < |c.ids| && Place(c.ids, d) == p
    ensures Done(c, contrib[d := Contribution(c, d)], writes[d := writes[d] + 1], p + 1)
  {
    hide Contribution, Place;
    assert DrawDone(c, contrib[d], writes[d], d, p);
    forall k | 0 <= k < |c.ids| && k != d
      ensures DrawDone(c, contrib[k], writes[k], k, p + 1)
    {
      assert DrawDone(c, contrib[k], writes[k], k, p);
      if k < d { PlaceInjective(c.ids, k, d); } else { PlaceInjective(c.ids, d, k); }
    }
  }

  lemma DoneShape<A(!new), H(!new), W(!new), C(!new)>(c: Chunk<A, H, W, C>, contrib: seq<C>, writes: seq<nat>, p: nat)
    requires c.Routed() && Done(c, contrib, writes, p)
    ensures |contrib| == |writes| == |c.ids|
  {
  }

  /** The sorted chunk. */
  datatype Sorted<W> = Sorted(offsets: seq<nat>, tokens: seq<int>, draws: seq<int>, weights: seq<W>)

  ghost predicate PositionOk<A, H, W(!new), C>(c: Chunk<A, H, W, C>, s: Sorted<W>, p: nat) {
    && p < |s.tokens| && p < |s.draws| && p < |s.weights|
    && 0 <= s.draws[p] < |c.ids| && |c.ids| == |c.weights|
    && 0 <= c.ids[s.draws[p]] && Place(c.ids, s.draws[p]) == p
    && 0 < c.slots && s.tokens[p] == s.draws[p] / c.slots && 0 <= s.tokens[p] < |c.inputs|
    && s.weights[p] == c.weights[s.draws[p]]
  }

  ghost predicate IsSorted<A, H, W(!new), C>(c: Chunk<A, H, W, C>, s: Sorted<W>) {
    && |s.offsets| == c.experts + 1
    && (forall e :: 0 <= e <= c.experts ==> s.offsets[e] == Before(c.ids, e))
    && s.offsets[c.experts] == |c.ids|
    && forall p :: 0 <= p < |c.ids| ==> PositionOk(c, s, p)
  }

  /** A position in an expert's range holds one of that expert's draws. */
  lemma OwnerOf<A, H, W(!new), C>(c: Chunk<A, H, W, C>, s: Sorted<W>, e: nat, p: nat)
    requires IsSorted(c, s) && e < c.experts && s.offsets[e] <= p < s.offsets[e + 1]
    ensures s.offsets[e + 1] <= |c.ids| && PositionOk(c, s, p) && c.ids[s.draws[p]] == e
  {
    BeforeGrows(c.ids, e + 1, c.experts);
    var e' := e + 1;
    assert s.offsets[e'] == Before(c.ids, e') && s.offsets[c.experts] == Before(c.ids, c.experts);
    assert PositionOk(c, s, p);
    var x := c.ids[s.draws[p]];
    PlaceInRange(c.ids, s.draws[p]);
    if x < e { BeforeGrows(c.ids, x + 1, e); }
    if e < x { BeforeGrows(c.ids, e + 1, x); }
  }

  /** The gate half of position `p`. */
  ghost function HiddenRow<A, H, W(!new), C>(c: Chunk<A, H, W, C>, s: Sorted<W>, p: nat): H
    requires PositionOk(c, s, p)
  {
    c.gate(c.ids[s.draws[p]], c.inputs[s.tokens[p]])
  }

  /** The first `m` rows of an expert's slab are the gate results of its positions. */
  ghost predicate SlabDone<A, H(!new), W(!new), C>(c: Chunk<A, H, W, C>, s: Sorted<W>, hidden: seq<H>, base: nat, first: nat, m: nat) {
    && base + m <= |hidden|
    && forall p :: first <= p < first + m ==> PositionOk(c, s, p) && hidden[base + (p - first)] == HiddenRow(c, s, p)
  }

  function Capped(m: nat, count: nat): nat { if m < count then m else count }

  /** One tile of sixteen rows: slot and lane parity name a row, padding rows are computed from a
      row that exists and never stored. */
  method GateTile<A, H(!new), W(!new), C>(c: Chunk<A, H, W, C>, s: Sorted<W>, expert: nat, first: nat, count: nat,
                                          base: nat, m0: nat, hidden: array<H>)
    requires IsSorted(c, s) && expert < c.experts && first == s.offsets[expert] && first + count == s.offsets[expert + 1]
    requires 0 < count && base + count <= hidden.Length
    requires SlabDone(c, s, hidden[..], base, first, Capped(m0, count))
    modifies hidden
    ensures SlabDone(c, s, hidden[..], base, first, Capped(m0 + TILE_ROWS, count))
    ensures forall i :: 0 <= i < hidden.Length && !(base <= i < base + count) ==> hidden[i] == old(hidden[i])
  {
    OwnerOf(c, s, expert, first);
    var padRow := s.tokens[first];
    for slot := 0 to 8
      invariant SlabDone(c, s, hidden[..], base, first, Capped(m0 + 2 * slot, count))
      invariant forall i :: 0 <= i < hidden.Length && !(base <= i < base + count) ==> hidden[i] == old(hidden[i])
    {
      for parity := 0 to 2
        invariant SlabDone(c, s, hidden[..], base, first, Capped(m0 + 2 * slot + parity, count))
        invariant forall i :: 0 <= i < hidden.Length && !(base <= i < base + count) ==> hidden[i] == old(hidden[i])
      {
        var m := m0 + 2 * slot + parity;
        if m < count { OwnerOf(c, s, expert, first + m); }
        var row := if m < count then s.tokens[first + m] else padRow;
        var result := c.gate(expert, c.inputs[row]);
        if m < count {
          hidden[base + m] := result;
        }
      }
    }
  }

  /** An expert's rows in windows of `tiles` tiles. */
  method GateExpert<A, H(!new), W(!new), C>(c: Chunk<A, H, W, C>, s: Sorted<W>, expert: nat, first: nat, count: nat,
                                            base: nat, tiles: nat, hidden: array<H>)
    requires IsSorted(c, s) && expert < c.experts && first == s.offsets[expert] && first + count == s.offsets[expert + 1]
    requires 0 < tiles && base + count <= hidden.Length
    modifies hidden
    ensures SlabDone(c, s, hidden[..], base, first, count)
    ensures forall i :: 0 <= i < hidden.Length && !(base <= i < base + count) ==> hidden[i] == old(hidden[i])
  {
    hide IsSorted, PositionOk;
    var window := 0;
    while window < count
      invariant SlabDone(c, s, hidden[..], base, first, Capped(window, count))
      invariant forall i :: 0 <= i < hidden.Length && !(base <= i < base + count) ==> hidden[i] == old(hidden[i])
    {
      hide SlabDone;
      for tile := 0 to tiles
        invariant SlabDone(c, s, hidden[..], base, first, Capped(window + tile * TILE_ROWS, count))
        invariant forall i :: 0 <= i < hidden.Length && !(base <= i < base + count) ==> hidden[i] == old(hidden[i])
      {
        GateTile(c, s, expert, first, count, base, window + tile * TILE_ROWS, hidden);
      }
      window := window + tiles * TILE_ROWS;
    }
  }

  /** One down-projection tile: each stored row goes to its own draw. */
  method DownTile<A(!new), H(!new), W(!new), C(!new)>(c: Chunk<A, H, W, C>, s: Sorted<W>, expert: nat, first: nat, count: nat,
      base: nat, m0: nat, hidden: array<H>, contrib: array<C>, ghost writes: seq<nat>) returns (ghost writes': seq<nat>)
    requires c.Routed() && IsSorted(c, s) && expert < c.experts && first == s.offsets[expert] && first + count == s.offsets[expert + 1]
    requires 0 < count && (hidden as object) != contrib && SlabDone(c, s, hidden[..], base, first, count)
    requires Done(c, contrib[..], writes, first + Capped(m0, count))
    modifies contrib
    ensures Done(c, contrib[..], writes', first + Capped(m0 + TILE_ROWS, count))
  {
    hide IsSorted, Done, Place;
    writes' := writes;
    ghost var slab := hidden[..];
    for slot := 0 to 8
      invariant hidden[..] == slab && Done(c, contrib[..], writes', first + Capped(m0 + 2 * slot, count))
    {
      for parity := 0 to 2
        invariant hidden[..] == slab && Done(c, contrib[..], writes', first + Capped(m0 + 2 * slot + parity, count))
      {
        var m := m0 + 2 * slot + parity;
        if m < count {
          OwnerOf(c, s, expert, first + m);
          assert slab[base + m] == HiddenRow(c, s, first + m);
          var position := first + m;
          var draw := s.draws[position];
          ghost var was := contrib[..];
          DoneStep(c, contrib[..], writes', position, draw);
          DoneShape(c, contrib[..], writes', position);
          contrib[draw] := c.down(expert, hidden[base + m], s.weights[position]);
          writes' := writes'[draw := writes'[draw] + 1];
          assert contrib[..] == was[draw := contrib[draw]];
        }
      }
    }
  }

  method DownExpert<A(!new), H(!new), W(!new), C(!new)>(c: Chunk<A, H, W, C>, s: Sorted<W>, expert: nat, first: nat, count: nat,
      base: nat, tiles: nat, hidden: array<H>, contrib: array<C>, ghost writes: seq<nat>) returns (ghost writes': seq<nat>)
    requires c.Routed() && IsSorted(c, s) && expert < c.experts && first == s.offsets[expert] && first + count == s.offsets[expert + 1]
    requires 0 < tiles && (hidden as object) != contrib && SlabDone(c, s, hidden[..], base, first, count)
    requires Done(c, contrib[..], writes, first)
    modifies contrib
    ensures Done(c, contrib[..], writes', first + count)
  {
    hide IsSorted, Done, SlabDone;
    writes' := writes;
    ghost var slab := hidden[..];
    var window := 0;
    while window < count
      invariant hidden[..] == slab && Done(c, contrib[..], writes', first + Capped(window, count))
    {
      for tile := 0 to tiles
        invariant hidden[..] == slab && Done(c, contrib[..], writes', first + Capped(window + tile * TILE_ROWS, count))
      {
        writes' := DownTile(c, s, expert, first, count, base, window + tile * TILE_ROWS, hidden, contrib, writes');
      }
      window := window + tiles * TILE_ROWS;
    }
  }

  // -- One launch -------------------------------------------------------------------------------

  function Slab(j: nat, stride: nat): nat { j * stride }

  lemma SlabsApart(j: nat, k: nat, stride: nat)
    requires j < k
    ensures Slab(j, stride) + stride <= Slab(k, stride)
  {
    Modular.MulAtLeast(k - j, stride);
    assert k * stride == j * stride + (k - j) * stride;
  }

  /** The launch's `j`-th expert has its slab filled. */
  ghost predicate SlabAt<A, H(!new), W(!new), C>(c: Chunk<A, H, W, C>, s: Sorted<W>, hidden: seq<H>, base: nat, stride: nat, j: nat) {
    && base + j + 1 < |s.offsets| && s.offsets[base + j] <= s.offsets[base + j + 1]
    && SlabDone(c, s, hidden, Slab(j, stride), s.offsets[base + j], s.offsets[base + j + 1] - s.offsets[base + j])
  }

  lemma SlabKept<A, H(!new), W(!new), C>(c: Chunk<A, H, W, C>, s: Sorted<W>, hidden: seq<H>, hidden': seq<H>, base: nat, stride: nat, j: nat, k: nat)
    requires SlabAt(c, s, hidden, base, stride, j) && j < k && |hidden'| == |hidden|
    requires s.offsets[base + j + 1] - s.offsets[base + j] <= stride
    requires forall i :: 0 <= i < |hidden| && i < Slab(k, stride) ==> hidden'[i] == hidden[i]
    ensures SlabAt(c, s, hidden', base, stride, j)
  {
    SlabsApart(j, k, stride);
  }

  /** No expert of the sorted chunk is wider than `widest`. */
  ghost predicate Fits<W>(s: Sorted<W>, widest: nat) {
    forall e :: 0 <= e < |s.offsets| - 1 ==> Width(s, e) <= widest
  }

  ghost function Width<W>(s: Sorted<W>, e: nat): int
    requires e + 1 < |s.offsets|
  {
    s.offsets[e + 1] as int - s.offsets[e] as int
  }

  lemma OffsetsGrow<A, H, W(!new), C>(c: Chunk<A, H, W, C>, s: Sorted<W>, e: nat, f: nat)
    requires IsSorted(c, s) && e <= f <= c.experts
    ensures s.offsets[e] <= s.offsets[f] <= |c.ids|
  {
    BeforeGrows(c.ids, e, f);
    BeforeGrows(c.ids, f, c.experts);
  }

  /** The gate half of one launch over rebased offsets; its pointer table has eight entries. */
  method GateLaunch<A, H(!new), W(!new), C>(c: Chunk<A, H, W, C>, s: Sorted<W>, base: nat, rebased: seq<int>, table: seq<nat>,
      shift: nat, widest: nat, tiles: nat, hidden: array<H>)
    requires IsSorted(c, s) && Fits(s, widest) && 0 < tiles && 0 < |table| && base + |table| <= c.experts
    requires |rebased| == |table| + 1 && |table| <= 8 && Slab(|table|, widest) <= hidden.Length
    requires forall j :: 0 <= j < |rebased| ==> rebased[j] + shift == s.offsets[base + j]
    requires forall j :: 0 <= j < |table| ==> table[j] == base + j
    modifies hidden
    ensures forall j :: 0 <= j < |table| ==> SlabAt(c, s, hidden[..], base, widest, j)
  {
    hide IsSorted, SlabDone, Fits, Slab;
    for j := 0 to |table|
      invariant forall k :: 0 <= k < j ==> SlabAt(c, s, hidden[..], base, widest, k)
    {
      LaunchFacts(c, s, base, j, widest);
      SlabsApart(j, |table|, widest);
      var first, count := shift + rebased[j], rebased[j + 1] - rebased[j];
      ghost var was := hidden[..];
      GateExpert(c, s, table[j], first, count, Slab(j, widest), tiles, hidden);
      forall k | 0 <= k < j ensures SlabAt(c, s, hidden[..], base, widest, k) {
        LaunchFacts(c, s, base, k, widest);
        SlabKept(c, s, was, hidden[..], base, widest, k, j);
      }
    }
  }

  lemma LaunchFacts<A, H, W(!new), C>(c: Chunk<A, H, W, C>, s: Sorted<W>, base: nat, j: nat, widest: nat)
    requires IsSorted(c, s) && Fits(s, widest) && base + j < c.experts
    ensures |s.offsets| == c.experts + 1
    ensures s.offsets[base + j] <= s.offsets[base + j + 1] <= s.offsets[base + j] + widest
    ensures s.offsets[base + j + 1] <= |c.ids|
  {
    OffsetsGrow(c, s, base + j, base + j + 1);
    assert Width(s, base + j) <= widest;
  }

  /** The down half: the launch's positions are all done after it. */
  method DownLaunch<A(!new), H(!new), W(!new), C(!new)>(c: Chunk<A, H, W, C>, s: Sorted<W>, base: nat, rebased: seq<int>, table: seq<nat>,
      shift: nat, widest: nat, tiles: nat, hidden: array<H>, contrib: array<C>, ghost writes: seq<nat>) returns (ghost writes': seq<nat>)
    requires c.Routed() && IsSorted(c, s) && Fits(s, widest) && 0 < tiles && 0 < |table| && base + |table| <= c.experts
    requires |rebased| == |table| + 1 && |table| <= 8 && (hidden as object) != contrib
    requires forall j :: 0 <= j < |rebased| ==> rebased[j] + shift == s.offsets[base + j]
    requires forall j :: 0 <= j < |table| ==> table[j] == base + j
    requires forall j :: 0 <= j < |table| ==> SlabAt(c, s, hidden[..], base, widest, j)
    requires Done(c, contrib[..], writes, s.offsets[base])
    modifies contrib
    ensures Done(c, contrib[..], writes', s.offsets[base + |table|])
  {
    hide IsSorted, SlabDone, Fits, Slab, Done;
    writes' := writes;
    ghost var slabs := hidden[..];
    LaunchFacts(c, s, base, 0, widest);
    for j := 0 to |table|
      invariant hidden[..] == slabs && Done(c, contrib[..], writes', s.offsets[base + j])
    {
      LaunchFacts(c, s, base, j, widest);
      assert SlabAt(c, s, hidden[..], base, widest, j);
      var first, count := shift + rebased[j], rebased[j + 1] - rebased[j];
      writes' := DownExpert(c, s, table[j], first, count, Slab(j, widest), tiles, hidden, contrib, writes');
    }
  }

  // -- The whole batch --------------------------------------------------------------------------

  method Sort<A, H, W(0, !new), C>(c: Chunk<A, H, W, C>) returns (s: Sorted<W>)
    requires c.Routed()
    ensures IsSorted(c, s)
  {
    var offsets := Offsets(c.ids, c.experts);
    var tokens, draws := Scatter(c.ids, c.slots, c.experts, offsets);
    RangesFit(c.ids, c.experts);
    hide Place, Before;
    assert forall p :: 0 <= p < |c.ids| ==> Placed(c.ids, c.slots, tokens[p], draws[p], p);
    var weights := GatherWeights(c.weights, draws, |c.ids|);
    s := Sorted(offsets, tokens, draws, weights);
    forall p | 0 <= p < |c.ids| ensures PositionOk(c, s, p) {
      TokenOf(draws[p], |c.inputs|, c.slots);
    }
  }

  method Widest<W(!new)>(s: Sorted<W>) returns (widest: nat)
    requires |s.offsets| > 0
    ensures Fits(s, widest) && widest >= 1
    ensures widest == 1 || exists e :: 0 <= e < |s.offsets| - 1 && Width(s, e) == widest
  {
    widest := 1;
    for e := 0 to |s.offsets| - 1
      invariant widest >= 1 && forall k :: 0 <= k < e ==> Width(s, k) <= widest
      invariant widest == 1 || exists k :: 0 <= k < e && Width(s, k) == widest
    {
      var count := s.offsets[e + 1] as int - s.offsets[e] as int;
      assert count == Width(s, e);
      if count > widest { widest := count; }
    }
  }

  /** One launch: skipped when its experts own no draw, else both kernels over rebased offsets. */
  method Launch<A(!new), H(!new), W(!new), C(!new)>(c: Chunk<A, H, W, C>, s: Sorted<W>, base: nat, batch: nat, widest: nat, tiles: nat,
      hidden: array<H>, contrib: array<C>, ghost writes: seq<nat>) returns (ghost writes': seq<nat>)
    requires c.Routed() && IsSorted(c, s) && Fits(s, widest) && 0 < tiles && 0 < batch <= 8 && base + batch <= c.experts
    requires (hidden as object) != contrib && Slab(batch, widest) <= hidden.Length
    requires Done(c, contrib[..], writes, s.offsets[base])
    modifies hidden, contrib
    ensures Done(c, contrib[..], writes', s.offsets[base + batch])
  {
    hide IsSorted, Done, Slab, SlabAt, Fits;
    LaunchFacts(c, s, base, 0, widest);
    writes' := writes;
    if s.offsets[base] == s.offsets[base + batch] { return; }
    var shift := s.offsets[base];
    var rebased: seq<int>, table: seq<nat> := [], [];
    for j := 0 to batch
      invariant |rebased| == |table| == j
      invariant forall k :: 0 <= k < j ==> rebased[k] + shift == s.offsets[base + k]
      invariant forall k :: 0 <= k < j ==> table[k] == base + k
    {
      rebased := rebased + [s.offsets[base + j] as int - shift as int];
      table := table + [base + j];
    }
    rebased := rebased + [s.offsets[base + batch] as int - shift as int];
    ghost var rows := contrib[..];
    GateLaunch(c, s, base, rebased, table, shift, widest, tiles, hidden);
    assert contrib[..] == rows;
    writes' := DownLaunch(c, s, base, rebased, table, shift, widest, tiles, hidden, contrib, writes');
  }

  /** The per-token path: shared output first, then the token's slots in order. */
  ghost function PerToken<A, H, W, C, O>(c: Chunk<A, H, W, C>, add: (O, C) -> O, shared: O, token: nat, k: nat): O
    requires c.Routed() && token < |c.inputs| && k <= c.slots
  {
    if k == 0 then shared
    else
      SlotInChunk(token, k - 1, |c.inputs|, c.slots);
      var d := token * c.slots + (k - 1);
      add(PerToken(c, add, shared, token, k - 1),
          c.down(c.ids[d], c.gate(c.ids[d], c.inputs[token]), c.weights[d]))
  }

  lemma SlotInChunk(token: nat, slot: nat, tokens: nat, slots: nat)
    requires token < tokens && slot < slots
    ensures 0 <= token * slots + slot < tokens * slots && (token * slots + slot) / slots == token
  {
    Modular.DivModUnique(token * slots + slot, slots, token, slot);
    Modular.MulAtLeast(tokens - token, slots);
    assert tokens * slots == token * slots + (tokens - token) * slots;
    Modular.MulSign(token, slots);
  }

  /** The fixed-order reduce of one token. */
  method Reduce<A(!new), H(!new), W(!new), C(!new), O(!new)>(c: Chunk<A, H, W, C>, contrib: seq<C>, add: (O, C) -> O, shared: O, token: nat,
      ghost writes: seq<nat>) returns (out: O)
    requires c.Routed() && token < |c.inputs| && Done(c, contrib, writes, |c.ids|)
    ensures out == PerToken(c, add, shared, token, c.slots)
  {
    hide Done;
    out := shared;
    for slot := 0 to c.slots
      invariant out == PerToken(c, add, shared, token, slot)
    {
      SlotInChunk(token, slot, |c.inputs|, c.slots);
      var d := token * c.slots + slot;
      AllPlaced(c, contrib, writes, d);
      out := add(out, contrib[d]);
    }
  }

  /** When every position is done, every draw is. */
  lemma AllPlaced<A(!new), H(!new), W(!new), C(!new)>(c: Chunk<A, H, W, C>, contrib: seq<C>, writes: seq<nat>, d: nat)
    requires c.Routed() && Done(c, contrib, writes, |c.ids|) && d < |c.ids|
    ensures |contrib| == |writes| == |c.ids| && contrib[d] == Contribution(c, d) && writes[d] == 1
  {
    hide Contribution, Place;
    PlaceInRange(c.ids, d);
    BeforeGrows(c.ids, c.ids[d] + 1, c.experts);
    RangesFit(c.ids, c.experts);
    assert DrawDone(c, contrib[d], writes[d], d, |c.ids|);
  }

  lemma NoneDone<A(!new), H(!new), W(!new), C(!new)>(c: Chunk<A, H, W, C>, contrib: seq<C>, writes: seq<nat>)
    requires c.Routed() && |contrib| == |writes| == |c.ids| && forall d :: 0 <= d < |writes| ==> writes[d] == 0
    ensures Done(c, contrib, writes, 0)
  {
  }

  /** Every launch in turn: afterwards every draw is done. */
  method LaunchAll<A(!new), H(0, !new), W(!new), C(!new)>(c: Chunk<A, H, W, C>, s: Sorted<W>, widest: nat, hiddenTokens: nat, tiles: nat,
      contrib: array<C>) returns (ghost writes: seq<nat>)
    requires c.Routed() && IsSorted(c, s) && Fits(s, widest) && widest <= hiddenTokens && 0 < tiles
    requires contrib.Length == |c.ids|
    modifies contrib
    ensures Done(c, contrib[..], writes, |c.ids|)
  {
    hide IsSorted, Fits, Slab, Done;
    var hidden := NewSlabs<H>(hiddenTokens, widest);
    writes := seq(|c.ids|, _ => 0);
    NoneDone(c, contrib[..], writes);
    StartOffset(c, s);
    var base := 0;
    while base < c.experts
      invariant 0 <= base <= c.experts && Done(c, contrib[..], writes, s.offsets[base])
      decreases c.experts - base
    {
      var batch := if PER_LAUNCH < c.experts - base then PER_LAUNCH else c.experts - base;
      SlabRoom(batch, widest);
      writes := Launch(c, s, base, batch, widest, tiles, hidden, contrib, writes);
      base := base + batch;
    }
    EndOffset(c, s);
  }

  /** No expert has more draws than the scratch has rows. */
  ghost predicate Admitted(ids: seq<int>, experts: nat, hiddenTokens: nat) {
    1 <= hiddenTokens && forall e :: 0 <= e < experts ==> Count(ids, e, |ids|) <= hiddenTokens
  }

  lemma WidestDecides<A, H, W(!new), C>(c: Chunk<A, H, W, C>, s: Sorted<W>, widest: nat, hiddenTokens: nat)
    requires IsSorted(c, s) && Fits(s, widest) && widest >= 1
    requires widest == 1 || exists e :: 0 <= e < |s.offsets| - 1 && Width(s, e) == widest
    ensures Admitted(c.ids, c.experts, hiddenTokens) <==> widest <= hiddenTokens
  {
    hide IsSorted, Width;
    WidthIsCount(c, s);
  }

  /** The grouped batch equals the per-token path on every token, each contribution row having
      exactly one writer; a chunk whose widest expert exceeds the scratch is refused. */
  method RunGrouped<A(!new), H(0, !new), W(0, !new), C(!new), O(!new)>(c: Chunk<A, H, W, C>, add: (O, C) -> O, shared: seq<O>,
      hiddenTokens: nat, tiles: nat, contrib: array<C>) returns (ok: bool, out: seq<O>, ghost writes: seq<nat>)
    requires c.Routed() && |shared| == |c.inputs| && 0 < tiles && contrib.Length == |c.ids|
    modifies contrib
    ensures ok <==> |c.inputs| == 0 || Admitted(c.ids, c.experts, hiddenTokens)
    ensures ok ==> |out| == |c.inputs| && forall t :: 0 <= t < |out| ==> out[t] == PerToken(c, add, shared[t], t, c.slots)
    ensures ok && |c.inputs| > 0 ==> |writes| == |c.ids| && forall d :: 0 <= d < |c.ids| ==> writes[d] == 1
  {
    hide Done, IsSorted, Fits, Admitted, Width;
    if |c.inputs| == 0 { return true, [], []; }
    var s := Sort(c);
    StartOffset(c, s);
    var widest := Widest(s);
    WidestDecides(c, s, widest, hiddenTokens);
    if widest > hiddenTokens { return false, [], []; }
    writes := LaunchAll(c, s, widest, hiddenTokens, tiles, contrib);
    var rows := contrib[..];
    ok, out := true, [];
    for token := 0 to |c.inputs|
      invariant |out| == token && forall t :: 0 <= t < token ==> out[t] == PerToken(c, add, shared[t], t, c.slots)
    {
      var o := Reduce(c, rows, add, shared[token], token, writes);
      out := out + [o];
    }
    DoneShape(c, rows, writes, |c.ids|);
    forall d | 0 <= d < |c.ids| ensures writes[d] == 1 {
      AllPlaced(c, rows, writes, d);
    }
  }

  lemma StartOffset<A, H, W(!new), C>(c: Chunk<A, H, W, C>, s: Sorted<W>)
    requires IsSorted(c, s)
    ensures |s.offsets| == c.experts + 1 && s.offsets[0] == 0
  {
  }

  lemma EndOffset<A, H, W(!new), C>(c: Chunk<A, H, W, C>, s: Sorted<W>)
    requires IsSorted(c, s)
    ensures |s.offsets| == c.experts + 1 && s.offsets[c.experts] == |c.ids|
  {
  }

  lemma WidthIsCount<A, H, W(!new), C>(c: Chunk<A, H, W, C>, s: Sorted<W>)
    requires IsSorted(c, s)
    ensures |s.offsets| == c.experts + 1
    ensures forall e :: 0 <= e < c.experts ==> Width(s, e) == Count(c.ids, e, |c.ids|)
  {
    hide PositionOk;
    forall e | 0 <= e < c.experts ensures Width(s, e) == Count(c.ids, e, |c.ids|) {
      var e' := e + 1;
      assert s.offsets[e'] == Before(c.ids, e');
    }
  }

  lemma SlabRoom(batch: nat, widest: nat)
    requires batch <= PER_LAUNCH
    ensures Slab(batch, widest) <= Slab(PER_LAUNCH, widest)
  {
    if batch < PER_LAUNCH { SlabsApart(batch, PER_LAUNCH, widest); }
  }

  /** Scratch for one launch: a slab of `hiddenTokens` rows per expert. */
  method NewSlabs<H(0)>(hiddenTokens: nat, ghost widest: nat) returns (hidden: array<H>)
    requires widest <= hiddenTokens
    ensures fresh(hidden) && Slab(PER_LAUNCH, widest) <= hidden.Length
  {
    Modular.MulSign(PER_LAUNCH, hiddenTokens);
    hidden := new H[PER_LAUNCH * hiddenTokens];
  }
}
