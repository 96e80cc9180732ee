/** Grouping a chunk's draws by expert: a histogram, its exclusive prefix sum, and a stable
    scatter. Draw `t * slots + s` is token `t`'s `s`-th routed expert. */
module ExpertPermutation {
  import Modular

  /** How many of the first `n` draws went to `e`. */
  ghost function Count(ids: seq<int>, e: int, n: nat): nat
    requires n <= |ids|
  {
    if n == 0 then 0 else Count(ids, e, n - 1) + if ids[n - 1] == e then 1 else 0
  }

  /** How many draws went to experts below `e`: where the expert's range begins. */
  ghost function Before(ids: seq<int>, e: nat): nat {
    if e == 0 then 0 else Before(ids, e - 1) + Count(ids, e - 1, |ids|)
  }

  /** Where the stable sort puts a draw: after all lower experts, after its expert's earlier draws. */
  ghost function Place(ids: seq<int>, d: nat): nat
    requires d < |ids| && 0 <= ids[d]
  {
    Before(ids, ids[d]) + Count(ids, ids[d], d)
  }

  lemma {:induction false} CountGrows(ids: seq<int>, e: int, a: nat, b: nat)
    requires a <= b <= |ids|
    ensures Count(ids, e, a) <= Count(ids, e, b)
    ensures a < b && ids[a] == e ==> Count(ids, e, a) < Count(ids, e, b)
  {
    if a < b { CountGrows(ids, e, a, b - 1); }
  }

  lemma {:induction false} BeforeGrows(ids: seq<int>, e: nat, f: nat)
    requires e <= f
    ensures Before(ids, e) <= Before(ids, f)
  {
    if e < f { BeforeGrows(ids, e, f - 1); }
  }

  /** A draw lands inside its own expert's range. */
  lemma PlaceInRange(ids: seq<int>, d: nat)
    requires d < |ids| && 0 <= ids[d]
    ensures Before(ids, ids[d]) <= Place(ids, d) < Before(ids, ids[d] + 1)
  {
    CountGrows(ids, ids[d], d, |ids|);
  }

  /** No two draws share a place, and draws of one expert keep their order. */
  lemma PlaceInjective(ids: seq<int>, d: nat, d': nat)
    requires d < d' < |ids| && 0 <= ids[d] && 0 <= ids[d']
    ensures Place(ids, d) != Place(ids, d')
    ensures ids[d] == ids[d'] ==> Place(ids, d) < Place(ids, d')
    ensures ids[d] < ids[d'] ==> Place(ids, d) < Place(ids, d')
    ensures ids[d] > ids[d'] ==> Place(ids, d) > Place(ids, d')
  {
    PlaceInRange(ids, d);
    PlaceInRange(ids, d');
    if ids[d] == ids[d'] {
      CountGrows(ids, ids[d], d, d');
    } else if ids[d] < ids[d'] {
      BeforeGrows(ids, ids[d] + 1, ids[d']);
    } else {
      BeforeGrows(ids, ids[d'] + 1, ids[d]);
    }
  }

  /** The draws below `n` that go to one of the first `e` experts. */
  ghost function CountBelow(ids: seq<int>, e: nat, n: nat): nat
    requires n <= |ids|
  {
    if e == 0 then 0 else CountBelow(ids, e - 1, n) + Count(ids, e - 1, n)
  }

  lemma {:induction false} CountBelowStep(ids: seq<int>, e: nat, n: nat)
    requires 0 < n <= |ids|
    ensures CountBelow(ids, e, n) == CountBelow(ids, e, n - 1) + if 0 <= ids[n - 1] < e then 1 else 0
  {
    if e > 0 { CountBelowStep(ids, e - 1, n); }
  }

  lemma {:induction false} CountBelowBound(ids: seq<int>, e: nat, n: nat)
    requires n <= |ids|
    ensures CountBelow(ids, e, n) <= n
    ensures (forall d :: 0 <= d < n ==> 0 <= ids[d] < e) ==> CountBelow(ids, e, n) == n
  {
    if n == 0 {
      NoneBelow(ids, e);
    } else {
      CountBelowBound(ids, e, n - 1);
      CountBelowStep(ids, e, n);
    }
  }

  lemma {:induction false} NoneBelow(ids: seq<int>, e: nat)
    ensures CountBelow(ids, e, 0) == 0
  {
    if e > 0 { NoneBelow(ids, e - 1); }
  }

  lemma {:induction false} BeforeIsBelow(ids: seq<int>, e: nat)
    ensures Before(ids, e) == CountBelow(ids, e, |ids|)
  {
    if e > 0 { BeforeIsBelow(ids, e - 1); }
  }

  /** The ranges fit the buffers, and fill them exactly when every id is in range. */
  lemma RangesFit(ids: seq<int>, e: nat)
    ensures Before(ids, e) <= |ids|
    ensures (forall d :: 0 <= d < |ids| ==> 0 <= ids[d] < e) ==> Before(ids, e) == |ids|
  {
    BeforeIsBelow(ids, e);
    CountBelowBound(ids, e, |ids|);
  }

  // -- The kernels ------------------------------------------------------------------------------

  /** An id outside the experts is dropped. */
  method Histogram(ids: seq<int>, experts: nat) returns (histogram: seq<nat>)
    ensures |histogram| == experts && forall e :: 0 <= e < experts ==> histogram[e] == Count(ids, e, |ids|)
  {
    histogram := seq(experts, _ => 0);
    for draw := 0 to |ids|
      invariant |histogram| == experts && forall e :: 0 <= e < experts ==> histogram[e] == Count(ids, e, draw)
    {
      var expert := ids[draw];
      if 0 <= expert < experts {
        histogram := histogram[expert := histogram[expert] + 1];
      }
    }
  }

  /** The histogram's exclusive prefix sum. */
  method Offsets(ids: seq<int>, experts: nat) returns (offsets: seq<nat>)
    ensures |offsets| == experts + 1
    ensures forall e :: 0 <= e <= experts ==> offsets[e] == Before(ids, e)
  {
    hide Count;
    var histogram := Histogram(ids, experts);
    var running := 0;
    offsets := [];
    for expert := 0 to experts
      invariant running == Before(ids, expert) && |offsets| == expert
      invariant forall e :: 0 <= e < expert ==> offsets[e] == Before(ids, e)
    {
      offsets := offsets + [running];
      running := running + histogram[expert];
    }
    offsets := offsets + [running];
  }

  /** What a filled position says: a draw, in its own place, and its token. */
  ghost predicate Placed(ids: seq<int>, slots: nat, token: int, draw: int, p: nat) {
    0 <= draw < |ids| && 0 <= ids[draw] && 0 < slots && token == draw / slots && Place(ids, draw) == p
  }

  ghost predicate Filled(ids: seq<int>, slots: nat, tokens: seq<int>, draws: seq<int>, n: nat) {
    && n <= |tokens| == |draws|
    && forall p :: 0 <= p < n ==> Placed(ids, slots, tokens[p], draws[p], p)
  }

  /** One block per expert walks the draws in order. */
  method ScatterExpert(ids: seq<int>, slots: nat, offsets: seq<nat>, expert: nat, tokens: array<int>, draws: array<int>)
    requires 0 < slots && tokens != draws && tokens.Length == draws.Length == |ids|
    requires expert + 1 < |offsets| && offsets[expert] == Before(ids, expert) && offsets[expert + 1] == Before(ids, expert + 1)
    requires Filled(ids, slots, tokens[..], draws[..], offsets[expert])
    modifies tokens, draws
    ensures Filled(ids, slots, tokens[..], draws[..], offsets[expert + 1])
  {
    hide Placed;
    var position, end := offsets[expert], offsets[expert + 1];
    RangesFit(ids, expert + 1);
    var draw := 0;
    while draw < |ids| && position < end
      invariant 0 <= draw <= |ids| && position == Before(ids, expert) + Count(ids, expert, draw) <= end
      invariant Filled(ids, slots, tokens[..], draws[..], position)
    {
      if ids[draw] == expert {
        CountGrows(ids, expert, draw + 1, |ids|);
        tokens[position] := draw / slots;
        draws[position] := draw;
        PlacedNow(ids, slots, draw, position);
        position := position + 1;
      }
      draw := draw + 1;
    }
  }

  lemma PlacedNow(ids: seq<int>, slots: nat, draw: nat, p: nat)
    requires draw < |ids| && 0 <= ids[draw] && 0 < slots && p == Place(ids, draw)
    ensures Placed(ids, slots, draw / slots, draw, p)
  {
  }

  /** Every position of every expert's range holds the draw the stable sort puts there. */
  method Scatter(ids: seq<int>, slots: nat, experts: nat, offsets: seq<nat>) returns (tokens: seq<int>, draws: seq<int>)
    requires 0 < slots && |offsets| == experts + 1
    requires forall e :: 0 <= e <= experts ==> offsets[e] == Before(ids, e)
    ensures |tokens| == |draws| == |ids| && Filled(ids, slots, tokens, draws, Before(ids, experts))
  {
    var t, d := new int[|ids|], new int[|ids|];
    for expert := 0 to experts
      invariant Filled(ids, slots, t[..], d[..], offsets[expert])
    {
      ScatterExpert(ids, slots, offsets, expert, t, d);
    }
    tokens, draws := t[..], d[..];
  }

  /** For in-range ids the scatter is a permutation of the draws: each draw sits in exactly one
      position, its place in the stable order. */
  lemma ScatterIsPermutation(ids: seq<int>, slots: nat, experts: nat, tokens: seq<int>, draws: seq<int>, d: nat)
    requires forall k :: 0 <= k < |ids| ==> 0 <= ids[k] < experts
    requires Filled(ids, slots, tokens, draws, Before(ids, experts)) && d < |ids|
    ensures Before(ids, experts) == |ids|
    ensures Place(ids, d) < |ids| && draws[Place(ids, d)] == d
    ensures forall p :: 0 <= p < |ids| && draws[p] == d ==> p == Place(ids, d)
  {
    RangesFit(ids, experts);
    PlaceInRange(ids, d);
    BeforeGrows(ids, ids[d] + 1, experts);
    var p := Place(ids, d);
    assert Placed(ids, slots, tokens[p], draws[p], p);
    if draws[p] < d { PlaceInjective(ids, draws[p], d); }
    if d < draws[p] { PlaceInjective(ids, d, draws[p]); }
    forall q | 0 <= q < |ids| && draws[q] == d ensures q == p {
      assert Placed(ids, slots, tokens[q], draws[q], q);
    }
  }

  /** Weights move from draw order to position order. */
  method GatherWeights<W(0)>(weights: seq<W>, draws: seq<int>, n: nat) returns (out: seq<W>)
    requires n <= |draws| && forall p :: 0 <= p < n ==> 0 <= draws[p] < |weights|
    ensures |out| == n && forall p :: 0 <= p < n ==> out[p] == weights[draws[p]]
  {
    out := [];
    for p := 0 to n
      invariant |out| == p && forall q :: 0 <= q < p ==> out[q] == weights[draws[q]]
    {
      out := out + [weights[draws[p]]];
    }
  }
}
