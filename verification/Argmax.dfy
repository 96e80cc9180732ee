/** The largest logit, ties to the lower index: the scalar scan and the two-phase device scan.
    A logit is finite or minus infinity; not-a-number and plus infinity are excluded. */
module Argmax {
  import Modular

  datatype Logit = NegInf | Finite(value: real)

  predicate Above(a: Logit, b: Logit) {
    a.Finite? && (b.NegInf? || a.value > b.value)
  }

  ghost predicate HasFinite(xs: seq<Logit>) {
    exists i :: 0 <= i < |xs| && xs[i].Finite?
  }

  /** The greedy answer: finite, above every earlier logit, and below no later one. */
  ghost predicate IsArgmax(xs: seq<Logit>, k: nat) {
    && k < |xs| && xs[k].Finite?
    && (forall i :: 0 <= i < k ==> Above(xs[k], xs[i]))
    && (forall i :: k <= i < |xs| ==> !Above(xs[i], xs[k]))
  }

  lemma ArgmaxUnique(xs: seq<Logit>, j: nat, k: nat)
    requires IsArgmax(xs, j) && IsArgmax(xs, k)
    ensures j == k
  {
  }

  /** `argmax_of`; with no finite logit it answers 0. */
  method ArgmaxOf(xs: seq<Logit>) returns (best: nat)
    ensures HasFinite(xs) ==> IsArgmax(xs, best)
    ensures !HasFinite(xs) ==> best == 0
  {
    best := 0;
    var i := 1;
    while i < |xs|
      invariant best < i
      invariant best < |xs| ==>
        && (forall j :: 0 <= j < best ==> Above(xs[best], xs[j]))
        && (forall j :: best <= j < i && j < |xs| ==> !Above(xs[j], xs[best]))
      invariant best > 0 ==> best < |xs| && xs[best].Finite?
    {
      if Above(xs[i], xs[best]) { best := i; }
      i := i + 1;
    }
  }

  // -- The device scan --------------------------------------------------------------------------

  /** A value and where it came from; an index of at least `|xs|` marks that nothing was found. */
  datatype Found = Found(value: Logit, index: nat)

  /** The best of a set of positions. */
  ghost predicate BestOf(xs: seq<Logit>, f: Found, s: set<nat>) {
    if f.value.NegInf? then
      f.index >= |xs| && forall i :: i in s && i < |xs| ==> xs[i].NegInf?
    else
      && f.index in s && f.index < |xs| && f.value == xs[f.index]
      && forall i :: i in s && i < |xs| ==> !Above(xs[i], f.value) && (xs[i] == f.value ==> f.index <= i)
  }

  predicate Beats(a: Found, b: Found) {
    Above(a.value, b.value) || (a.value == b.value && a.index < b.index)
  }

  function Pick(mine: Found, other: Found): Found { if Beats(other, mine) then other else mine }

  /** Combining two winners gives the winner of both sets. */
  lemma PickBest(xs: seq<Logit>, a: Found, b: Found, s: set<nat>, t: set<nat>)
    requires BestOf(xs, a, s) && BestOf(xs, b, t)
    ensures BestOf(xs, Pick(a, b), s + t)
  {
    forall i | i in s + t && i < |xs|
      ensures xs[i].Finite? ==> Pick(a, b).value.Finite? && !Above(xs[i], Pick(a, b).value)
                                && (xs[i] == Pick(a, b).value ==> Pick(a, b).index <= i)
    {
      if i in s { assert xs[i].NegInf? || !Above(xs[i], a.value); }
      if i in t { assert xs[i].NegInf? || !Above(xs[i], b.value); }
    }
  }

  /** One thread's strided scan: strictly greater wins, so the lowest index of a tie stays. */
  method ThreadScan(xs: seq<Logit>, t: nat, stride: nat) returns (f: Found, ghost seen: set<nat>)
    requires t < stride
    ensures BestOf(xs, f, seen)
    ensures forall i: nat :: i in seen <==> i < |xs| && i % stride == t
  {
    f, seen := Found(NegInf, |xs|), {};
    Modular.ModSmall(t, stride);
    var i := t;
    NoneBefore(t, t, stride);
    while i < |xs|
      invariant i % stride == t && BestOf(xs, f, seen)
      invariant forall j: nat :: j in seen <==> j < i && j < |xs| && j % stride == t
    {
      if Above(xs[i], f.value) { f := Found(xs[i], i); }
      seen := seen + {i};
      NextStop(i, t, stride);
      i := i + stride;
    }
  }

  lemma NoneBefore(t: nat, n: nat, stride: nat)
    requires n <= t < stride
    ensures forall j: nat :: j < n ==> j % stride != t
  {
    forall j: nat | j < n ensures j % stride != t { Modular.ModSmall(j, stride); }
  }

  lemma NextStop(i: nat, t: nat, stride: nat)
    requires t < stride && i % stride == t
    ensures (i + stride) % stride == t
    ensures forall j: nat :: i < j < i + stride ==> j % stride != t
  {
    Modular.ModAdd(i, stride);
    forall j: nat | i < j < i + stride ensures j % stride != t { Modular.ModDistinct(i, j, stride); }
  }

  // -- Tree reduction ---------------------------------------------------------------------------

  ghost predicate PowerOfTwo(n: nat)
  {
    n == 1 || (n > 1 && n % 2 == 0 && PowerOfTwo(n / 2))
  }

  ghost predicate AllBest(xs: seq<Logit>, fs: seq<Found>, owners: seq<set<nat>>) {
    |fs| == |owners| && forall t :: 0 <= t < |fs| ==> BestOf(xs, fs[t], owners[t])
  }

  /** Everything any owner has. */
  ghost function Join(owners: seq<set<nat>>): set<nat> {
    set b, i | 0 <= b < |owners| && i in owners[b] :: i
  }

  /** One round: thread `tid` takes the better of its own and its partner's find. */
  method Halve(xs: seq<Logit>, fs: seq<Found>, ghost owners: seq<set<nat>>) returns (out: seq<Found>, ghost owners': seq<set<nat>>)
    requires AllBest(xs, fs, owners) && |fs| % 2 == 0
    ensures |out| == |fs| / 2 && AllBest(xs, out, owners') && Join(owners') == Join(owners)
  {
    hide BestOf, Pick;
    var s := |fs| / 2;
    out, owners' := [], [];
    for tid := 0 to s
      invariant |out| == |owners'| == tid && AllBest(xs, out, owners')
      invariant forall b :: 0 <= b < tid ==> owners'[b] == owners[b] + owners[b + s]
    {
      PickBest(xs, fs[tid], fs[tid + s], owners[tid], owners[tid + s]);
      out := out + [Pick(fs[tid], fs[tid + s])];
      owners' := owners' + [owners[tid] + owners[tid + s]];
    }
    JoinHalves(owners, owners', s);
  }

  lemma JoinHalves(owners: seq<set<nat>>, halves: seq<set<nat>>, s: nat)
    requires |owners| == 2 * s && |halves| == s && forall b :: 0 <= b < s ==> halves[b] == owners[b] + owners[b + s]
    ensures Join(halves) == Join(owners)
  {
    forall i | i in Join(owners) ensures i in Join(halves) {
      var b :| 0 <= b < |owners| && i in owners[b];
      var h := if b < s then b else b - s;
      assert halves[h] == owners[h] + owners[h + s];
    }
    forall i | i in Join(halves) ensures i in Join(owners) {
      var b :| 0 <= b < |halves| && i in halves[b];
      assert i in owners[b] || i in owners[b + s];
    }
  }

  /** The block's tree: halve until one find is left. */
  method TreeReduce(xs: seq<Logit>, fs: seq<Found>, ghost owners: seq<set<nat>>) returns (f: Found)
    requires AllBest(xs, fs, owners) && PowerOfTwo(|fs|)
    ensures BestOf(xs, f, Join(owners))
  {
    var cur := fs;
    ghost var own := owners;
    while |cur| > 1
      invariant AllBest(xs, cur, own) && PowerOfTwo(|cur|) && Join(own) == Join(owners)
      decreases |cur|
    {
      cur, own := Halve(xs, cur, own);
    }
    f := cur[0];
    assert Join(own) == own[0];
  }

  // -- Two phases -------------------------------------------------------------------------------

  const INT_MAX: nat := 0x7fff_ffff

  /** Phase one, one block: each thread's scan, then the tree. */
  method BlockPartial(xs: seq<Logit>, block: nat, threads: nat, stride: nat) returns (f: Found, ghost seen: set<nat>)
    requires PowerOfTwo(threads) && block * threads + threads <= stride
    ensures BestOf(xs, f, seen)
    ensures forall i: nat :: i < |xs| && block * threads <= i % stride < block * threads + threads ==> i in seen
  {
    hide BestOf;
    Modular.MulSign(block, threads);
    var first := block * threads;
    var fs: seq<Found> := [];
    ghost var owners: seq<set<nat>> := [];
    for tid := 0 to threads
      invariant |fs| == tid && AllBest(xs, fs, owners)
      invariant forall t, i: nat :: 0 <= t < tid && i < |xs| && i % stride == first + t ==> i in owners[t]
    {
      var mine, mySeen := ThreadScan(xs, first + tid, stride);
      fs, owners := fs + [mine], owners + [mySeen];
    }
    f := TreeReduce(xs, fs, owners);
    seen := Join(owners);
    forall i: nat | i < |xs| && first <= i % stride < first + threads ensures i in seen {
      var t := i % stride - first;
      assert i in owners[t];
    }
  }

  /** Phase two, one thread: the best of the partials it visits. */
  method ScanPartials(xs: seq<Logit>, fs: seq<Found>, ghost owners: seq<set<nat>>, t: nat, stride: nat)
      returns (f: Found, ghost seen: set<nat>)
    requires t < stride && AllBest(xs, fs, owners) && |xs| <= INT_MAX
    ensures BestOf(xs, f, seen)
    ensures forall b: nat :: b < |fs| && b % stride == t ==> owners[b] <= seen
  {
    hide Above;
    f, seen := Found(NegInf, INT_MAX), {};
    Modular.ModSmall(t, stride);
    NoneBefore(t, t, stride);
    var b := t;
    while b < |fs|
      invariant b % stride == t && BestOf(xs, f, seen)
      invariant forall c: nat :: c < b && c < |fs| && c % stride == t ==> owners[c] <= seen
    {
      hide BestOf;
      PickBest(xs, f, fs[b], seen, owners[b]);
      f := Pick(f, fs[b]);
      seen := seen + owners[b];
      NextStop(b, t, stride);
      b := b + stride;
    }
  }

  /** The two launches together: the scalar rule's answer whenever a finite logit exists; with
      none, an index outside the vocabulary. */
  method DeviceArgmax(xs: seq<Logit>, blocks: nat, threads: nat) returns (best: nat)
    requires 0 < blocks && PowerOfTwo(threads) && |xs| <= INT_MAX
    ensures HasFinite(xs) ==> IsArgmax(xs, best)
    ensures !HasFinite(xs) ==> best >= |xs|
  {
    hide BestOf;
    var stride := blocks * threads;
    var partials: seq<Found> := [];
    ghost var owners: seq<set<nat>> := [];
    for block := 0 to blocks
      invariant |partials| == block && AllBest(xs, partials, owners)
      invariant forall c: nat, i: nat :: c < block && InBlock(xs, i, c, threads, stride) ==> i in owners[c]
    {
      BlockFits(block, blocks, threads);
      var f, seen := BlockPartial(xs, block, threads, stride);
      partials, owners := partials + [f], owners + [seen];
    }
    var fs: seq<Found> := [];
    ghost var all: seq<set<nat>> := [];
    for tid := 0 to threads
      invariant |fs| == tid && AllBest(xs, fs, all)
      invariant forall t: nat, b: nat :: t < tid && b < |partials| && b % threads == t ==> owners[b] <= all[t]
    {
      var f, seen := ScanPartials(xs, partials, owners, tid, threads);
      fs, all := fs + [f], all + [seen];
    }
    var winner := TreeReduce(xs, fs, all);
    forall i: nat | i < |xs| ensures i in Join(all) {
      var c := OwningBlock(xs, i, blocks, threads);
      Modular.DivModOf(c, threads);
      assert owners[c] <= all[c % threads];
    }
    BestIsArgmax(xs, winner, Join(all));
    return winner.index;
  }

  ghost predicate InBlock(xs: seq<Logit>, i: nat, block: nat, threads: nat, stride: nat) {
    i < |xs| && 0 < stride && block * threads <= i % stride < block * threads + threads
  }

  lemma BlockFits(block: nat, blocks: nat, threads: nat)
    requires block < blocks
    ensures block * threads + threads <= blocks * threads
  {
    Modular.MulAtLeast(blocks - block, threads);
    assert blocks * threads == block * threads + (blocks - block) * threads;
  }

  lemma OwningBlock(xs: seq<Logit>, i: nat, blocks: nat, threads: nat) returns (c: nat)
    requires 0 < blocks && 0 < threads && i < |xs|
    ensures c < blocks && InBlock(xs, i, c, threads, blocks * threads)
  {
    Modular.MulAtLeast(blocks, threads);
    Modular.DivModOf(i, blocks * threads);
    var r := i % (blocks * threads);
    Modular.DivBelow(r, blocks, threads);
    Modular.DivModOf(r, threads);
    c := r / threads;
  }

  lemma BestIsArgmax(xs: seq<Logit>, f: Found, s: set<nat>)
    requires BestOf(xs, f, s) && forall i: nat :: i < |xs| ==> i in s
    ensures HasFinite(xs) ==> IsArgmax(xs, f.index)
    ensures !HasFinite(xs) ==> f.index >= |xs|
  {
  }
}
