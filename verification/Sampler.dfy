/** The host decision: top-k and nucleus truncation in place, then the greedy choice. */
module Sampler {
  import opened Wrappers
  import opened Argmax
  import Softmax

  // -- Ranking ----------------------------------------------------------------------------------

  /** Largest first, ties to the lower index. */
  predicate Ahead(xs: seq<Logit>, i: nat, j: nat)
    requires i < |xs| && j < |xs|
  {
    Above(xs[i], xs[j]) || (xs[i] == xs[j] && i < j)
  }

  ghost predicate Ranked(xs: seq<Logit>, order: seq<nat>) {
    && (forall a :: 0 <= a < |order| ==> order[a] < |xs|)
    && (forall a, b :: 0 <= a < b < |order| ==> Ahead(xs, order[a], order[b]))
  }

  /** The weights of some positions, added up in their order. */
  ghost function SumOver(w: seq<real>, order: seq<nat>): real
    requires forall a :: 0 <= a < |order| ==> order[a] < |w|
  {
    if order == [] then 0.0 else SumOver(w, order[..|order| - 1]) + w[order[|order| - 1]]
  }

  lemma {:induction false} SumOverAppend(w: seq<real>, a: seq<nat>, b: seq<nat>)
    requires (forall i :: 0 <= i < |a| ==> a[i] < |w|) && (forall i :: 0 <= i < |b| ==> b[i] < |w|)
    ensures SumOver(w, a + b) == SumOver(w, a) + SumOver(w, b)
  {
    if b == [] {
      assert a + b == a;
    } else {
      SumOverAppend(w, a, b[..|b| - 1]);
      assert (a + b)[..|a + b| - 1] == a + b[..|b| - 1];
    }
  }

  lemma InsertSum(w: seq<real>, order: seq<nat>, i: nat, p: nat)
    requires i < |w| && p <= |order| && forall a :: 0 <= a < |order| ==> order[a] < |w|
    ensures SumOver(w, order[..p] + [i] + order[p..]) == SumOver(w, order) + w[i]
  {
    SumOverAppend(w, order[..p], [i]);
    SumOverAppend(w, order[..p] + [i], order[p..]);
    SumOverAppend(w, order[..p], order[p..]);
    assert order == order[..p] + order[p..];
    assert SumOver(w, [i]) == SumOver(w, []) + w[i];
  }

  /** Insert the next index where the ranking puts it. */
  method Insert(xs: seq<Logit>, ghost w: seq<real>, order: seq<nat>, i: nat) returns (out: seq<nat>)
    requires |w| == |xs|
    requires i < |xs| && Ranked(xs, order) && forall a :: 0 <= a < |order| ==> order[a] < i
    ensures Ranked(xs, out) && |out| == |order| + 1
    ensures forall k :: k in out <==> k in order || k == i
    ensures SumOver(w, out) == SumOver(w, order) + w[i]
  {
    var p := 0;
    while p < |order| && Ahead(xs, order[p], i)
      invariant 0 <= p <= |order| && forall a :: 0 <= a < p ==> Ahead(xs, order[a], i)
    {
      p := p + 1;
    }
    out := order[..p] + [i] + order[p..];
    if p < |order| {
      forall b | p <= b < |order| ensures Ahead(xs, i, order[b]) {
        if p < b { assert Ahead(xs, order[p], order[b]); }
      }
    }
    InsertRanked(xs, order, i, p);
    InsertSum(w, order, i, p);
    assert order == order[..p] + order[p..];
  }

  lemma InsertRanked(xs: seq<Logit>, order: seq<nat>, i: nat, p: nat)
    requires i < |xs| && Ranked(xs, order) && p <= |order|
    requires forall a :: 0 <= a < p ==> Ahead(xs, order[a], i)
    requires forall b :: p <= b < |order| ==> Ahead(xs, i, order[b])
    ensures Ranked(xs, order[..p] + [i] + order[p..])
  {
    hide Ahead;
    var out := order[..p] + [i] + order[p..];
    assert forall a {:trigger out[a]} :: 0 <= a < |out| ==> out[a] == if a < p then order[a] else if a == p then i else order[a - 1];
  }

  /** Every index once, ranked. */
  ghost predicate IsRanking(xs: seq<Logit>, order: seq<nat>, n: nat) {
    Ranked(xs, order) && |order| == n <= |xs| && forall k: nat :: k in order <==> k < n
  }

  ghost function SumFirst(w: seq<real>, n: nat): real
    requires n <= |w|
  {
    if n == 0 then 0.0 else SumFirst(w, n - 1) + w[n - 1]
  }

  /** What the library sort returns. Whatever the positions weigh, ranking keeps the sum. */
  method Sort(xs: seq<Logit>, ghost w: seq<real>) returns (order: seq<nat>)
    requires |w| == |xs|
    ensures IsRanking(xs, order, |xs|)
    ensures SumOver(w, order) == SumFirst(w, |w|)
  {
    order := [];
    for i := 0 to |xs|
      invariant IsRanking(xs, order, i) && SumOver(w, order) == SumFirst(w, i)
    {
      hide Ranked;
      assert forall a :: 0 <= a < |order| ==> order[a] in order;
      order := Insert(xs, w, order, i);
    }
  }

  /** The first of the ranking is the greedy answer. */
  lemma FirstIsArgmax(xs: seq<Logit>, order: seq<nat>)
    requires IsRanking(xs, order, |xs|) && HasFinite(xs)
    ensures |order| > 0 && IsArgmax(xs, order[0])
  {
    var f :| 0 <= f < |xs| && xs[f].Finite?;
    assert f in order;
    var first := order[0];
    forall i | 0 <= i < |xs| ensures (i < first ==> Above(xs[first], xs[i])) && !Above(xs[i], xs[first]) {
      assert i in order;
      var a :| 0 <= a < |order| && order[a] == i;
      if a > 0 { assert Ahead(xs, order[0], order[a]); }
    }
  }

  // -- Truncation -------------------------------------------------------------------------------

  /** A truncation only sends logits to minus infinity. */
  ghost predicate Truncates(xs: seq<Logit>, ys: seq<Logit>) {
    |ys| == |xs| && forall i :: 0 <= i < |xs| ==> ys[i] == xs[i] || ys[i].NegInf?
  }

  /** A truncation that spares the answer keeps it the answer. */
  lemma ArgmaxSurvives(xs: seq<Logit>, ys: seq<Logit>, k: nat)
    requires IsArgmax(xs, k) && Truncates(xs, ys) && ys[k] == xs[k]
    ensures IsArgmax(ys, k)
  {
  }

  lemma NothingFinite(xs: seq<Logit>, ys: seq<Logit>)
    requires Truncates(xs, ys) && !HasFinite(xs)
    ensures !HasFinite(ys)
  {
  }

  /** Everything below the `k`-th largest goes, a tie at the boundary stays whole. */
  ghost predicate TopKOf(xs: seq<Logit>, ys: seq<Logit>, order: seq<nat>, k: nat) {
    && IsRanking(xs, order, |xs|) && |ys| == |xs| && 0 < k < |xs|
    && order[k - 1] < |xs|
    && forall i :: 0 <= i < |xs| ==> ys[i] == if Above(xs[order[k - 1]], xs[i]) then NegInf else xs[i]
  }

  /** The `k` best all survive, and of the others exactly those that tie with the last of them. */
  lemma TopKKeepsTheBest(xs: seq<Logit>, ys: seq<Logit>, order: seq<nat>, k: nat)
    requires TopKOf(xs, ys, order, k)
    ensures Truncates(xs, ys)
    ensures forall a :: 0 <= a < k ==> ys[order[a]] == xs[order[a]]
    ensures forall a :: k <= a < |xs| ==> order[a] < |xs| && ys[order[a]] == if xs[order[a]] == xs[order[k - 1]] then xs[order[a]] else NegInf
  {
    forall a | k <= a < |xs|
      ensures order[a] < |xs| && ys[order[a]] == if xs[order[a]] == xs[order[k - 1]] then xs[order[a]] else NegInf
    {
      assert Ahead(xs, order[k - 1], order[a]);
    }
    forall a | 0 <= a < k ensures ys[order[a]] == xs[order[a]] {
      if a < k - 1 { assert Ahead(xs, order[a], order[k - 1]); }
    }
  }

  method ApplyTopK(logits: array<Logit>, k: nat) returns (ghost order: seq<nat>)
    modifies logits
    ensures k == 0 || k >= logits.Length ==> logits[..] == old(logits[..])
    ensures 0 < k < logits.Length ==> TopKOf(old(logits[..]), logits[..], order, k)
  {
    order := [];
    if k == 0 || k >= logits.Length { return; }
    ghost var xs := logits[..];
    var ranking := Sort(logits[..], Weights(_ => 0.0, xs, 0.0));
    var threshold := logits[ranking[k - 1]];
    for i := 0 to logits.Length
      invariant forall j :: 0 <= j < i ==> logits[j] == if Above(threshold, xs[j]) then NegInf else xs[j]
      invariant forall j :: i <= j < logits.Length ==> logits[j] == xs[j]
    {
      if Above(threshold, logits[i]) { logits[i] := NegInf; }
    }
    order := ranking;
  }

  // -- The nucleus ------------------------------------------------------------------------------

  type Exp = real -> real

  /** The weight of one logit, shifted by the largest. */
  function WeightOf(e: Exp, x: Logit, max: real): real {
    if x.NegInf? then 0.0 else e(x.value - max)
  }

  /** The mass of the first `n` of a ranking, as a fraction of `total`. */
  ghost function Mass(e: Exp, xs: seq<Logit>, order: seq<nat>, max: real, total: real, n: nat): real
    requires n <= |order| && total > 0.0 && forall a :: 0 <= a < |order| ==> order[a] < |xs|
  {
    if n == 0 then 0.0 else Mass(e, xs, order, max, total, n - 1) + WeightOf(e, xs[order[n - 1]], max) / total
  }

  ghost function Weights(e: Exp, xs: seq<Logit>, max: real): (w: seq<real>)
    ensures |w| == |xs|
  {
    seq(|xs|, i requires 0 <= i < |xs| => WeightOf(e, xs[i], max))
  }

  lemma {:induction false} MassIsSum(e: Exp, xs: seq<Logit>, order: seq<nat>, max: real, total: real, n: nat)
    requires n <= |order| && total > 0.0 && forall a :: 0 <= a < |order| ==> order[a] < |xs|
    ensures Mass(e, xs, order, max, total, n) == SumOver(Weights(e, xs, max), order[..n]) / total
  {
    if n > 0 {
      MassIsSum(e, xs, order, max, total, n - 1);
      assert order[..n][..n - 1] == order[..n - 1];
      Fractions(SumOver(Weights(e, xs, max), order[..n - 1]), WeightOf(e, xs[order[n - 1]], max), total);
    }
  }

  lemma Itself(d: real)
    requires d > 0.0
    ensures d / d == 1.0
  {
  }

  lemma Fractions(a: real, b: real, d: real)
    requires d > 0.0
    ensures a / d + b / d == (a + b) / d
  {
  }

  lemma {:induction false} TotalIsSum(e: Exp, xs: seq<Logit>, max: real, n: nat)
    requires n <= |xs|
    ensures TotalWeight(e, xs, max, n) == SumFirst(Weights(e, xs, max), n)
  {
    if n > 0 { TotalIsSum(e, xs, max, n - 1); }
  }

  /** The whole ranking has mass one. */
  lemma WholeMass(e: Exp, xs: seq<Logit>, order: seq<nat>, max: real)
    requires |order| == |xs| && (forall a :: 0 <= a < |order| ==> order[a] < |xs|)
    requires TotalWeight(e, xs, max, |xs|) > 0.0
    requires SumOver(Weights(e, xs, max), order) == SumFirst(Weights(e, xs, max), |xs|)
    ensures Mass(e, xs, order, max, TotalWeight(e, xs, max, |xs|), |xs|) == 1.0
  {
    hide SumOver, SumFirst, Mass, TotalWeight;
    TotalIsSum(e, xs, max, |xs|);
    var total := TotalWeight(e, xs, max, |xs|);
    MassIsSum(e, xs, order, max, total, |xs|);
    assert order[..|xs|] == order;
    assert SumOver(Weights(e, xs, max), order) == total;
    Itself(total);
  }

  ghost function TotalWeight(e: Exp, xs: seq<Logit>, max: real, n: nat): real
    requires n <= |xs|
  {
    if n == 0 then 0.0 else TotalWeight(e, xs, max, n - 1) + WeightOf(e, xs[n - 1], max)
  }

  /** The first `keep` of the ranking stay: enough to reach `topP`, and no fewer would do. */
  ghost predicate NucleusOf(e: Exp, xs: seq<Logit>, ys: seq<Logit>, order: seq<nat>, keep: nat, max: real, topP: real) {
    var total := TotalWeight(e, xs, max, |xs|);
    && IsRanking(xs, order, |xs|) && total > 0.0 && |ys| == |xs| && 0 < keep <= |xs|
    && Mass(e, xs, order, max, total, keep) >= topP
    && (forall n :: 0 < n < keep ==> Mass(e, xs, order, max, total, n) < topP)
    && (forall a :: 0 <= a < keep ==> ys[order[a]] == xs[order[a]])
    && (forall a :: keep <= a < |xs| ==> ys[order[a]] == NegInf)
  }

  ghost predicate IsTop(xs: seq<Logit>, max: real) {
    Finite(max) in xs && forall i :: 0 <= i < |xs| ==> !Above(xs[i], Finite(max))
  }

  /** The largest finite logit. */
  method MaxLogit(xs: seq<Logit>) returns (max: Logit)
    ensures max.Finite? <==> HasFinite(xs)
    ensures max.Finite? ==> IsTop(xs, max.value)
  {
    max := NegInf;
    for i := 0 to |xs|
      invariant max.Finite? ==> max in xs
      invariant max.Finite? <==> exists j :: 0 <= j < i && xs[j].Finite?
      invariant forall j :: 0 <= j < i ==> !Above(xs[j], max)
    {
      if Above(xs[i], max) { max := xs[i]; }
    }
  }

  method SumWeights(e: Exp, xs: seq<Logit>, max: real) returns (total: real)
    ensures total == TotalWeight(e, xs, max, |xs|)
  {
    total := 0.0;
    for i := 0 to |xs|
      invariant total == TotalWeight(e, xs, max, i)
    {
      total := total + WeightOf(e, xs[i], max);
    }
  }

  /** The finite logits as keys of the softmax. */
  ghost function FiniteKeys(xs: seq<Logit>, n: nat): seq<Softmax.Key>
    requires n <= |xs|
  {
    if n == 0 then []
    else FiniteKeys(xs, n - 1) + if xs[n - 1].Finite? then [Softmax.Key(xs[n - 1].value, 0.0)] else []
  }

  /** The nucleus' total weight is the softmax denominator over the finite logits: a masked logit
      weighs nothing. */
  lemma {:induction false} TotalIsDenominator(e: Exp, xs: seq<Logit>, max: real, n: nat)
    requires n <= |xs|
    ensures TotalWeight(e, xs, max, n) == Softmax.Weight(e, FiniteKeys(xs, n), max)
  {
    if n > 0 {
      TotalIsDenominator(e, xs, max, n - 1);
      var keys := FiniteKeys(xs, n - 1);
      if xs[n - 1].Finite? {
        var k := Softmax.Key(xs[n - 1].value, 0.0);
        assert (keys + [k])[..|keys|] == keys;
      } else {
        assert keys + [] == keys;
      }
    }
  }

  /** How many of the ranking it takes to reach `topP`; the boundary element is included. */
  method NucleusSize(e: Exp, xs: seq<Logit>, order: seq<nat>, max: real, total: real, topP: real) returns (keep: nat)
    requires |order| > 0 && total > 0.0 && forall a :: 0 <= a < |order| ==> order[a] < |xs|
    ensures 0 < keep <= |order|
    ensures keep < |order| ==> Mass(e, xs, order, max, total, keep) >= topP
    ensures forall n :: 0 < n < keep ==> Mass(e, xs, order, max, total, n) < topP
  {
    var accumulated := 0.0;
    keep := 0;
    while keep < |order|
      invariant 0 <= keep <= |order| && accumulated == Mass(e, xs, order, max, total, keep)
      invariant forall n :: 0 < n <= keep ==> Mass(e, xs, order, max, total, n) < topP
    {
      accumulated := accumulated + WeightOf(e, xs[order[keep]], max) / total;
      keep := keep + 1;
      if accumulated >= topP { break; }
    }
  }

  /** Send everything past the first `keep` of the ranking to minus infinity. */
  method MaskTail(logits: array<Logit>, order: seq<nat>, keep: nat)
    requires IsRanking(logits[..], order, logits.Length) && keep <= |order|
    modifies logits
    ensures forall a :: 0 <= a < keep ==> logits[order[a]] == old(logits[order[a]])
    ensures forall a :: keep <= a < |order| ==> logits[order[a]] == NegInf
  {
    for rank := keep to |order|
      invariant forall a :: 0 <= a < keep || rank <= a < |order| ==> logits[order[a]] == old(logits[order[a]])
      invariant forall a :: keep <= a < rank ==> logits[order[a]] == NegInf
    {
      RanksDiffer(old(logits[..]), order, rank);
      logits[order[rank]] := NegInf;
    }
  }

  lemma RanksDiffer(xs: seq<Logit>, order: seq<nat>, rank: nat)
    requires Ranked(xs, order) && rank < |order|
    ensures forall a :: 0 <= a < |order| && a != rank ==> order[a] != order[rank]
  {
    forall a | 0 <= a < |order| && a != rank ensures order[a] != order[rank] {
      if a < rank { assert Ahead(xs, order[a], order[rank]); } else { assert Ahead(xs, order[rank], order[a]); }
    }
  }

  /** The smallest set of the best logits whose mass reaches `topP`. */
  method ApplyTopP(e: Exp, logits: array<Logit>, topP: real) returns (ghost order: seq<nat>, ghost keep: nat, ghost max: real)
    modifies logits
    ensures topP >= 1.0 || !HasFinite(old(logits[..])) ==> logits[..] == old(logits[..])
    ensures topP < 1.0 && HasFinite(old(logits[..])) ==>
      && IsTop(old(logits[..]), max)
      && if TotalWeight(e, old(logits[..]), max, logits.Length) > 0.0
         then NucleusOf(e, old(logits[..]), logits[..], order, keep, max, topP)
         else logits[..] == old(logits[..])
  {
    hide IsRanking, Mass, TotalWeight, SumOver, SumFirst;
    order, keep, max := [], 0, 0.0;
    if topP >= 1.0 { return; }
    var top := MaxLogit(logits[..]);
    if top.NegInf? { return; }
    max := top.value;
    var total := SumWeights(e, logits[..], top.value);
    if !(total > 0.0) { return; }
    ghost var xs := logits[..];
    var ranking := Sort(logits[..], Weights(e, xs, max));
    RankingShape(xs, ranking);
    WholeMass(e, xs, ranking, max);
    var size := NucleusSize(e, logits[..], ranking, top.value, total, topP);
    MaskTail(logits, ranking, size);
    order, keep := ranking, size;
  }

  lemma RankingShape(xs: seq<Logit>, order: seq<nat>)
    requires IsRanking(xs, order, |xs|)
    ensures |order| == |xs| && forall a :: 0 <= a < |order| ==> order[a] < |xs|
  {
  }

  /** The nucleus only masks, and always keeps the greedy answer. */
  lemma NucleusKeepsTheBest(e: Exp, xs: seq<Logit>, ys: seq<Logit>, order: seq<nat>, keep: nat, max: real, topP: real)
    requires NucleusOf(e, xs, ys, order, keep, max, topP)
    ensures Truncates(xs, ys) && ys[order[0]] == xs[order[0]]
  {
    hide Mass, TotalWeight;
    forall i | 0 <= i < |xs| ensures ys[i] == xs[i] || ys[i].NegInf? {
      assert i in order;
    }
  }

  // -- The decision -----------------------------------------------------------------------------

  method HasFiniteLogit(xs: seq<Logit>) returns (r: bool)
    ensures r <==> HasFinite(xs)
  {
    for i := 0 to |xs|
      invariant forall j :: 0 <= j < i ==> xs[j].NegInf?
    {
      if xs[i].Finite? { return true; }
    }
    return false;
  }

  lemma TopKStep(xs: seq<Logit>, ys: seq<Logit>, order: seq<nat>, k: nat)
    requires ys == xs || TopKOf(xs, ys, order, k)
    ensures HasFinite(ys) <==> HasFinite(xs)
    ensures forall a: nat :: IsArgmax(xs, a) ==> IsArgmax(ys, a)
  {
    hide IsArgmax, HasFinite;
    if ys != xs {
      TopKKeepsTheBest(xs, ys, order, k);
      TruncationStep(xs, ys, order);
    }
  }

  lemma TopPStep(e: Exp, xs: seq<Logit>, ys: seq<Logit>, order: seq<nat>, keep: nat, max: real, topP: real)
    requires ys == xs || NucleusOf(e, xs, ys, order, keep, max, topP)
    ensures HasFinite(ys) <==> HasFinite(xs)
    ensures forall a: nat :: IsArgmax(xs, a) ==> IsArgmax(ys, a)
  {
    hide IsArgmax, HasFinite;
    if ys != xs {
      NucleusKeepsTheBest(e, xs, ys, order, keep, max, topP);
      TruncationStep(xs, ys, order);
    }
  }

  /** Any truncation that spares the first of the ranking changes no greedy decision. */
  lemma TruncationStep(xs: seq<Logit>, ys: seq<Logit>, order: seq<nat>)
    requires IsRanking(xs, order, |xs|) && |xs| > 0 && order[0] < |xs| && Truncates(xs, ys) && ys[order[0]] == xs[order[0]]
    ensures HasFinite(ys) <==> HasFinite(xs)
    ensures forall a: nat :: IsArgmax(xs, a) ==> IsArgmax(ys, a)
  {
    if HasFinite(xs) {
      FirstIsArgmax(xs, order);
      ArgmaxSurvives(xs, ys, order[0]);
      forall a: nat | IsArgmax(xs, a) ensures IsArgmax(ys, a) { ArgmaxUnique(xs, a, order[0]); }
    } else {
      NothingFinite(xs, ys);
    }
  }

  /** `decide` on the greedy path, for every `topK` and `topP`: the scalar rule on the untouched
      logits, refused exactly when nothing is finite. */
  method DecideGreedy(e: Exp, logits: array<Logit>, topK: nat, topP: real) returns (out: Option<nat>)
    modifies logits
    ensures out.Some? <==> HasFinite(old(logits[..]))
    ensures out.Some? ==> IsArgmax(old(logits[..]), out.value)
  {
    hide HasFinite, IsArgmax, TopKOf, NucleusOf;
    ghost var xs := logits[..];
    ghost var order := ApplyTopK(logits, topK);
    ghost var ys := logits[..];
    TopKStep(xs, ys, order, topK);
    ghost var ranking, keep, max := ApplyTopP(e, logits, topP);
    TopPStep(e, ys, logits[..], ranking, keep, max, topP);
    var finite := HasFiniteLogit(logits[..]);
    if !finite { return None; }
    var best := ArgmaxOf(logits[..]);
    GreedyIs(xs, logits[..], best);
    return Some(best);
  }

  lemma GreedyIs(xs: seq<Logit>, ys: seq<Logit>, best: nat)
    requires HasFinite(xs) && IsArgmax(ys, best) && forall a: nat :: IsArgmax(xs, a) ==> IsArgmax(ys, a)
    ensures IsArgmax(xs, best)
  {
    var k := ArgmaxExists(xs);
    ArgmaxUnique(ys, k, best);
  }

  lemma {:induction false} ArgmaxExists(xs: seq<Logit>) returns (k: nat)
    requires HasFinite(xs)
    ensures IsArgmax(xs, k)
  {
    var n := |xs| - 1;
    if HasFinite(xs[..n]) {
      var j := ArgmaxExists(xs[..n]);
      k := if Above(xs[n], xs[j]) then n else j;
    } else {
      assert forall i :: 0 <= i < n ==> xs[..n][i] == xs[i];
      k := n;
    }
  }

  /** `select` without a processor: the device path and the host path name the same token. */
  method SelectGreedy(e: Exp, logits: array<Logit>, topK: nat, topP: real, blocks: nat, threads: nat)
      returns (device: nat, host: Option<nat>)
    requires 0 < blocks && PowerOfTwo(threads) && logits.Length <= INT_MAX
    modifies logits
    ensures HasFinite(old(logits[..])) ==> host == Some(device) && IsArgmax(old(logits[..]), device)
    ensures !HasFinite(old(logits[..])) ==> host == None && device >= logits.Length
  {
    hide HasFinite, IsArgmax;
    ghost var xs := logits[..];
    device := DeviceArgmax(logits[..], blocks, threads);
    host := DecideGreedy(e, logits, topK, topP);
    if host.Some? { ArgmaxUnique(xs, device, host.value); }
  }
}
