/** The two-pass kernel: masked candidates stay in the score array with no score, threads stride
    over it, and the partial results are combined. */
module TwoPassSoftmax {
  import opened Wrappers
  import opened Softmax
  import Modular

  /** A candidate row; a masked one has no score. */
  datatype Slot = Slot(score: Option<real>, value: real)

  /** The visible keys, in order. */
  ghost function Present(slots: seq<Slot>): seq<Key> {
    if slots == [] then []
    else
      var last := slots[|slots| - 1];
      Present(slots[..|slots| - 1]) + if last.score.Some? then [Key(last.score.value, last.value)] else []
  }

  // -- Strided reductions -----------------------------------------------------------------------

  function InStride(k: nat, lo: nat, hi: nat, stride: nat): bool
    requires 0 < stride
  {
    lo <= k % stride < hi
  }

  /** Sum of the entries below `n` whose residue lies in `lo..hi`. */
  ghost function SumIf(xs: seq<real>, n: nat, lo: nat, hi: nat, stride: nat): real
    requires n <= |xs| && 0 < stride
  {
    if n == 0 then 0.0
    else SumIf(xs, n - 1, lo, hi, stride) + if InStride(n - 1, lo, hi, stride) then xs[n - 1] else 0.0
  }

  ghost function Total(xs: seq<real>): real {
    if xs == [] then 0.0 else Total(xs[..|xs| - 1]) + xs[|xs| - 1]
  }

  ghost function MaxIf(xs: seq<Option<real>>, n: nat, lo: nat, hi: nat, stride: nat): Option<real>
    requires n <= |xs| && 0 < stride
  {
    if n == 0 then None
    else if InStride(n - 1, lo, hi, stride) then Larger(MaxIf(xs, n - 1, lo, hi, stride), xs[n - 1])
    else MaxIf(xs, n - 1, lo, hi, stride)
  }

  ghost function Max(xs: seq<Option<real>>): Option<real> {
    if xs == [] then None else Larger(Max(xs[..|xs| - 1]), xs[|xs| - 1])
  }

  lemma {:induction false} ResiduesSplit(xs: seq<real>, n: nat, mid: nat, stride: nat)
    requires n <= |xs| && 0 < stride
    ensures SumIf(xs, n, 0, mid + 1, stride) == SumIf(xs, n, 0, mid, stride) + SumIf(xs, n, mid, mid + 1, stride)
  {
    if n > 0 { ResiduesSplit(xs, n - 1, mid, stride); }
  }

  lemma {:induction false} MaxSplit(xs: seq<Option<real>>, n: nat, mid: nat, stride: nat)
    requires n <= |xs| && 0 < stride
    ensures MaxIf(xs, n, 0, mid + 1, stride) == Larger(MaxIf(xs, n, 0, mid, stride), MaxIf(xs, n, mid, mid + 1, stride))
  {
    if n > 0 { MaxSplit(xs, n - 1, mid, stride); }
  }

  lemma {:induction false} NoResidues(xs: seq<real>, n: nat, stride: nat)
    requires n <= |xs| && 0 < stride
    ensures SumIf(xs, n, 0, 0, stride) == 0.0
  {
    if n > 0 { NoResidues(xs, n - 1, stride); }
  }

  lemma {:induction false} NoMaxResidues(xs: seq<Option<real>>, n: nat, stride: nat)
    requires n <= |xs| && 0 < stride
    ensures MaxIf(xs, n, 0, 0, stride) == None
  {
    if n > 0 { NoMaxResidues(xs, n - 1, stride); }
  }

  lemma {:induction false} AllResidues(xs: seq<real>, n: nat, stride: nat)
    requires n <= |xs| && 0 < stride
    ensures SumIf(xs, n, 0, stride, stride) == Total(xs[..n])
  {
    if n > 0 {
      AllResidues(xs, n - 1, stride);
      Modular.DivModOf(n - 1, stride);
      assert xs[..n][..n - 1] == xs[..n - 1];
    }
  }

  lemma {:induction false} AllMaxResidues(xs: seq<Option<real>>, n: nat, stride: nat)
    requires n <= |xs| && 0 < stride
    ensures MaxIf(xs, n, 0, stride, stride) == Max(xs[..n])
  {
    if n > 0 {
      AllMaxResidues(xs, n - 1, stride);
      Modular.DivModOf(n - 1, stride);
      assert xs[..n][..n - 1] == xs[..n - 1];
    }
  }

  predicate Mine(k: nat, t: nat, stride: nat)
    requires 0 < stride
  {
    k % stride == t
  }

  ghost predicate Clear(k: nat, n: nat, t: nat, stride: nat)
    requires 0 < stride
  {
    forall j :: k <= j < n ==> !Mine(j, t, stride)
  }

  /** Between two stops of one thread lies nothing of its own. */
  lemma {:induction false} Gap(xs: seq<real>, k: nat, n: nat, t: nat, stride: nat)
    requires t < stride && k <= n <= |xs| && Clear(k, n, t, stride)
    ensures SumIf(xs, n, t, t + 1, stride) == SumIf(xs, k, t, t + 1, stride)
  {
    if k < n {
      assert !Mine(n - 1, t, stride);
      Gap(xs, k, n - 1, t, stride);
    }
  }

  lemma {:induction false} MaxGap(xs: seq<Option<real>>, k: nat, n: nat, t: nat, stride: nat)
    requires t < stride && k <= n <= |xs| && Clear(k, n, t, stride)
    ensures MaxIf(xs, n, t, t + 1, stride) == MaxIf(xs, k, t, t + 1, stride)
  {
    if k < n {
      assert !Mine(n - 1, t, stride);
      MaxGap(xs, k, n - 1, t, stride);
    }
  }

  lemma NoneBefore(t: nat, n: nat, stride: nat)
    requires n <= t < stride
    ensures Clear(0, n, t, stride)
  {
    forall j: nat | j < n ensures !Mine(j, t, stride) { Modular.ModSmall(j, stride); }
  }

  lemma NoneBetween(k: nat, n: nat, t: nat, stride: nat)
    requires t < stride && k % stride == t && n <= k + stride
    ensures Clear(k + 1, n, t, stride)
    ensures (k + stride) % stride == t && InStride(k, t, t + 1, stride)
  {
    forall j: nat | k < j < n ensures !Mine(j, t, stride) { Modular.ModDistinct(k, j, stride); }
    Modular.ModAdd(k, stride);
  }

  function Least(a: nat, b: nat): nat { if a < b then a else b }

  /** One thread's partial sum. */
  method ThreadSum(xs: seq<real>, t: nat, stride: nat) returns (sum: real)
    requires t < stride
    ensures sum == SumIf(xs, |xs|, t, t + 1, stride)
  {
    hide InStride;
    sum := 0.0;
    var k := t;
    Modular.ModSmall(t, stride);
    NoneBefore(t, Least(t, |xs|), stride);
    Gap(xs, 0, Least(t, |xs|), t, stride);
    while k < |xs|
      invariant k % stride == t && sum == SumIf(xs, Least(k, |xs|), t, t + 1, stride)
    {
      NoneBetween(k, Least(k + stride, |xs|), t, stride);
      sum := sum + xs[k];
      Gap(xs, k + 1, Least(k + stride, |xs|), t, stride);
      k := k + stride;
    }
  }

  method ThreadMax(xs: seq<Option<real>>, t: nat, stride: nat) returns (max: Option<real>)
    requires t < stride
    ensures max == MaxIf(xs, |xs|, t, t + 1, stride)
  {
    hide InStride;
    max := None;
    var k := t;
    Modular.ModSmall(t, stride);
    NoneBefore(t, Least(t, |xs|), stride);
    MaxGap(xs, 0, Least(t, |xs|), t, stride);
    while k < |xs|
      invariant k % stride == t && max == MaxIf(xs, Least(k, |xs|), t, t + 1, stride)
    {
      NoneBetween(k, Least(k + stride, |xs|), t, stride);
      max := Larger(max, xs[k]);
      MaxGap(xs, k + 1, Least(k + stride, |xs|), t, stride);
      k := k + stride;
    }
  }

  /** All threads' partial sums together: the plain sum. */
  method ReduceSum(xs: seq<real>, stride: nat) returns (sum: real)
    requires 0 < stride
    ensures sum == Total(xs)
  {
    hide SumIf;
    sum := 0.0;
    NoResidues(xs, |xs|, stride);
    for t := 0 to stride
      invariant sum == SumIf(xs, |xs|, 0, t, stride)
    {
      var part := ThreadSum(xs, t, stride);
      ResiduesSplit(xs, |xs|, t, stride);
      sum := sum + part;
    }
    AllResidues(xs, |xs|, stride);
    assert xs[..|xs|] == xs;
  }

  /** All threads' maxima together; the bias joins every partial maximum and the final one. */
  method ReduceMax(xs: seq<Option<real>>, bias: Option<real>, stride: nat) returns (max: Option<real>)
    requires 0 < stride
    ensures max == Larger(bias, Max(xs))
  {
    hide MaxIf;
    max := bias;
    NoMaxResidues(xs, |xs|, stride);
    for t := 0 to stride
      invariant max == Larger(bias, MaxIf(xs, |xs|, 0, t, stride))
    {
      var part := ThreadMax(xs, t, stride);
      MaxSplit(xs, |xs|, t, stride);
      max := Larger(max, Larger(bias, part));
    }
    AllMaxResidues(xs, |xs|, stride);
    assert xs[..|xs|] == xs;
  }

  // -- The kernel -------------------------------------------------------------------------------

  ghost function Scores(slots: seq<Slot>): seq<Option<real>> {
    seq(|slots|, k requires 0 <= k < |slots| => slots[k].score)
  }

  function WeightOf(e: Exp, s: Slot, shift: real): real {
    if s.score.None? then 0.0 else e(s.score.value - shift)
  }

  lemma LargerAssociates(a: Option<real>, b: Option<real>, c: Option<real>)
    ensures Larger(Larger(a, b), c) == Larger(a, Larger(b, c))
  {
  }

  /** A slot without a score drops out of the maximum and of both sums. */
  lemma {:induction false} MaxOfPresent(slots: seq<Slot>, bias: Option<real>)
    ensures Larger(bias, Max(Scores(slots))) == Top(Present(slots), bias)
  {
    if slots != [] {
      var rest, last := slots[..|slots| - 1], slots[|slots| - 1];
      MaxOfPresent(rest, bias);
      assert Scores(slots)[..|slots| - 1] == Scores(rest);
      LargerAssociates(bias, Max(Scores(rest)), last.score);
      if last.score.Some? {
        var k := Key(last.score.value, last.value);
        assert Present(slots) == Present(rest) + [k];
        assert (Present(rest) + [k])[..|Present(rest)|] == Present(rest);
      } else {
        assert Present(slots) == Present(rest);
      }
    }
  }

  /** One more visible key adds one term to each sum. */
  lemma OneMore(e: Exp, keys: seq<Key>, k: Key, shift: real, f: real)
    ensures Weight(e, keys + [k], shift) == Weight(e, keys, shift) + e(k.score - shift)
    ensures Weighted(e, keys + [k], shift) * f == Weighted(e, keys, shift) * f + (e(k.score - shift) * f) * k.value
  {
    assert (keys + [k])[..|keys|] == keys;
    var w := e(k.score - shift);
    Swap(w, k.value, f);
    Distribute(Weighted(e, keys, shift), w * k.value, f);
  }

  lemma NoTerms(e: Exp, shift: real, f: real)
    ensures Weight(e, [], shift) == 0.0 && Weighted(e, [], shift) * f == 0.0
  {
  }

  lemma {:induction false} WeightsOfPresent(e: Exp, slots: seq<Slot>, shift: real, weights: seq<real>)
    requires |weights| == |slots| && forall k :: 0 <= k < |slots| ==> weights[k] == WeightOf(e, slots[k], shift)
    ensures Total(weights) == Weight(e, Present(slots), shift)
  {
    hide Weight, Weighted;
    if slots == [] {
      NoTerms(e, shift, 0.0);
    } else {
      var n := |slots| - 1;
      var rest, last := slots[..n], slots[n];
      WeightsOfPresent(e, rest, shift, weights[..n]);
      if last.score.Some? {
        OneMore(e, Present(rest), Key(last.score.value, last.value), shift, 0.0);
      } else {
        assert Present(slots) == Present(rest);
      }
    }
  }

  /** The scaled contribution of one slot. */
  function Term(e: Exp, s: Slot, shift: real, f: real): real { (WeightOf(e, s, shift) * f) * s.value }

  lemma TermValue(e: Exp, s: Slot, shift: real, f: real)
    ensures s.score.None? ==> Term(e, s, shift, f) == 0.0
    ensures s.score.Some? ==> Term(e, s, shift, f) == (e(s.score.value - shift) * f) * s.value
  {
  }

  lemma {:induction false} TermsOfPresent(e: Exp, slots: seq<Slot>, shift: real, terms: seq<real>, f: real)
    requires |terms| == |slots| && forall k :: 0 <= k < |slots| ==> terms[k] == Term(e, slots[k], shift, f)
    ensures Total(terms) == Weighted(e, Present(slots), shift) * f
  {
    hide Weight, Weighted, Term;
    if slots == [] {
      NoTerms(e, shift, f);
    } else {
      var n := |slots| - 1;
      var rest, last := slots[..n], slots[n];
      TermsOfPresent(e, rest, shift, terms[..n], f);
      TermValue(e, last, shift, f);
      if last.score.Some? {
        OneMore(e, Present(rest), Key(last.score.value, last.value), shift, f);
      } else {
        assert Present(slots) == Present(rest);
      }
    }
  }

  /** Two passes over the score array. With any candidate the result is the softmax over the
      visible keys; with none the source subtracts minus infinity from itself, which is no
      number. */
  method TwoPass(e: Exp, slots: seq<Slot>, bias: Option<real>, stride: nat) returns (out: Option<real>)
    requires IsExp(e) && 0 < stride
    ensures out.None? <==> Present(slots) == [] && bias.None?
    ensures out.Some? ==> out.value == Attention(e, Present(slots), bias)
  {
    hide IsExp, Attention, Weight, Weighted, Top, Total, Max, WeightOf, Term;
    var scores: seq<Option<real>> := [];
    for k := 0 to |slots|
      invariant |scores| == k && forall i :: 0 <= i < k ==> scores[i] == slots[i].score
    {
      scores := scores + [slots[k].score];
    }
    assert scores == Scores(slots);
    var max := ReduceMax(scores, bias, stride);
    MaxOfPresent(slots, bias);
    TopAttained(e, Present(slots), bias, if max.Some? then max.value else 0.0);
    if max.None? { return None; }
    var weights := SlotWeights(e, slots, max.value);
    WeightsOfPresent(e, slots, max.value, weights);
    var sum := ReduceSum(weights, stride);
    sum := (if bias.None? then 0.0 else e(bias.value - max.value)) + sum;
    var terms := SlotTerms(e, slots, weights, max.value, 1.0 / Floored(sum));
    TermsOfPresent(e, slots, max.value, terms, 1.0 / Floored(sum));
    var total := ReduceSum(terms, stride);
    ShiftInvariant(e, Present(slots), bias, max.value);
    Reciprocal(Weighted(e, Present(slots), max.value), Denominator(e, Present(slots), bias, max.value));
    return Some(total);
  }

  method SlotWeights(e: Exp, slots: seq<Slot>, shift: real) returns (weights: seq<real>)
    ensures |weights| == |slots| && forall k :: 0 <= k < |slots| ==> weights[k] == WeightOf(e, slots[k], shift)
  {
    weights := [];
    for k := 0 to |slots|
      invariant |weights| == k && forall i :: 0 <= i < k ==> weights[i] == WeightOf(e, slots[i], shift)
    {
      weights := weights + [WeightOf(e, slots[k], shift)];
    }
  }

  method SlotTerms(e: Exp, slots: seq<Slot>, weights: seq<real>, ghost shift: real, f: real) returns (terms: seq<real>)
    requires |weights| == |slots| && forall k :: 0 <= k < |slots| ==> weights[k] == WeightOf(e, slots[k], shift)
    ensures |terms| == |slots| && forall k :: 0 <= k < |slots| ==> terms[k] == Term(e, slots[k], shift, f)
  {
    terms := [];
    for k := 0 to |slots|
      invariant |terms| == k && forall i :: 0 <= i < k ==> terms[i] == Term(e, slots[i], shift, f)
    {
      terms := terms + [(weights[k] * f) * slots[k].value];
    }
  }

  /** The fast kernel agrees with the two-pass one: same visible keys, any block width, any
      thread count. */
  method Agree(e: Exp, slots: seq<Slot>, keys: seq<Key>, bias: Option<real>, width: nat, stride: nat)
      returns (online: real, twoPass: Option<real>)
    requires IsExp(e) && 0 < width && 0 < stride && keys == Present(slots)
    ensures keys != [] || bias.Some? ==> twoPass == Some(online)
    ensures keys == [] && bias.None? ==> twoPass == None && online == 0.0
  {
    online := Online(e, keys, bias, width);
    twoPass := TwoPass(e, slots, bias, stride);
  }
}
