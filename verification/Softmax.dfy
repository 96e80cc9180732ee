/** Softmax attention for one head and one value dimension, over the reals. The exponential is a
    parameter, known only to be positive and to turn sums into products. */
module Softmax {
  import opened Wrappers

  /** A visible key: its scaled score and the value it contributes. */
  datatype Key = Key(score: real, value: real)

  type Exp = real -> real

  ghost predicate IsExp(e: Exp) {
    (forall x :: e(x) > 0.0) && (forall x, y :: e(x + y) == e(x) * e(y))
  }

  lemma ExpShift(e: Exp, x: real, y: real)
    requires IsExp(e)
    ensures e(x + y) == e(x) * e(y) && e(x) > 0.0
  {
  }

  lemma ExpPositive(e: Exp, x: real)
    requires IsExp(e)
    ensures e(x) > 0.0
  {
  }

  lemma ExpZero(e: Exp)
    requires IsExp(e)
    ensures e(0.0) == 1.0
  {
    ExpShift(e, 0.0, 0.0);
    var z := e(0.0);
    assert z * (z - 1.0) == 0.0;
  }

  // -- The reference ----------------------------------------------------------------------------

  /** Sum of the weights of the keys, every score shifted by `shift`. */
  ghost function Weight(e: Exp, keys: seq<Key>, shift: real): real {
    if keys == [] then 0.0
    else Weight(e, keys[..|keys| - 1], shift) + e(keys[|keys| - 1].score - shift)
  }

  ghost function Weighted(e: Exp, keys: seq<Key>, shift: real): real {
    if keys == [] then 0.0
    else Weighted(e, keys[..|keys| - 1], shift) + e(keys[|keys| - 1].score - shift) * keys[|keys| - 1].value
  }

  /** The bias takes part with value zero. */
  ghost function BiasWeight(e: Exp, bias: Option<real>, shift: real): real {
    if bias.None? then 0.0 else e(bias.value - shift)
  }

  ghost function Denominator(e: Exp, keys: seq<Key>, bias: Option<real>, shift: real): real {
    BiasWeight(e, bias, shift) + Weight(e, keys, shift)
  }

  /** Softmax as it is defined: no shift at all. */
  ghost function Attention(e: Exp, keys: seq<Key>, bias: Option<real>): real
    requires IsExp(e) && (keys != [] || bias.Some?)
  {
    DenominatorPositive(e, keys, bias, 0.0);
    Weighted(e, keys, 0.0) / Denominator(e, keys, bias, 0.0)
  }

  lemma {:induction false} WeightNonNegative(e: Exp, keys: seq<Key>, shift: real)
    requires IsExp(e)
    ensures Weight(e, keys, shift) >= 0.0 && (keys != [] ==> Weight(e, keys, shift) > 0.0)
  {
    hide IsExp;
    if keys != [] {
      WeightNonNegative(e, keys[..|keys| - 1], shift);
      ExpPositive(e, keys[|keys| - 1].score - shift);
    }
  }

  lemma DenominatorPositive(e: Exp, keys: seq<Key>, bias: Option<real>, shift: real)
    requires IsExp(e) && (keys != [] || bias.Some?)
    ensures Denominator(e, keys, bias, shift) > 0.0
  {
    hide IsExp;
    WeightNonNegative(e, keys, shift);
    if bias.Some? { ExpPositive(e, bias.value - shift); }
  }

  /** Changing the shift multiplies every sum by one factor. */
  lemma {:induction false} Rescale(e: Exp, keys: seq<Key>, from: real, to: real)
    requires IsExp(e)
    ensures Weight(e, keys, to) == Weight(e, keys, from) * e(from - to)
    ensures Weighted(e, keys, to) == Weighted(e, keys, from) * e(from - to)
  {
    hide IsExp;
    if keys != [] {
      var rest, k := keys[..|keys| - 1], keys[|keys| - 1];
      Rescale(e, rest, from, to);
      ScoreShift(e, k.score, from, to);
      var w, f := e(k.score - from), e(from - to);
      Distribute(Weight(e, rest, from), w, f);
      Distribute(Weighted(e, rest, from), w * k.value, f);
      Swap(w, k.value, f);
    }
  }

  lemma ScoreShift(e: Exp, s: real, from: real, to: real)
    requires IsExp(e)
    ensures e(s - to) == e(s - from) * e(from - to)
  {
    hide IsExp;
    ExpShift(e, s - from, from - to);
    assert (s - from) + (from - to) == s - to;
  }

  lemma Distribute(a: real, b: real, f: real)
    ensures (a + b) * f == a * f + b * f
  {
  }

  lemma Swap(w: real, v: real, f: real)
    ensures (w * f) * v == (w * v) * f
  {
  }

  lemma RescaleDenominator(e: Exp, keys: seq<Key>, bias: Option<real>, from: real, to: real)
    requires IsExp(e)
    ensures Denominator(e, keys, bias, to) == Denominator(e, keys, bias, from) * e(from - to)
  {
    hide IsExp, Weight;
    Rescale(e, keys, from, to);
    Distribute(BiasWeight(e, bias, from), Weight(e, keys, from), e(from - to));
    if bias.Some? { ScoreShift(e, bias.value, from, to); }
  }

  lemma Cancel(n: real, d: real, f: real)
    requires d > 0.0 && f > 0.0
    ensures d * f > 0.0 && (n * f) / (d * f) == n / d
  {
    var q := n / d;
    assert q * d == n;
    assert q * (d * f) == n * f;
  }

  /** Any shift gives the same quotient. */
  lemma ShiftInvariant(e: Exp, keys: seq<Key>, bias: Option<real>, shift: real)
    requires IsExp(e) && (keys != [] || bias.Some?)
    ensures Denominator(e, keys, bias, shift) > 0.0
    ensures Weighted(e, keys, shift) / Denominator(e, keys, bias, shift) == Attention(e, keys, bias)
  {
    hide IsExp, Weight, Weighted, Denominator;
    DenominatorPositive(e, keys, bias, 0.0);
    DenominatorPositive(e, keys, bias, shift);
    RescaleDenominator(e, keys, bias, 0.0, shift);
    Rescale(e, keys, 0.0, shift);
    ExpPositive(e, 0.0 - shift);
    Cancel(Weighted(e, keys, 0.0), Denominator(e, keys, bias, 0.0), e(0.0 - shift));
  }

  lemma {:induction false} WeightedConstant(e: Exp, keys: seq<Key>, shift: real, v: real)
    requires forall i :: 0 <= i < |keys| ==> keys[i].value == v
    ensures Weighted(e, keys, shift) == Weight(e, keys, shift) * v
  {
    if keys != [] {
      WeightedConstant(e, keys[..|keys| - 1], shift, v);
      Distribute(Weight(e, keys[..|keys| - 1], shift), e(keys[|keys| - 1].score - shift), v);
    }
  }

  /** The weights are an average: equal values come out as they are, and a bias only draws them
      towards its own value, zero. */
  lemma AttentionAverages(e: Exp, keys: seq<Key>, bias: Option<real>, v: real)
    requires IsExp(e) && keys != [] && forall i :: 0 <= i < |keys| ==> keys[i].value == v
    ensures bias.None? ==> Attention(e, keys, bias) == v
    ensures bias.Some? ==> Attention(e, keys, bias) * (Weight(e, keys, 0.0) + e(bias.value)) == v * Weight(e, keys, 0.0)
  {
    hide IsExp, Weight, Weighted;
    WeightedConstant(e, keys, 0.0, v);
    DenominatorPositive(e, keys, bias, 0.0);
    var (w, d) := (Weight(e, keys, 0.0), Denominator(e, keys, bias, 0.0));
    if bias.Some? { assert bias.value - 0.0 == bias.value; }
    assert Attention(e, keys, bias) == (w * v) / d;
    Undo(w * v, d);
    if bias.None? { Scaled(w, v, d); }
  }

  lemma Undo(n: real, d: real)
    requires d > 0.0
    ensures (n / d) * d == n
  {
  }

  lemma Scaled(w: real, v: real, d: real)
    requires d > 0.0 && w == d
    ensures (w * v) / d == v
  {
  }

  // -- The running maximum ----------------------------------------------------------------------

  function Larger(a: Option<real>, b: Option<real>): Option<real> {
    if a.None? then b else if b.None? || b.value <= a.value then a else b
  }

  ghost function Top(keys: seq<Key>, bias: Option<real>): Option<real> {
    if keys == [] then bias else Larger(Top(keys[..|keys| - 1], bias), Some(keys[|keys| - 1].score))
  }

  /** The maximum is one of the candidates, so its own weight alone is 1. */
  lemma {:induction false} TopAttained(e: Exp, keys: seq<Key>, bias: Option<real>, shift: real)
    requires IsExp(e)
    ensures Top(keys, bias).None? <==> keys == [] && bias.None?
    ensures Top(keys, bias) == Some(shift) ==> Denominator(e, keys, bias, shift) >= 1.0
  {
    hide IsExp;
    ExpZero(e);
    WeightNonNegative(e, keys, shift);
    if bias.Some? { ExpPositive(e, bias.value - shift); }
    if keys != [] {
      var rest := keys[..|keys| - 1];
      TopAttained(e, rest, bias, shift);
      WeightNonNegative(e, rest, shift);
      ExpPositive(e, keys[|keys| - 1].score - shift);
    }
  }

  // -- The online form --------------------------------------------------------------------------

  datatype Running = Running(max: Option<real>, sum: real, acc: real)

  /** The running triple stands for the keys seen so far, shifted by their own maximum. */
  ghost predicate Tracks(e: Exp, st: Running, keys: seq<Key>, bias: Option<real>) {
    && st.max == Top(keys, bias)
    && (st.max.Some? ==>
          && st.sum == Denominator(e, keys, bias, st.max.value)
          && st.acc == Weighted(e, keys, st.max.value))
    && (st.max.None? ==> st.sum == 0.0 && st.acc == 0.0)
  }

  lemma {:induction false} SumsAppend(e: Exp, keys: seq<Key>, block: seq<Key>, shift: real)
    ensures Weight(e, keys + block, shift) == Weight(e, keys, shift) + Weight(e, block, shift)
    ensures Weighted(e, keys + block, shift) == Weighted(e, keys, shift) + Weighted(e, block, shift)
  {
    if block == [] {
      assert keys + block == keys;
    } else {
      var rest := block[..|block| - 1];
      SumsAppend(e, keys, rest, shift);
      assert (keys + block)[..|keys + block| - 1] == keys + rest;
    }
  }

  lemma {:induction false} TopAppend(keys: seq<Key>, block: seq<Key>, bias: Option<real>)
    ensures Top(keys + block, bias) == Larger(Top(keys, bias), Top(block, None))
  {
    if block == [] {
      assert keys + block == keys;
    } else {
      var rest := block[..|block| - 1];
      TopAppend(keys, rest, bias);
      assert (keys + block)[..|keys + block| - 1] == keys + rest;
    }
  }

  /** Rescale what is there to the new maximum and add a block's sums. */
  function Folded(e: Exp, st: Running, max: real, sum: real, acc: real): Running {
    var alpha := if st.max.None? then 0.0 else e(st.max.value - max);
    Running(Some(max), st.sum * alpha + sum, st.acc * alpha + acc)
  }

  lemma FoldedSums(e: Exp, st: Running, keys: seq<Key>, block: seq<Key>, bias: Option<real>, m: real)
    requires IsExp(e) && Tracks(e, st, keys, bias)
    ensures var next := Folded(e, st, m, Weight(e, block, m), Weighted(e, block, m));
      && next.sum == Denominator(e, keys + block, bias, m)
      && next.acc == Weighted(e, keys + block, m)
  {
    hide IsExp, Weight, Weighted, Top;
    SumsAppend(e, keys, block, m);
    assert Denominator(e, keys + block, bias, m) == Denominator(e, keys, bias, m) + Weight(e, block, m);
    if st.max.Some? {
      hide Denominator;
      RescaleDenominator(e, keys, bias, st.max.value, m);
      Rescale(e, keys, st.max.value, m);
      assert st.sum * e(st.max.value - m) == Denominator(e, keys, bias, m);
      assert st.acc * e(st.max.value - m) == Weighted(e, keys, m);
    } else {
      TopAttained(e, keys, bias, 0.0);
      EmptySums(e, bias, m);
    }
  }

  lemma TracksStep(e: Exp, st: Running, keys: seq<Key>, block: seq<Key>, bias: Option<real>)
    requires IsExp(e) && Tracks(e, st, keys, bias) && block != []
    ensures var max := Larger(st.max, Top(block, None));
      && max.Some?
      && Tracks(e, Folded(e, st, max.value, Weight(e, block, max.value), Weighted(e, block, max.value)), keys + block, bias)
  {
    hide IsExp, Weight, Weighted, Top, Denominator;
    TopAppend(keys, block, bias);
    TopAttained(e, keys + block, bias, 0.0);
    var m := Larger(st.max, Top(block, None)).value;
    FoldedSums(e, st, keys, block, bias, m);
    assert Folded(e, st, m, Weight(e, block, m), Weighted(e, block, m)).max == Some(m);
    hide Folded;
  }

  lemma EmptySums(e: Exp, bias: Option<real>, shift: real)
    requires bias.None?
    ensures Denominator(e, [], bias, shift) == 0.0 && Weighted(e, [], shift) == 0.0
  {
  }

  /** One block of up to `width` scores; a lane past the last key carries no score and weighs
      nothing. */
  method FoldBlock(e: Exp, st: Running, ghost keys: seq<Key>, block: seq<Key>, width: nat, ghost bias: Option<real>)
      returns (next: Running)
    requires IsExp(e) && Tracks(e, st, keys, bias) && 0 < |block| <= width
    ensures Tracks(e, next, keys + block, bias)
  {
    hide IsExp, Tracks, Folded;
    var top: Option<real> := None;
    for j := 0 to width
      invariant top == Top(block[..if j < |block| then j else |block|], None)
    {
      if j < |block| {
        assert block[..j + 1][..j] == block[..j];
        top := Larger(top, Some(block[j].score));
      }
    }
    assert block[..|block|] == block;
    TracksStep(e, st, keys, block, bias);
    var max := Larger(st.max, top);
    var sum, acc := 0.0, 0.0;
    for j := 0 to width
      invariant sum == Weight(e, block[..if j < |block| then j else |block|], max.value)
      invariant acc == Weighted(e, block[..if j < |block| then j else |block|], max.value)
    {
      if j < |block| {
        assert block[..j + 1][..j] == block[..j];
        var p := e(block[j].score - max.value);
        sum := sum + p;
        acc := acc + p * block[j].value;
      }
    }
    return Folded(e, st, max.value, sum, acc);
  }

  const FLOOR: real := 0.000000000000000000000000000001

  function Floored(x: real): real { if x < FLOOR then FLOOR else x }

  lemma Reciprocal(n: real, d: real)
    requires d > 0.0
    ensures n * (1.0 / d) == n / d
  {
    var q := 1.0 / d;
    assert q * d == 1.0;
    assert (n * q) * d == n;
  }

  /** The tile kernel: blocks of `width` keys with a running maximum. With any candidate at all
      the result is the softmax and the floor does nothing; with none it is zero. */
  method Online(e: Exp, keys: seq<Key>, bias: Option<real>, width: nat) returns (out: real)
    requires IsExp(e) && 0 < width
    ensures if keys == [] && bias.None? then out == 0.0 else out == Attention(e, keys, bias)
  {
    hide IsExp, Attention;
    StartTracks(e, bias);
    var st := Running(bias, if bias.None? then 0.0 else 1.0, 0.0);
    var kb := 0;
    assert keys[..0] == [];
    while kb < |keys|
      invariant 0 <= kb <= |keys| && Tracks(e, st, keys[..kb], bias)
    {
      hide Tracks;
      var end := if kb + width < |keys| then kb + width else |keys|;
      assert keys[..kb] + keys[kb..end] == keys[..end];
      st := FoldBlock(e, st, keys[..kb], keys[kb..end], width, bias);
      kb := end;
    }
    assert keys[..kb] == keys;
    FinishTracks(e, st, keys, bias);
    out := st.acc * (1.0 / Floored(st.sum));
  }

  lemma StartTracks(e: Exp, bias: Option<real>)
    requires IsExp(e)
    ensures Tracks(e, Running(bias, if bias.None? then 0.0 else 1.0, 0.0), [], bias)
  {
    hide IsExp;
    ExpZero(e);
  }

  /** The floor never binds when there is a candidate. */
  lemma FinishTracks(e: Exp, st: Running, keys: seq<Key>, bias: Option<real>)
    requires IsExp(e) && Tracks(e, st, keys, bias)
    ensures keys != [] || bias.Some? ==> st.sum >= 1.0 && st.acc * (1.0 / Floored(st.sum)) == Attention(e, keys, bias)
    ensures keys == [] && bias.None? ==> st.acc * (1.0 / Floored(st.sum)) == 0.0
  {
    hide IsExp, Attention, Weight, Weighted, Denominator, Top;
    TopAttained(e, keys, bias, if st.max.Some? then st.max.value else 0.0);
    if st.max.Some? {
      ShiftInvariant(e, keys, bias, st.max.value);
      Reciprocal(st.acc, st.sum);
    }
  }

  /** The online form over every way of cutting the keys into non-empty blocks. */
  ghost function FoldAll(e: Exp, blocks: seq<seq<Key>>, bias: Option<real>): Running
    requires IsExp(e)
  {
    if blocks == [] then Running(bias, if bias.None? then 0.0 else 1.0, 0.0)
    else
      var st, block := FoldAll(e, blocks[..|blocks| - 1], bias), blocks[|blocks| - 1];
      var max := Larger(st.max, Top(block, None));
      if max.None? then st
      else Folded(e, st, max.value, Weight(e, block, max.value), Weighted(e, block, max.value))
  }

  ghost function Joined(blocks: seq<seq<Key>>): seq<Key> {
    if blocks == [] then [] else Joined(blocks[..|blocks| - 1]) + blocks[|blocks| - 1]
  }

  lemma {:induction false} FoldTracks(e: Exp, blocks: seq<seq<Key>>, bias: Option<real>)
    requires IsExp(e) && forall b :: 0 <= b < |blocks| ==> blocks[b] != []
    ensures Tracks(e, FoldAll(e, blocks, bias), Joined(blocks), bias)
  {
    hide IsExp, Tracks, Folded, Weight, Weighted, Top;
    if blocks == [] {
      StartTracks(e, bias);
    } else {
      var rest, block := blocks[..|blocks| - 1], blocks[|blocks| - 1];
      FoldTracks(e, rest, bias);
      TracksStep(e, FoldAll(e, rest, bias), Joined(rest), block, bias);
    }
  }

  /** No partition changes the result. */
  lemma PartitionInvariant(e: Exp, blocks: seq<seq<Key>>, bias: Option<real>)
    requires IsExp(e) && (forall b :: 0 <= b < |blocks| ==> blocks[b] != [])
    requires Joined(blocks) != [] || bias.Some?
    ensures var st := FoldAll(e, blocks, bias); st.acc * (1.0 / Floored(st.sum)) == Attention(e, Joined(blocks), bias)
  {
    hide IsExp, Tracks, FoldAll, Joined, Attention;
    FoldTracks(e, blocks, bias);
    FinishTracks(e, FoldAll(e, blocks, bias), Joined(blocks), bias);
  }
}
