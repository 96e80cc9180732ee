/** A Fenwick (binary indexed) tree over request positions: the tree the routing
    profiler keeps, specified by the plain sequence of marks it stands for. */
module Fenwick {

  /** The largest power of two dividing `i`: the `i & (~i + 1)` of the source. */
  function LowBit(i: nat): (b: nat)
    requires 0 < i
    ensures 1 <= b <= i
  {
    if i % 2 == 1 then 1 else 2 * LowBit(i / 2)
  }

  /** Marks in `[lo, hi)`. */
  function Sum(marks: seq<int>, lo: nat, hi: nat): int
    requires lo <= hi <= |marks|
  {
    if lo == hi then 0 else Sum(marks, lo, hi - 1) + marks[hi - 1]
  }

  function Zeros(n: nat): (z: seq<nat>)
    ensures |z| == n && forall i :: 0 <= i < n ==> z[i] == 0
  {
    seq(n, _ => 0)
  }

  /** Node `i` (1-based) holds the marks of the `LowBit(i)` positions ending at `i`. */
  ghost predicate Represents(tree: seq<int>, marks: seq<int>) {
    && |tree| == |marks| + 1
    && forall i :: 1 <= i <= |marks| ==> tree[i] == Sum(marks, i - LowBit(i), i)
  }

  /** Adds `delta` at position `index` by walking the chain of nodes that cover it. */
  method Bump(tree: seq<int>, ghost marks: seq<int>, index: nat, delta: int) returns (result: seq<int>)
    requires Represents(tree, marks)
    requires index < |marks|
    ensures Represents(result, marks[index := marks[index] + delta])
  {
    result := tree;
    var i := index + 1;
    while i < |tree|
      invariant 1 <= i && |result| == |tree|
      invariant i - LowBit(i) <= index < i
      invariant forall j :: 1 <= j < |tree| ==>
        result[j] == tree[j] + if j < i && Covers(j, index) then delta else 0
    {
      result := result[i := result[i] + delta];
      NextNode(i, index);
      i := i + LowBit(i);
    }
    var marks' := marks[index := marks[index] + delta];
    forall j | 1 <= j < |tree|
      ensures result[j] == Sum(marks', j - LowBit(j), j)
    {
      SumUpdate(marks, index, delta, j - LowBit(j), j);
    }
  }

  /** The marks at positions `0 .. index`, inclusive; past the end, all of them. */
  method PrefixSum(tree: seq<int>, ghost marks: seq<int>, index: nat) returns (total: int)
    requires Represents(tree, marks)
    ensures total == Sum(marks, 0, if index < |marks| then index + 1 else |marks|)
  {
    total := 0;
    var start := if index + 1 < |tree| then index + 1 else |tree| - 1;
    var i := start;
    while 0 < i
      invariant 0 <= i <= start <= |marks|
      invariant total + Sum(marks, 0, i) == Sum(marks, 0, start)
    {
      total := total + tree[i];
      SumSplit(marks, 0, i - LowBit(i), i);
      i := i - LowBit(i);
    }
  }

  ghost predicate Covers(node: nat, index: nat)
    requires 0 < node
  {
    node - LowBit(node) <= index < node
  }

  lemma {:induction false} LowBitOfSum(i: nat, k: nat)
    requires 0 < i && 0 < k < LowBit(i)
    ensures LowBit(i + k) == LowBit(k)
  {
    if i % 2 == 0 && k % 2 == 0 {
      assert (i + k) / 2 == i / 2 + k / 2;
      LowBitOfSum(i / 2, k / 2);
    }
  }

  lemma {:induction false} LowBitCarry(i: nat)
    requires 0 < i
    ensures 2 * LowBit(i) <= LowBit(i + LowBit(i))
  {
    if i % 2 == 0 {
      assert (i + LowBit(i)) / 2 == i / 2 + LowBit(i / 2);
      LowBitCarry(i / 2);
    }
  }

  /** No node strictly between `i` and its successor covers a position `i` covers, and
      the successor covers it. */
  lemma NextNode(i: nat, index: nat)
    requires 0 < i && Covers(i, index)
    ensures Covers(i + LowBit(i), index)
    ensures forall j :: i < j < i + LowBit(i) ==> !Covers(j, index)
  {
    LowBitCarry(i);
    forall j | i < j < i + LowBit(i)
      ensures !Covers(j, index)
    {
      LowBitOfSum(i, j - i);
    }
  }

  lemma {:induction false} SumSplit(marks: seq<int>, lo: nat, mid: nat, hi: nat)
    requires lo <= mid <= hi <= |marks|
    ensures Sum(marks, lo, hi) == Sum(marks, lo, mid) + Sum(marks, mid, hi)
    decreases hi
  {
    if mid < hi {
      SumSplit(marks, lo, mid, hi - 1);
    }
  }

  lemma {:induction false} SumUpdate(marks: seq<int>, index: nat, delta: int, lo: nat, hi: nat)
    requires lo <= hi <= |marks| && index < |marks|
    ensures Sum(marks[index := marks[index] + delta], lo, hi)
         == Sum(marks, lo, hi) + if lo <= index < hi then delta else 0
  {
    if lo < hi {
      SumUpdate(marks, index, delta, lo, hi - 1);
    }
  }

  lemma {:induction false} SumZero(n: nat, lo: nat, hi: nat)
    requires lo <= hi <= n
    ensures Sum(Zeros(n), lo, hi) == 0
  {
    if lo < hi {
      SumZero(n, lo, hi - 1);
    }
  }

  lemma EmptyTree(n: nat)
    ensures Represents(Zeros(n + 1), Zeros(n))
  {
    forall i | 1 <= i <= n
      ensures Sum(Zeros(n), i - LowBit(i), i) == 0
    {
      SumZero(n, i - LowBit(i), i);
    }
  }
}
