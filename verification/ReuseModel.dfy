/** What the profiler's index is worth: the marks the Fenwick tree stands for after a
    stream, the distance it reports, and how that compares with the LRU cache. */
module ReuseModel {
  import opened Fenwick
  import opened StackDistance

  /** Tree capacity after `n` requests: doubled whenever the next position would not fit. */
  function Capacity(cap0: nat, n: nat): (c: nat)
    requires 0 < cap0
    ensures n <= c && cap0 <= c
  {
    if n == 0 then cap0
    else var c := Capacity(cap0, n - 1); if c < n then 2 * c else c
  }

  predicate GrowsAt(cap0: nat, i: nat)
    requires 0 < cap0
  {
    Capacity(cap0, i) < i + 1
  }

  /** The one mark that should have been removed and is back, or -1: a rebuild on a
      re-reference restores the mark its own removal had just cleared, and only the next
      rebuild drops it. */
  function Stale(s: seq<nat>, cap0: nat, i: nat): (p: int)
    requires 0 < cap0 && i <= |s|
    ensures -1 <= p < i
  {
    if i == 0 then -1
    else if GrowsAt(cap0, i - 1) then LastBefore(s, i - 1, s[i - 1])
    else Stale(s, cap0, i - 1)
  }

  predicate Latest(s: seq<nat>, i: nat, p: nat)
    requires p < i <= |s|
  {
    LastBefore(s, i, s[p]) == p
  }

  /** A mark on each expert's latest position. */
  ghost function ExactMarks(s: seq<nat>, i: nat, size: nat): (marks: seq<int>)
    requires i <= |s|
    ensures |marks| == size
    ensures forall p :: 0 <= p < size ==> marks[p] == if p < i && Latest(s, i, p) then 1 else 0
  {
    seq(size, p requires 0 <= p => if p < i && Latest(s, i, p) then 1 else 0)
  }

  ghost function Marks(s: seq<nat>, cap0: nat, i: nat): (marks: seq<int>)
    requires 0 < cap0 && i <= |s|
    ensures |marks| == Capacity(cap0, i)
  {
    var exact := ExactMarks(s, i, Capacity(cap0, i));
    var p := Stale(s, cap0, i);
    if 0 <= p then exact[p := exact[p] + 1] else exact
  }

  ghost predicate Overcounts(s: seq<nat>, cap0: nat, i: nat)
    requires 0 < cap0 && i < |s|
  {
    LastBefore(s, i, s[i]) < Stale(s, cap0, i)
  }

  /** The distance the profiler computes for a re-reference. */
  ghost function Reported(s: seq<nat>, cap0: nat, i: nat): nat
    requires 0 < cap0 && i < |s| && Rereferenced(s, i)
  {
    Distance(s, i) + if Overcounts(s, cap0, i) then 1 else 0
  }

  // -- The marks count distinct experts ----------------------------------------------

  lemma {:induction false} ExactCount(s: seq<nat>, i: nat, size: nat, lo: nat)
    requires lo <= i <= |s| && i <= size
    ensures Sum(ExactMarks(s, i, size), lo, i) == |Elems(s, lo, i)|
    decreases i - lo
  {
    var marks := ExactMarks(s, i, size);
    if lo < i {
      ExactCount(s, i, size, lo + 1);
      SumSplit(marks, lo, lo + 1, i);
      assert Sum(marks, lo, lo + 1) == marks[lo];
      ElemsPeel(s, lo, i);
    } else {
      assert Elems(s, lo, i) == {};
    }
  }

  lemma ElemsPeel(s: seq<nat>, lo: nat, i: nat)
    requires lo < i <= |s|
    ensures |Elems(s, lo, i)| == |Elems(s, lo + 1, i)| + if Latest(s, i, lo) then 1 else 0
  {
    assert Elems(s, lo, i) == Elems(s, lo + 1, i) + {s[lo]};
    if !Latest(s, i, lo) {
      var p := LastBefore(s, i, s[lo]);
      assert lo < p && s[p] == s[lo];
    }
  }

  /** Two prefix sums of the tree give the reported distance. */
  lemma MarksGiveReported(s: seq<nat>, cap0: nat, i: nat)
    requires 0 < cap0 && i < |s| && Rereferenced(s, i)
    ensures var marks := Marks(s, cap0, i);
            Sum(marks, 0, i) - Sum(marks, 0, LastBefore(s, i, s[i]) + 1) == Reported(s, cap0, i)
  {
    hide Sum, Marks, LastBefore, Elems, Stale, Capacity;
    var lo := LastBefore(s, i, s[i]) + 1;
    SumSplit(Marks(s, cap0, i), 0, lo, i);
    MarksCount(s, cap0, i, lo);
  }

  lemma MarksCount(s: seq<nat>, cap0: nat, i: nat, lo: nat)
    requires 0 < cap0 && lo <= i <= |s|
    ensures Sum(Marks(s, cap0, i), lo, i)
         == |Elems(s, lo, i)| + if lo <= Stale(s, cap0, i) then 1 else 0
  {
    ExactCount(s, i, Capacity(cap0, i), lo);
    if 0 <= Stale(s, cap0, i) {
      SumUpdate(ExactMarks(s, i, Capacity(cap0, i)), Stale(s, cap0, i), 1, lo, i);
    }
  }

  /** The histogram's clamp is never needed. */
  lemma ReportedFits(s: seq<nat>, cap0: nat, i: nat, total: nat)
    requires 0 < cap0 && i < |s| && Rereferenced(s, i)
    requires forall p :: 0 <= p < |s| ==> s[p] < total
    ensures Reported(s, cap0, i) <= total
  {
    var lo := LastBefore(s, i, s[i]) + 1;
    var others := Elems(s, lo, i);
    assert s[i] !in others;
    IdsBelow(others + {s[i]}, total);
  }

  lemma {:induction false} IdsBelow(ids: set<nat>, total: nat)
    requires forall g :: g in ids ==> g < total
    ensures |ids| <= total
  {
    if total == 0 {
      assert ids == {};
    } else {
      IdsBelow(ids - {total - 1}, total - 1);
    }
  }

  // -- One request at a time -----------------------------------------------------------

  /** A first selection: one mark, on a tree rebuilt or not. */
  lemma FirstStep(s: seq<nat>, cap0: nat, i: nat)
    requires 0 < cap0 && i < |s| && !Rereferenced(s, i)
    ensures var size := Capacity(cap0, i + 1);
            var before := if GrowsAt(cap0, i) then ExactMarks(s, i, size) else Marks(s, cap0, i);
            Marks(s, cap0, i + 1) == before[i := before[i] + 1]
  {
    LatestStep(s, i);
  }

  /** A re-reference without growth moves the expert's mark. */
  lemma MoveStep(s: seq<nat>, cap0: nat, i: nat)
    requires 0 < cap0 && i < |s| && Rereferenced(s, i) && !GrowsAt(cap0, i)
    ensures var last := LastBefore(s, i, s[i]);
            var marks := Marks(s, cap0, i);
            var cleared := marks[last := marks[last] - 1];
            Marks(s, cap0, i + 1) == cleared[i := cleared[i] + 1]
  {
    LatestStep(s, i);
  }

  /** A re-reference whose insertion grows the tree: the rebuild is exact for the stream
      before the request, so the expert ends with two marks. */
  lemma GrowStep(s: seq<nat>, cap0: nat, i: nat)
    requires 0 < cap0 && i < |s| && Rereferenced(s, i) && GrowsAt(cap0, i)
    ensures var rebuilt := ExactMarks(s, i, Capacity(cap0, i + 1));
            Marks(s, cap0, i + 1) == rebuilt[i := rebuilt[i] + 1]
  {
    LatestStep(s, i);
  }

  lemma LatestStep(s: seq<nat>, i: nat)
    requires i < |s|
    ensures Latest(s, i + 1, i)
    ensures forall p :: 0 <= p < i ==> (Latest(s, i + 1, p) <==> Latest(s, i, p) && s[p] != s[i])
    ensures forall p :: 0 <= p < i ==> (Latest(s, i, p) && s[p] == s[i] <==> p == LastBefore(s, i, s[i]))
  {
  }

  // -- Tallies over a stream -------------------------------------------------------------

  ghost function CountTrue(bs: seq<bool>, n: nat): nat
    requires n <= |bs|
  {
    if n == 0 then 0 else CountTrue(bs, n - 1) + if bs[n - 1] then 1 else 0
  }

  ghost function CountBoth(bs: seq<bool>, cs: seq<bool>, n: nat): nat
    requires n <= |bs| == |cs|
  {
    if n == 0 then 0 else CountBoth(bs, cs, n - 1) + if bs[n - 1] && cs[n - 1] then 1 else 0
  }

  /** Counted first-ever selections. */
  ghost function Compulsory(s: seq<nat>, counted: seq<bool>, n: nat): nat
    requires n <= |s| == |counted|
  {
    if n == 0 then 0
    else Compulsory(s, counted, n - 1) + if counted[n - 1] && !Rereferenced(s, n - 1) then 1 else 0
  }

  /** Counted re-references whose reported distance is `d`. */
  ghost function AtDistance(s: seq<nat>, counted: seq<bool>, cap0: nat, n: nat, d: nat): nat
    requires 0 < cap0 && n <= |s| == |counted|
  {
    if n == 0 then 0
    else AtDistance(s, counted, cap0, n - 1, d) +
         if counted[n - 1] && Rereferenced(s, n - 1) && Reported(s, cap0, n - 1) == d then 1 else 0
  }

  /** Counted re-references whose reported distance is below `slots`: the curve's hits. */
  ghost function ReportedHits(s: seq<nat>, counted: seq<bool>, cap0: nat, n: nat, slots: nat): nat
    requires 0 < cap0 && n <= |s| == |counted|
  {
    if n == 0 then 0
    else ReportedHits(s, counted, cap0, n - 1, slots) +
         if counted[n - 1] && Rereferenced(s, n - 1) && Reported(s, cap0, n - 1) < slots then 1 else 0
  }

  /** Last positions and tree are those of the first `i` requests. */
  ghost predicate Indexed(
    lastPos: seq<int>, tree: seq<int>, capacity: nat, s: seq<nat>, cap0: nat, total: nat, i: nat)
    requires 0 < cap0 && i <= |s|
  {
    && LastPositions(lastPos, s, total, i)
    && capacity == Capacity(cap0, i)
    && Represents(tree, Marks(s, cap0, i))
  }

  ghost predicate LastPositions(lastPos: seq<int>, s: seq<nat>, total: nat, i: nat)
    requires i <= |s|
  {
    |lastPos| == total && forall g :: 0 <= g < total ==> lastPos[g] == LastBefore(s, i, g)
  }

  function NeverSeen(total: nat): (l: seq<int>)
    ensures |l| == total && forall g :: 0 <= g < total ==> l[g] == -1
  {
    seq(total, _ => -1)
  }

  /** The index of a stream is also the index of its extension's past. */
  lemma IndexExtend(
    lastPos: seq<int>, tree: seq<int>, capacity: nat, s: seq<nat>, x: nat, cap0: nat, total: nat)
    requires 0 < cap0 && Indexed(lastPos, tree, capacity, s, cap0, total, |s|)
    ensures Indexed(lastPos, tree, capacity, s + [x], cap0, total, |s|)
  {
    PrefixMarks(s, x, cap0, |s|);
    forall g | 0 <= g < total
      ensures LastBefore(s + [x], |s|, g) == LastBefore(s, |s|, g)
    {
      PrefixLast(s, x, |s|, g);
    }
  }

  /** Selecting `s[i]` changes only its own last position. */
  lemma LastPositionsStep(lastPos: seq<int>, s: seq<nat>, total: nat, i: nat)
    requires i < |s| && LastPositions(lastPos, s, total, i) && s[i] < total
    ensures LastPositions(lastPos[s[i] := i], s, total, i + 1)
  {
  }

  /** The profiler's counters and histogram. */
  datatype Tally = Tally(observed: nat, measuredHot: nat, compulsory: nat, hist: seq<nat>)

  /** The counters are those of the first `n` requests of the stream. */
  ghost predicate Tallied(
    t: Tally, s: seq<nat>, counted: seq<bool>, hot: seq<bool>, cap0: nat, total: nat, n: nat)
    requires 0 < cap0 && n <= |s| == |counted| == |hot|
  {
    && t.observed == CountTrue(counted, n)
    && t.measuredHot == CountBoth(counted, hot, n)
    && t.compulsory == Compulsory(s, counted, n)
    && |t.hist| == total + 1
    && forall d :: 0 <= d <= total ==> t.hist[d] == AtDistance(s, counted, cap0, n, d)
  }

  lemma HistogramWidth(
    t: Tally, s: seq<nat>, counted: seq<bool>, hot: seq<bool>, cap0: nat, total: nat, n: nat)
    requires 0 < cap0 && n <= |s| == |counted| == |hot| && Tallied(t, s, counted, hot, cap0, total, n)
    ensures |t.hist| == total + 1
  {
  }

  /** A freshly reset profiler describes the empty stream. */
  lemma EmptyIndex(total: nat, cap0: nat)
    requires 0 < cap0
    ensures Indexed(NeverSeen(total), Zeros(cap0 + 1), cap0, [], cap0, total, 0)
    ensures Tallied(Tally(0, 0, 0, Zeros(total + 1)), [], [], [], cap0, total, 0)
  {
    EmptyTree(cap0);
    assert Marks([], cap0, 0) == Zeros(cap0);
  }

  lemma TallyExtend(
    t: Tally, s: seq<nat>, x: nat, counted: seq<bool>, c: bool, hot: seq<bool>, h: bool,
    cap0: nat, total: nat)
    requires 0 < cap0 && |s| == |counted| == |hot| && Tallied(t, s, counted, hot, cap0, total, |s|)
    ensures Tallied(t, s + [x], counted + [c], hot + [h], cap0, total, |s|)
  {
    PrefixCounts(counted, c, hot, h, |s|);
    PrefixTallies(s, x, counted, c, cap0, |s|, 0);
    forall d | 0 <= d <= total
      ensures AtDistance(s + [x], counted + [c], cap0, |s|, d) == AtDistance(s, counted, cap0, |s|, d)
    {
      PrefixTallies(s, x, counted, c, cap0, |s|, d);
    }
  }

  /** How the counters move on request `n`. */
  lemma TallyStep(
    t: Tally, t': Tally, s: seq<nat>, counted: seq<bool>, hot: seq<bool>, cap0: nat, total: nat, n: nat)
    requires 0 < cap0 && n < |s| == |counted| == |hot| && Tallied(t, s, counted, hot, cap0, total, n)
    requires t'.observed == t.observed + if counted[n] then 1 else 0
    requires t'.measuredHot == t.measuredHot + if counted[n] && hot[n] then 1 else 0
    requires t'.compulsory == t.compulsory + if counted[n] && !Rereferenced(s, n) then 1 else 0
    requires if counted[n] && Rereferenced(s, n) then
               var d := Reported(s, cap0, n);
               d < |t.hist| && t'.hist == t.hist[d := t.hist[d] + 1]
             else t'.hist == t.hist
    ensures Tallied(t', s, counted, hot, cap0, total, n + 1)
  {
  }

  lemma {:induction false} NextBucket(s: seq<nat>, counted: seq<bool>, cap0: nat, n: nat, d: nat)
    requires 0 < cap0 && n <= |s| == |counted|
    ensures ReportedHits(s, counted, cap0, n, d + 1)
         == ReportedHits(s, counted, cap0, n, d) + AtDistance(s, counted, cap0, n, d)
  {
    if 0 < n {
      NextBucket(s, counted, cap0, n - 1, d);
    }
  }

  lemma {:induction false} NoHitsInNoSlots(s: seq<nat>, counted: seq<bool>, cap0: nat, n: nat)
    requires 0 < cap0 && n <= |s| == |counted|
    ensures ReportedHits(s, counted, cap0, n, 0) == 0
  {
    if 0 < n {
      NoHitsInNoSlots(s, counted, cap0, n - 1);
    }
  }

  lemma {:induction false} AllBuckets(s: seq<nat>, counted: seq<bool>, cap0: nat, n: nat, total: nat, slots: nat)
    requires 0 < cap0 && n <= |s| == |counted| && total < slots
    requires forall p :: 0 <= p < |s| ==> s[p] < total
    ensures ReportedHits(s, counted, cap0, n, slots) == ReportedHits(s, counted, cap0, n, total + 1)
  {
    if 0 < n {
      AllBuckets(s, counted, cap0, n - 1, total, slots);
      if Rereferenced(s, n - 1) {
        ReportedFits(s, cap0, n - 1, total);
      }
    }
  }

  // -- The curve against the cache ---------------------------------------------------------

  /** One request: a bucket below `slots` is a hit, and the converse without overcount. */
  lemma BucketVersusCache(s: seq<nat>, cap0: nat, i: nat, slots: nat)
    requires 0 < cap0 && i < |s|
    ensures Rereferenced(s, i) && Reported(s, cap0, i) < slots ==> s[i] in LruCache(s, i, slots)
    ensures s[i] in LruCache(s, i, slots) ==>
              Rereferenced(s, i) && (Overcounts(s, cap0, i) || Reported(s, cap0, i) < slots)
  {
    LruHitIffNear(s, i, slots);
  }

  /** The curve never promises more than the cache delivers. */
  lemma {:induction false} CurveIsLowerBound(s: seq<nat>, counted: seq<bool>, cap0: nat, n: nat, slots: nat)
    requires 0 < cap0 && n <= |s| == |counted|
    ensures ReportedHits(s, counted, cap0, n, slots) <= LruHits(s, counted, n, slots)
  {
    hide LruCache, Reported, Overcounts, Rereferenced;
    if 0 < n {
      CurveIsLowerBound(s, counted, cap0, n - 1, slots);
      BucketVersusCache(s, cap0, n - 1, slots);
    }
  }

  ghost predicate CurveIsExact(s: seq<nat>, counted: seq<bool>, cap0: nat)
    requires 0 < cap0 && |s| == |counted|
  {
    forall slots ::
      ReportedHits(s, counted, cap0, |s|, slots) == LruHits(s, counted, |s|, slots)
  }

  ghost predicate CountedOvercount(s: seq<nat>, counted: seq<bool>, cap0: nat, i: nat)
    requires 0 < cap0 && i < |s| == |counted|
  {
    counted[i] && Rereferenced(s, i) && Overcounts(s, cap0, i)
  }

  /** The ideal-LRU curve is exact at every capacity if and only if no counted request
      re-references an expert last selected before a stale mark. */
  lemma CurveExactIff(s: seq<nat>, counted: seq<bool>, cap0: nat)
    requires 0 < cap0 && |s| == |counted|
    ensures CurveIsExact(s, counted, cap0) <==>
            forall i :: 0 <= i < |s| ==> !CountedOvercount(s, counted, cap0, i)
  {
    if i: nat :| i < |s| && CountedOvercount(s, counted, cap0, i) {
      Shortfall(s, counted, cap0, i, |s|);
      assert !CurveIsExact(s, counted, cap0);
    } else {
      forall slots
        ensures ReportedHits(s, counted, cap0, |s|, slots) == LruHits(s, counted, |s|, slots)
      {
        CurveExactSoFar(s, counted, cap0, |s|, slots);
      }
    }
  }

  lemma {:induction false} CurveExactSoFar(s: seq<nat>, counted: seq<bool>, cap0: nat, n: nat, slots: nat)
    requires 0 < cap0 && n <= |s| == |counted|
    requires forall i :: 0 <= i < n ==> !CountedOvercount(s, counted, cap0, i)
    ensures ReportedHits(s, counted, cap0, n, slots) == LruHits(s, counted, n, slots)
  {
    hide LruCache, Reported, Overcounts, Rereferenced;
    if 0 < n {
      assert !CountedOvercount(s, counted, cap0, n - 1);
      CurveExactSoFar(s, counted, cap0, n - 1, slots);
      BucketVersusCache(s, cap0, n - 1, slots);
    }
  }

  lemma {:induction false} Shortfall(s: seq<nat>, counted: seq<bool>, cap0: nat, i: nat, n: nat)
    requires 0 < cap0 && i < n <= |s| == |counted| && CountedOvercount(s, counted, cap0, i)
    ensures var slots := Distance(s, i) + 1;
            ReportedHits(s, counted, cap0, n, slots) < LruHits(s, counted, n, slots)
  {
    hide LruCache, Distance, LastBefore, Stale;
    var slots := Distance(s, i) + 1;
    if i < n - 1 {
      Shortfall(s, counted, cap0, i, n - 1);
      BucketVersusCache(s, cap0, n - 1, slots);
    } else {
      LruHitIffNear(s, i, slots);
      CurveIsLowerBound(s, counted, cap0, i, slots);
    }
  }

  /** While every growth so far was at a first selection there is no stale mark, and every
      distance is exact. */
  lemma {:induction false} ExactWithoutStaleGrowth(s: seq<nat>, cap0: nat, i: nat)
    requires 0 < cap0 && i <= |s|
    requires forall p :: 0 <= p < i && GrowsAt(cap0, p) ==> !Rereferenced(s, p)
    ensures Stale(s, cap0, i) == -1
    ensures i < |s| && Rereferenced(s, i) ==> Reported(s, cap0, i) == Distance(s, i)
  {
    if 0 < i {
      ExactWithoutStaleGrowth(s, cap0, i - 1);
    }
  }

  ghost function Pow2(k: nat): nat { if k == 0 then 1 else 2 * Pow2(k - 1) }

  /** The tree's capacity is its first one doubled, no more often than the requests need. */
  lemma {:induction false} CapacityIsDoubled(cap0: nat, n: nat) returns (k: nat)
    requires 0 < cap0
    ensures Capacity(cap0, n) == cap0 * Pow2(k)
    ensures k > 0 ==> cap0 * Pow2(k - 1) < n
  {
    if n == 0 {
      k := 0;
    } else {
      k := CapacityIsDoubled(cap0, n - 1);
      if Capacity(cap0, n - 1) < n {
        assert cap0 * Pow2(k + 1) == 2 * (cap0 * Pow2(k));
        k := k + 1;
      }
    }
  }

  /** In particular until the tree first grows. */
  lemma {:induction false} NoGrowthYet(cap0: nat, i: nat)
    requires 0 < cap0 && i <= cap0
    ensures Capacity(cap0, i) == cap0 && forall p :: 0 <= p < i ==> !GrowsAt(cap0, p)
  {
    if 0 < i {
      NoGrowthYet(cap0, i - 1);
    }
  }

  /** Two experts suffice to see the stale mark: after one request of expert 0 and 1024
      of expert 1, the next request of expert 0 reports distance 2 instead of 1, so the
      curve misses a hit of the two-slot cache. */
  function LongRun(): (s: seq<nat>) {
    [0] + seq(1024, _ => 1) + [0]
  }

  lemma LongRunOvercounts()
    ensures var s := LongRun();
            Rereferenced(s, 1025) && Distance(s, 1025) == 1 && Reported(s, 1024, 1025) == 2
  {
    var s := LongRun();
    NoGrowthYet(1024, 1024);
    assert GrowsAt(1024, 1024);
    assert LastBefore(s, 1024, s[1024]) == 1023;
    assert Stale(s, 1024, 1025) == 1023;
    assert LastBefore(s, 1025, s[1025]) == 0 by {
      assert s[0] == 0;
    }
    assert Elems(s, 1, 1025) == {1} by {
      assert s[1] == 1;
    }
  }

  // -- Extending the stream leaves the past alone ---------------------------------------------

  lemma {:induction false} PrefixLast(s: seq<nat>, x: nat, i: nat, g: nat)
    requires i <= |s|
    ensures LastBefore(s + [x], i, g) == LastBefore(s, i, g)
  {
    if 0 < i {
      PrefixLast(s, x, i - 1, g);
    }
  }

  lemma {:induction false} PrefixStale(s: seq<nat>, x: nat, cap0: nat, i: nat)
    requires 0 < cap0 && i <= |s|
    ensures Stale(s + [x], cap0, i) == Stale(s, cap0, i)
  {
    if 0 < i {
      PrefixStale(s, x, cap0, i - 1);
      PrefixLast(s, x, i - 1, s[i - 1]);
    }
  }

  lemma PrefixMarks(s: seq<nat>, x: nat, cap0: nat, i: nat)
    requires 0 < cap0 && i <= |s|
    ensures Marks(s + [x], cap0, i) == Marks(s, cap0, i)
  {
    PrefixStale(s, x, cap0, i);
    forall p | 0 <= p < i
      ensures Latest(s + [x], i, p) == Latest(s, i, p)
    {
      PrefixLast(s, x, i, s[p]);
    }
  }

  lemma PrefixReported(s: seq<nat>, x: nat, cap0: nat, i: nat)
    requires 0 < cap0 && i < |s|
    ensures Rereferenced(s + [x], i) == Rereferenced(s, i)
    ensures Rereferenced(s, i) ==> Reported(s + [x], cap0, i) == Reported(s, cap0, i)
  {
    PrefixLast(s, x, i, s[i]);
    PrefixStale(s, x, cap0, i);
    if Rereferenced(s, i) {
      var lo := LastBefore(s, i, s[i]) + 1;
      ElemsAgree(s + [x], s, lo, i);
    }
  }

  lemma ElemsAgree(a: seq<nat>, b: seq<nat>, lo: nat, hi: nat)
    requires lo <= hi <= |a| && hi <= |b|
    requires forall p :: lo <= p < hi ==> a[p] == b[p]
    ensures Elems(a, lo, hi) == Elems(b, lo, hi)
  {
    forall g | g in Elems(a, lo, hi)
      ensures g in Elems(b, lo, hi)
    {
      var p :| lo <= p < hi && a[p] == g;
      assert b[p] == g;
    }
  }

  lemma {:induction false} PrefixTallies(
    s: seq<nat>, x: nat, counted: seq<bool>, c: bool, cap0: nat, n: nat, d: nat)
    requires 0 < cap0 && n <= |s| == |counted|
    ensures AtDistance(s + [x], counted + [c], cap0, n, d) == AtDistance(s, counted, cap0, n, d)
    ensures Compulsory(s + [x], counted + [c], n) == Compulsory(s, counted, n)
  {
    hide Reported, Rereferenced, LastBefore;
    if 0 < n {
      PrefixTallies(s, x, counted, c, cap0, n - 1, d);
      PrefixReported(s, x, cap0, n - 1);
    }
  }

  lemma {:induction false} PrefixCounts(counted: seq<bool>, c: bool, hot: seq<bool>, h: bool, n: nat)
    requires n <= |counted| == |hot|
    ensures CountTrue(counted + [c], n) == CountTrue(counted, n)
    ensures CountBoth(counted + [c], hot + [h], n) == CountBoth(counted, hot, n)
  {
    if 0 < n {
      PrefixCounts(counted, c, hot, h, n - 1);
    }
  }
}
