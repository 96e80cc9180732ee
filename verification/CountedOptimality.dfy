/** Only some requests score: those of the learned layers. The replayed policy minimises
    all misses, so its counted hits are the best possible only for some masks. This
    module says exactly which, for each capacity. */
module CountedOptimality {
  import opened StackDistance
  import opened Belady

  /** LRU is one of the rivals. */
  ghost function LruSet(s: seq<nat>, n: nat, i: nat): set<nat>
    requires i <= |s|
  {
    Members(LruCache(s, i, n))
  }

  ghost function LruRun(s: seq<nat>, n: nat): seq<set<nat>> {
    seq(|s| + 1, i requires 0 <= i <= |s| => LruSet(s, n, i))
  }

  lemma LruIsDemandRun(s: seq<nat>, n: nat)
    requires 0 < n
    ensures DemandRun(s, n, LruRun(s, n))
  {
    var caches := LruRun(s, n);
    forall i | 0 <= i < |s|
      ensures Fetches(s[i], n, caches[i], caches[i + 1])
    {
      LruFetches(s, n, i);
    }
  }

  lemma LruFetches(s: seq<nat>, n: nat, i: nat)
    requires 0 < n && i < |s|
    ensures Fetches(s[i], n, LruSet(s, n, i), LruSet(s, n, i + 1))
  {
    var c := LruCache(s, i, n);
    var d := LruCache(s, i + 1, n);
    CacheDistinct(s, i, n);
    MovedContents(c, s[i]);
    CacheDistinct(s, i + 1, n);
    MembersSize(d);
    assert d[0] == s[i];
  }

  lemma {:induction false} LruHitsAsRun(s: seq<nat>, counted: seq<bool>, n: nat, m: nat)
    requires m <= |s| == |counted|
    ensures LruHits(s, counted, m, n) == Hits(s, counted, LruRun(s, n), m)
  {
    hide LruCache;
    if 0 < m {
      LruHitsAsRun(s, counted, n, m - 1);
      assert LruRun(s, n)[m - 1] == LruSet(s, n, m - 1);
    }
  }

  lemma OptBeatsLru(s: seq<nat>, counted: seq<bool>, n: nat)
    requires 0 < n && |s| == |counted|
    requires forall p :: 0 <= p < |s| ==> counted[p]
    ensures LruHits(s, counted, |s|, n) <= OptHits(s, counted, n, |s|)
  {
    LruIsDemandRun(s, n);
    LruHitsAsRun(s, counted, n, |s|);
    OptIsOptimal(s, counted, n, LruRun(s, n), |s|);
  }

  // -- Exactly when the counted hits are optimal ------------------------------------------

  /** Over every stream of a model of `total` experts, no rival scores more counted hits. */
  ghost predicate NoRivalBeatsOpt(counted: seq<bool>, n: nat, total: nat)
    requires 0 < n
  {
    forall s: seq<nat>, caches: seq<set<nat>> ::
      |s| == |counted| && InModel(s, total) && DemandRun(s, n, caches) ==>
        Hits(s, counted, caches, |s|) <= OptHits(s, counted, n, |s|)
  }

  /** An uncounted request at `j` late enough to compete for a slot with a counted
      request at `k`, which itself is late enough for every slot to be contended. */
  predicate Contends(counted: seq<bool>, n: nat, j: nat, k: nat) {
    2 <= n && n < j < k < |counted| && 2 * n <= k && !counted[j] && counted[k]
  }

  /** The condition is exact: it says for every mask, capacity and model whether some stream
      the profiler can receive makes the replayed policy's counted hits beatable. */
  lemma OptimalExactlyWhenUncontended(counted: seq<bool>, n: nat, total: nat)
    requires 0 < n
    ensures NoRivalBeatsOpt(counted, n, total) <==> total <= n || !exists j, k :: Contends(counted, n, j, k)
  {
    if n < total && exists j, k :: Contends(counted, n, j, k) {
      var j, k :| Contends(counted, n, j, k);
      var s := Duel(|counted|, n, j, k);
      assert InModel(s, total);
      DuelRivalIsDemandRun(|counted|, n, j, k);
      DuelHits(counted, n, j, k, |counted|);
    } else {
      forall s: seq<nat>, caches: seq<set<nat>> | |s| == |counted| && InModel(s, total) && DemandRun(s, n, caches)
        ensures Hits(s, counted, caches, |s|) <= OptHits(s, counted, n, |s|)
      {
        if total <= n {
          NeverFull(s, counted, n, total, caches, |s|);
        } else {
          Uncontended(s, counted, n, caches);
        }
      }
    }
  }

  /** With a slot for every expert nothing seen is ever lost. */
  lemma {:induction false} NeverFull(
    s: seq<nat>, counted: seq<bool>, n: nat, total: nat, caches: seq<set<nat>>, i: nat)
    requires 0 < n && total <= n && i <= |s| == |counted| && InModel(s, total) && DemandRun(s, n, caches)
    ensures OptCache(s, n, i) == Elems(s, 0, i) && caches[i] <= Elems(s, 0, i)
    ensures Hits(s, counted, caches, i) <= OptHits(s, counted, n, i)
  {
    hide OptStep, NextUse, InModel;
    if 0 < i {
      NeverFull(s, counted, n, total, caches, i - 1);
      assert Fetches(s[i - 1], n, caches[i - 1], caches[i]);
      assert Elems(s, 0, i) == Elems(s, 0, i - 1) + {s[i - 1]};
      if s[i - 1] in OptCache(s, n, i - 1) {
        OptKeeps(s, n, i - 1);
      } else {
        RoomLeft(s, total, i - 1);
        OptRoom(s, n, i - 1);
      }
    }
  }

  lemma OptKeeps(s: seq<nat>, n: nat, i: nat)
    requires 0 < n && i < |s| && s[i] in OptCache(s, n, i)
    ensures OptCache(s, n, i + 1) == OptCache(s, n, i)
  {
  }

  lemma RoomLeft(s: seq<nat>, total: nat, i: nat)
    requires i < |s| && InModel(s, total) && s[i] !in Elems(s, 0, i)
    ensures |Elems(s, 0, i)| < total
  {
    RangeSize(0, total, Elems(s, 0, i) + {s[i]});
  }

  // -- Uncontended masks --------------------------------------------------------------------

  lemma Uncontended(s: seq<nat>, counted: seq<bool>, n: nat, caches: seq<set<nat>>)
    requires 0 < n && |s| == |counted| && DemandRun(s, n, caches)
    requires !exists j, k :: Contends(counted, n, j, k)
    ensures Hits(s, counted, caches, |s|) <= OptHits(s, counted, n, |s|)
  {
    hide OptCache, Hits, NextUse, Dominates;
    if n == 1 {
      SingleSlot(s, counted, caches, |s|);
    } else if k: nat :| k < |s| && 2 * n <= k && counted[k] && forall q :: k < q < |s| ==> !counted[q] {
      SeenAreResident(s, counted, n, caches, n);
      AfterFill(s, counted, n, caches);
      assert forall p :: n < p <= k ==> counted[p] by {
        forall p | n < p <= k ensures counted[p] {
          assert !Contends(counted, n, p, k);
        }
      }
      DominatesFrom(s, counted, n, caches, n + 1, k + 1);
      DominatedHits(s, counted, n, caches, k + 1);
      HitsStopAt(s, counted, caches, k + 1, |s|);
      HitsStopAt(s, counted, OptRun(s, n), k + 1, |s|);
    } else {
      NoLateCounted(counted, n);
      ShortHits(s, counted, n, caches, |s|);
    }
  }

  lemma {:induction false} NoLateCounted(counted: seq<bool>, n: nat)
    requires !exists k: nat ::
      k < |counted| && 2 * n <= k && counted[k] && forall q :: k < q < |counted| ==> !counted[q]
    ensures forall k :: 2 * n <= k < |counted| ==> !counted[k]
  {
    var k := |counted|;
    while 2 * n < k
      invariant forall q :: 2 * n <= q && k <= q < |counted| ==> !counted[q]
    {
      k := k - 1;
    }
  }

  /** One slot leaves no choice: it holds the last request. */
  lemma {:induction false} SingleSlot(s: seq<nat>, counted: seq<bool>, caches: seq<set<nat>>, m: nat)
    requires m <= |s| == |counted| && DemandRun(s, 1, caches)
    ensures Hits(s, counted, caches, m) == OptHits(s, counted, 1, m)
  {
    if 0 < m {
      SingleSlot(s, counted, caches, m - 1);
      OptIsDemandRun(s, 1);
      if 1 < m {
        assert Fetches(s[m - 2], 1, caches[m - 2], caches[m - 1]);
        assert Fetches(s[m - 2], 1, OptRun(s, 1)[m - 2], OptRun(s, 1)[m - 1]);
        Singleton(caches[m - 1], s[m - 2]);
        Singleton(OptCache(s, 1, m - 1), s[m - 2]);
      }
    }
  }

  lemma Singleton(c: set<nat>, g: nat)
    requires g in c && |c| <= 1
    ensures c == {g}
  {
    assert |c - {g}| == 0;
  }

  /** Until the slots are full, everything seen is resident and nothing can be lost. */
  lemma {:induction false} SeenAreResident(
    s: seq<nat>, counted: seq<bool>, n: nat, caches: seq<set<nat>>, i: nat)
    requires 0 < n && i <= n && i <= |s| == |counted| && DemandRun(s, n, caches)
    ensures OptCache(s, n, i) == Elems(s, 0, i) && |OptCache(s, n, i)| <= i
    ensures caches[i] <= Elems(s, 0, i)
    ensures Hits(s, counted, caches, i) <= OptHits(s, counted, n, i)
  {
    hide OptStep, NextUse;
    if 0 < i {
      SeenAreResident(s, counted, n, caches, i - 1);
      assert Fetches(s[i - 1], n, caches[i - 1], caches[i]);
      assert Elems(s, 0, i) == Elems(s, 0, i - 1) + {s[i - 1]};
      OptRoom(s, n, i - 1);
    }
  }

  lemma OptRoom(s: seq<nat>, n: nat, i: nat)
    requires 0 < n && i < |s| && |OptCache(s, n, i)| < n
    ensures OptCache(s, n, i + 1) == OptCache(s, n, i) + {s[i]}
  {
  }

  lemma AfterFill(s: seq<nat>, counted: seq<bool>, n: nat, caches: seq<set<nat>>)
    requires 0 < n < |s| == |counted| && DemandRun(s, n, caches)
    ensures Dominates(s, counted, n, caches, n + 1)
  {
    SeenAreResident(s, counted, n, caches, n);
    var (c, b) := (caches[n], OptCache(s, n, n));
    var n' := n + 1;
    if s[n] in b {
      assert Fetches(s[n], n, c, caches[n']);
      assert OptCache(s, n, n') == b;
      forall t
        ensures DominatesAt(s, counted, n, caches, n', t)
      {
        NearSubset(s, n', caches[n'], b, t);
      }
    } else {
      forall t
        ensures DominatesAt(s, counted, n, caches, n, t)
      {
        NearSubset(s, n, c, b, t);
      }
      DominatesStep(s, counted, n, caches, n);
    }
  }

  lemma {:induction false} HitsStopAt(
    s: seq<nat>, counted: seq<bool>, caches: seq<set<nat>>, from: nat, m: nat)
    requires from <= m <= |s| == |counted| && |caches| == |s| + 1
    requires forall q :: from <= q < m ==> !counted[q]
    ensures Hits(s, counted, caches, m) == Hits(s, counted, caches, from)
  {
    if from < m {
      HitsStopAt(s, counted, caches, from, m - 1);
    }
  }

  /** Before position `2n` there is always a resident not needed before `2n`, so every
      expert that is needed again stays. */
  lemma {:induction false} NeededStay(s: seq<nat>, n: nat, i: nat, g: nat)
    requires 0 < n && i <= |s| && i < 2 * n
    requires g in Elems(s, 0, i) && NextUse(s, i, g) < 2 * n && NextUse(s, i, g) < |s|
    ensures g in OptCache(s, n, i)
    decreases i
  {
    var j := i - 1;
    if g != s[j] {
      NeededStay(s, n, j, g);
      var c := OptCache(s, n, j);
      if s[j] !in c && n <= |c| {
        var v := Victim(s, i, c);
        if v == g {
          assert forall w :: w in c ==> Later(s, i, v, w);
          forall w | w in c ensures w in Elems(s, 0, j) {
            OptCacheSeen(s, n, j, w);
          }
          Pigeonhole(s, n, i, c);
        }
      }
    }
  }

  /** `n` residents cannot all be needed at distinct positions of a shorter range. */
  lemma Pigeonhole(s: seq<nat>, n: nat, i: nat, c: set<nat>)
    requires 0 < i <= |s| && i < 2 * n && n <= |c| && c <= Elems(s, 0, i - 1)
    ensures exists w :: w in c && !(NextUse(s, i, w) < 2 * n && NextUse(s, i, w) < |s|)
  {
    SeenCount(s, i - 1);
    Subset(c, Elems(s, 0, i - 1));
    if forall w :: w in c ==> NextUse(s, i, w) < 2 * n && NextUse(s, i, w) < |s| {
      Injective(s, i, c);
      RangeSize(i, 2 * n, Uses(s, i, c));
    }
  }

  lemma {:induction false} SeenCount(s: seq<nat>, i: nat)
    requires i <= |s|
    ensures |Elems(s, 0, i)| <= i
  {
    if i == 0 {
    } else {
      SeenCount(s, i - 1);
      assert Elems(s, 0, i) == Elems(s, 0, i - 1) + {s[i - 1]};
    }
  }

  ghost function Uses(s: seq<nat>, i: nat, c: set<nat>): set<nat>
    requires i <= |s|
  {
    set w | w in c :: NextUse(s, i, w)
  }

  lemma {:induction false} Injective(s: seq<nat>, i: nat, c: set<nat>)
    requires i <= |s| && forall w :: w in c ==> NextUse(s, i, w) < |s|
    ensures |Uses(s, i, c)| == |c|
    decreases |c|
  {
    if c == {} {
      assert Uses(s, i, c) == {};
    } else {
      var x :| x in c;
      Injective(s, i, c - {x});
      assert Uses(s, i, c) == Uses(s, i, c - {x}) + {NextUse(s, i, x)};
      assert NextUse(s, i, x) !in Uses(s, i, c - {x});
    }
  }

  lemma {:induction false} RangeSize(lo: nat, hi: nat, xs: set<nat>)
    requires lo <= hi && forall x :: x in xs ==> lo <= x < hi
    ensures |xs| <= hi - lo
    decreases hi
  {
    if lo < hi {
      RangeSize(lo, hi - 1, xs - {hi - 1});
    } else {
      assert xs == {};
    }
  }

  lemma {:induction false} ShortHits(s: seq<nat>, counted: seq<bool>, n: nat, caches: seq<set<nat>>, m: nat)
    requires 0 < n && m <= |s| == |counted| && DemandRun(s, n, caches)
    requires forall k :: 2 * n <= k < |s| ==> !counted[k]
    ensures Hits(s, counted, caches, m) <= OptHits(s, counted, n, m)
    ensures caches[m] <= Elems(s, 0, m)
  {
    if 0 < m {
      var i := m - 1;
      ShortHits(s, counted, n, caches, i);
      assert Fetches(s[i], n, caches[i], caches[i + 1]);
      assert Elems(s, 0, m) == Elems(s, 0, i) + {s[i]};
      if counted[i] && s[i] in caches[i] {
        NeededStay(s, n, i, s[i]);
      }
    }
  }

  // -- A stream that exploits a contended mask ----------------------------------------------

  /** Fill the slots with `0 .. n-1`, force one eviction, then ask again for expert 0 at
      the uncounted `j`, for expert 1 at the counted `k`, and for the others in between. */
  function DuelAt(n: nat, j: nat, k: nat, p: nat): nat {
    if p <= n then p
    else if p == k then 1
    else if p < j then (if p < 2 * n - 1 then p - n + 1 else n)
    else if j < p < 2 * n then p - n
    else 0
  }

  function Duel(len: nat, n: nat, j: nat, k: nat): (s: seq<nat>)
    ensures |s| == len
    ensures forall p :: 0 <= p < len ==> s[p] == DuelAt(n, j, k, p)
  {
    seq(len, p requires 0 <= p => DuelAt(n, j, k, p))
  }

  ghost function DuelCacheAt(n: nat, j: nat, i: nat): set<nat> {
    if i <= n then Below(i) else if i <= j then Below(n + 1) - {0} else Below(n)
  }

  ghost function Below(n: nat): (r: set<nat>)
    ensures |r| == n
    ensures forall x: nat :: x in r <==> x < n
  {
    if n == 0 then {} else Below(n - 1) + {n - 1}
  }

  ghost function DuelRival(len: nat, n: nat, j: nat): (caches: seq<set<nat>>)
    ensures |caches| == len + 1
    ensures forall i :: 0 <= i <= len ==> caches[i] == DuelCacheAt(n, j, i)
  {
    seq(len + 1, i requires 0 <= i => DuelCacheAt(n, j, i))
  }

  lemma DuelRivalIsDemandRun(len: nat, n: nat, j: nat, k: nat)
    requires 2 <= n < j < k < len && 2 * n <= k
    ensures DemandRun(Duel(len, n, j, k), n, DuelRival(len, n, j))
  {
    var s := Duel(len, n, j, k);
    var caches := DuelRival(len, n, j);
    forall i | 0 <= i < len
      ensures Fetches(s[i], n, caches[i], caches[i + 1])
    {
    }
  }

  /** Expert 1 is the last of the first `n` to be asked for again. */
  lemma DuelNextUse(len: nat, n: nat, j: nat, k: nat, w: nat)
    requires 2 <= n < j < k < len && 2 * n <= k && w < n && w != 1
    ensures var s := Duel(len, n, j, k);
            NextUse(s, n + 1, w) < k <= NextUse(s, n + 1, 1)
  {
    var s := Duel(len, n, j, k);
    var q := if w == 0 then j else if w + n - 1 < j then w + n - 1 else w + n;
    assert s[q] == w;
  }

  lemma DuelVictim(len: nat, n: nat, j: nat, k: nat)
    requires 2 <= n < j < k < len && 2 * n <= k
    ensures 1 !in OptCache(Duel(len, n, j, k), n, n + 1)
  {
    var s := Duel(len, n, j, k);
    DuelFill(len, n, j, k, n);
    var v := Victim(s, n + 1, Below(n));
    assert Later(s, n + 1, v, 1);
    if v != 1 {
      DuelNextUse(len, n, j, k, v);
    }
    assert s[n] == n;
  }

  lemma {:induction false} DuelFill(len: nat, n: nat, j: nat, k: nat, i: nat)
    requires 2 <= n < j < k < len && 2 * n <= k && i <= n
    ensures OptCache(Duel(len, n, j, k), n, i) == Below(i)
  {
    if 0 < i {
      DuelFill(len, n, j, k, i - 1);
      assert Duel(len, n, j, k)[i - 1] == i - 1;
    }
  }

  lemma {:induction false} DuelMisses(len: nat, n: nat, j: nat, k: nat, i: nat)
    requires 2 <= n < j < k < len && 2 * n <= k && n < i <= k
    ensures 1 !in OptCache(Duel(len, n, j, k), n, i)
  {
    hide OptCache;
    DuelVictim(len, n, j, k);
    if n + 1 < i {
      DuelMisses(len, n, j, k, i - 1);
      var s := Duel(len, n, j, k);
      if 1 in OptCache(s, n, i) {
        OptLoadsOnlyTheRequest(s, n, i - 1, 1);
      }
    }
  }

  lemma DuelAtPosition(counted: seq<bool>, n: nat, j: nat, k: nat, i: nat)
    requires Contends(counted, n, j, k) && i < |counted|
    ensures var s := Duel(|counted|, n, j, k);
            && (i == j || i <= n || s[i] in DuelRival(|counted|, n, j)[i])
            && (i <= n || i == k ==> s[i] !in OptCache(s, n, i))
  {
    var s := Duel(|counted|, n, j, k);
    if i <= n && s[i] in OptCache(s, n, i) {
      OptCacheSeen(s, n, i, s[i]);
    }
    if i == k {
      DuelMisses(|counted|, n, j, k, k);
    }
  }

  lemma {:induction false} DuelHits(counted: seq<bool>, n: nat, j: nat, k: nat, m: nat)
    requires Contends(counted, n, j, k) && m <= |counted|
    ensures var s := Duel(|counted|, n, j, k);
            OptHits(s, counted, n, m) + (if k < m then 1 else 0)
            <= Hits(s, counted, DuelRival(|counted|, n, j), m)
  {
    if 0 < m {
      DuelHits(counted, n, j, k, m - 1);
      DuelAtPosition(counted, n, j, k, m - 1);
    }
  }
}
