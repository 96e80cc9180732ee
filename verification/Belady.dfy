/** The offline eviction policy the profiler replays (evict the resident whose next use
    is farthest), against every demand-fetch policy of the same capacity. */
module Belady {
  import opened StackDistance

  /** The first position from `i` on that selects `g`; past the end when there is none. */
  function NextUse(s: seq<nat>, i: nat, g: nat): (p: nat)
    requires i <= |s|
    ensures i <= p
    ensures p < |s| ==> s[p] == g
    ensures p < |s| || p == |s| + 1
    ensures forall q :: i <= q < p && q < |s| ==> s[q] != g
    decreases |s| - i
  {
    if i == |s| then |s| + 1 else if s[i] == g then i else NextUse(s, i + 1, g)
  }

  lemma NextUseStep(s: seq<nat>, i: nat)
    requires i < |s|
    ensures forall g :: NextUse(s, i, g) == if s[i] == g then i else NextUse(s, i + 1, g)
  {
  }

  lemma NoNextUse(s: seq<nat>)
    ensures forall g :: NextUse(s, |s|, g) == |s| + 1
  {
  }

  /** Residents ordered by next use, ties by id: the order of the source's set of pairs. */
  predicate Later(s: seq<nat>, i: nat, g: nat, h: nat)
    requires i <= |s|
  {
    var (p, q) := (NextUse(s, i, g), NextUse(s, i, h));
    q < p || (p == q && h <= g)
  }

  lemma {:induction false} FindLatest(s: seq<nat>, i: nat, c: set<nat>) returns (v: nat)
    requires i <= |s| && c != {}
    ensures v in c && forall w :: w in c ==> Later(s, i, v, w)
    decreases |c|
  {
    hide NextUse;
    var x :| x in c;
    v := x;
    if c != {x} {
      var rest := c - {x};
      var top := FindLatest(s, i, rest);
      if Later(s, i, top, x) {
        v := top;
      }
      forall w | w in c
        ensures Later(s, i, v, w)
      {
        if w != x {
          assert w in rest && Later(s, i, top, w);
        }
      }
    }
  }

  lemma LatestExists(s: seq<nat>, i: nat, c: set<nat>)
    requires i <= |s| && c != {}
    ensures exists v :: v in c && forall w :: w in c ==> Later(s, i, v, w)
  {
    var v := FindLatest(s, i, c);
  }

  ghost function Victim(s: seq<nat>, i: nat, c: set<nat>): (v: nat)
    requires i <= |s| && c != {}
    ensures v in c && forall w :: w in c ==> Later(s, i, v, w)
  {
    LatestExists(s, i, c);
    var v :| v in c && forall w :: w in c ==> Later(s, i, v, w);
    v
  }

  /** The resident set after one request. */
  ghost function OptStep(s: seq<nat>, n: nat, i: nat, c: set<nat>): set<nat>
    requires 0 < n && i < |s|
  {
    if s[i] in c then c
    else if n <= |c| then c - {Victim(s, i + 1, c)} + {s[i]}
    else c + {s[i]}
  }

  ghost function OptCache(s: seq<nat>, n: nat, i: nat): (c: set<nat>)
    requires 0 < n && i <= |s|
    ensures |c| <= n
  {
    if i == 0 then {} else OptStep(s, n, i - 1, OptCache(s, n, i - 1))
  }

  lemma OptLoadsOnlyTheRequest(s: seq<nat>, n: nat, i: nat, g: nat)
    requires 0 < n && i < |s| && g in OptCache(s, n, i + 1) && g != s[i]
    ensures g in OptCache(s, n, i)
  {
  }

  /** Only what was asked for is resident. */
  lemma {:induction false} OptCacheSeen(s: seq<nat>, n: nat, i: nat, g: nat)
    requires 0 < n && i <= |s| && g in OptCache(s, n, i)
    ensures g in Elems(s, 0, i)
  {
    hide NextUse, Victim;
    if g == s[i - 1] {
    } else {
      OptCacheSeen(s, n, i - 1, g);
    }
  }

  /** A demand-fetch run: each request is resident after it is served, nothing else is
      loaded, and at most `n` experts are resident. Evictions are otherwise free. */
  ghost predicate DemandRun(s: seq<nat>, n: nat, caches: seq<set<nat>>) {
    && |caches| == |s| + 1
    && caches[0] == {}
    && forall i :: 0 <= i < |s| ==> Fetches(s[i], n, caches[i], caches[i + 1])
  }

  ghost predicate Fetches(g: nat, n: nat, c: set<nat>, d: set<nat>) {
    g in d && d <= c + {g} && |d| <= n
  }

  /** Counted requests among the first `m` that find their expert resident. */
  ghost function Hits(s: seq<nat>, counted: seq<bool>, caches: seq<set<nat>>, m: nat): nat
    requires m <= |s| == |counted| && |caches| == |s| + 1
  {
    if m == 0 then 0
    else Hits(s, counted, caches, m - 1) +
         if counted[m - 1] && s[m - 1] in caches[m - 1] then 1 else 0
  }

  ghost function OptRun(s: seq<nat>, n: nat): (caches: seq<set<nat>>)
    requires 0 < n
    ensures |caches| == |s| + 1
    ensures forall i :: 0 <= i <= |s| ==> caches[i] == OptCache(s, n, i)
  {
    seq(|s| + 1, i requires 0 <= i <= |s| => OptCache(s, n, i))
  }

  ghost function OptHits(s: seq<nat>, counted: seq<bool>, n: nat, m: nat): nat
    requires 0 < n && m <= |s| == |counted|
  {
    Hits(s, counted, OptRun(s, n), m)
  }

  // -- Domination -------------------------------------------------------------------

  /** Residents needed before `t`. */
  ghost function Near(s: seq<nat>, i: nat, c: set<nat>, t: nat): set<nat>
    requires i <= |s|
  {
    set g | g in c && NextUse(s, i, g) < t
  }

  /** Hits so far plus residents needed before `t`: never smaller than any rival's. */
  ghost predicate Dominates(s: seq<nat>, counted: seq<bool>, n: nat, caches: seq<set<nat>>, i: nat)
    requires 0 < n && i <= |s| == |counted| && |caches| == |s| + 1
  {
    forall t :: DominatesAt(s, counted, n, caches, i, t)
  }

  ghost predicate DominatesAt(
    s: seq<nat>, counted: seq<bool>, n: nat, caches: seq<set<nat>>, i: nat, t: nat)
    requires 0 < n && i <= |s| == |counted| && |caches| == |s| + 1
  {
    Hits(s, counted, caches, i) + |Near(s, i, caches[i], t)|
    <= OptHits(s, counted, n, i) + |Near(s, i, OptCache(s, n, i), t)|
  }

  lemma NearSubset(s: seq<nat>, i: nat, c: set<nat>, d: set<nat>, t: nat)
    requires i <= |s| && c <= d
    ensures |Near(s, i, c, t)| <= |Near(s, i, d, t)| <= |d|
  {
    Subset(Near(s, i, c, t), Near(s, i, d, t));
    Subset(Near(s, i, d, t), d);
  }

  lemma {:induction false} Subset<T>(a: set<T>, b: set<T>)
    requires a <= b
    ensures |a| <= |b|
  {
    assert b == a + (b - a);
  }

  /** How one request moves residents between "needed before `t`" and "hit". */
  lemma NearStep(s: seq<nat>, i: nat, c: set<nat>, t: nat)
    requires i < |s|
    ensures Near(s, i + 1, c - {s[i]}, t) == Near(s, i, c, t) - {s[i]}
    ensures s[i] in c && i < t ==> s[i] in Near(s, i, c, t)
    ensures t <= i ==> Near(s, i, c, t) == {}
  {
  }

  /** A rival gains at most the requested expert's own next use. */
  lemma RivalStep(s: seq<nat>, n: nat, i: nat, c: set<nat>, d: set<nat>, t: nat)
    requires i < |s| && i < t
    requires Fetches(s[i], n, c, d)
    ensures var n' := if NextUse(s, i + 1, s[i]) < t then 1 else 0;
            && |Near(s, i + 1, d, t)| + (if s[i] in c then 1 else 0) <= |Near(s, i, c, t)| + n'
            && |Near(s, i + 1, d, t)| <= n - 1 + n'
  {
    var g := s[i];
    NearStep(s, i, c, t);
    NearWith(s, i + 1, d, g, t);
    var rest := Near(s, i + 1, d - {g}, t);
    Subset(rest, Near(s, i, c, t) - {g});
    Subset(rest, d - {g});
  }

  /** The farthest-next-use choice loses nothing needed before `t` unless every
      resident is. */
  lemma OptGain(s: seq<nat>, n: nat, i: nat, c: set<nat>, t: nat)
    requires 0 < n && i < |s| && i < t && |c| <= n
    ensures var n' := if NextUse(s, i + 1, s[i]) < t then 1 else 0;
            var d := OptStep(s, n, i, c);
            if s[i] in c then |Near(s, i + 1, d, t)| + 1 == |Near(s, i, c, t)| + n'
            else || |Near(s, i + 1, d, t)| == |Near(s, i, c, t)| + n'
                 || |Near(s, i + 1, d, t)| == n - 1 + n'
  {
    hide NextUse;
    var g := s[i];
    var d := OptStep(s, n, i, c);
    NearStep(s, i, c, t);
    NearWith(s, i + 1, d, g, t);
    if g in c {
    } else if n <= |c| {
      assert d - {g} == c - {Victim(s, i + 1, c)};
      VictimLoss(s, i, c, t);
    } else {
      assert d - {g} == c == c - {g};
    }
  }

  lemma NearWith(s: seq<nat>, i: nat, d: set<nat>, g: nat, t: nat)
    requires i <= |s| && g in d
    ensures |Near(s, i, d, t)| == |Near(s, i, d - {g}, t)| + if NextUse(s, i, g) < t then 1 else 0
  {
    assert Near(s, i, d, t) == Near(s, i, d - {g}, t) + if NextUse(s, i, g) < t then {g} else {};
  }

  lemma VictimLoss(s: seq<nat>, i: nat, c: set<nat>, t: nat)
    requires i < |s| && s[i] !in c && c != {}
    ensures var kept := c - {Victim(s, i + 1, c)};
            Near(s, i + 1, kept, t) == kept || Near(s, i + 1, kept, t) == Near(s, i, c, t)
  {
    var v := Victim(s, i + 1, c);
    if NextUse(s, i + 1, v) < t {
      assert forall w :: w in c ==> Later(s, i + 1, v, w);
    }
  }

  /** Domination survives a request that is counted, or that both caches miss. */
  lemma DominatesStep(s: seq<nat>, counted: seq<bool>, n: nat, caches: seq<set<nat>>, i: nat)
    requires 0 < n && i < |s| == |counted| && DemandRun(s, n, caches)
    requires Dominates(s, counted, n, caches, i)
    requires counted[i] || (s[i] !in caches[i] && s[i] !in OptCache(s, n, i))
    ensures Dominates(s, counted, n, caches, i + 1)
  {
    var (c, b) := (caches[i], OptCache(s, n, i));
    NeededNow(s, i, c);
    NeededNow(s, i, b);
    assert DominatesAt(s, counted, n, caches, i, i + 1);
    var i' := i + 1;
    forall t
      ensures DominatesAt(s, counted, n, caches, i', t)
    {
      assert DominatesAt(s, counted, n, caches, i, t);
      assert Fetches(s[i], n, c, caches[i + 1]);
      if i < t {
        RivalStep(s, n, i, c, caches[i + 1], t);
        OptGain(s, n, i, b, t);
      } else {
        assert Near(s, i + 1, caches[i + 1], t) == {} == Near(s, i + 1, OptCache(s, n, i + 1), t);
      }
    }
  }

  /** Only the request being served is needed before the next position. */
  lemma NeededNow(s: seq<nat>, i: nat, c: set<nat>)
    requires i < |s|
    ensures |Near(s, i, c, i + 1)| == if s[i] in c then 1 else 0
  {
    assert Near(s, i, c, i + 1) == if s[i] in c then {s[i]} else {};
  }

  lemma {:induction false} DominatesFrom(
    s: seq<nat>, counted: seq<bool>, n: nat, caches: seq<set<nat>>, from: nat, i: nat)
    requires 0 < n && from <= i <= |s| == |counted| && DemandRun(s, n, caches)
    requires Dominates(s, counted, n, caches, from)
    requires forall p :: from <= p < i ==> counted[p]
    ensures Dominates(s, counted, n, caches, i)
  {
    if from < i {
      DominatesFrom(s, counted, n, caches, from, i - 1);
      DominatesStep(s, counted, n, caches, i - 1);
    }
  }

  lemma DominatedHits(s: seq<nat>, counted: seq<bool>, n: nat, caches: seq<set<nat>>, i: nat)
    requires 0 < n && i <= |s| == |counted| && |caches| == |s| + 1
    requires Dominates(s, counted, n, caches, i)
    ensures Hits(s, counted, caches, i) <= OptHits(s, counted, n, i)
  {
    assert DominatesAt(s, counted, n, caches, i, 0);
    assert Near(s, i, caches[i], 0) == {} == Near(s, i, OptCache(s, n, i), 0);
  }

  /** Belady optimality: when every request is counted, no demand-fetch policy of the
      same capacity has more hits, on any prefix of any stream. */
  lemma OptIsOptimal(s: seq<nat>, counted: seq<bool>, n: nat, caches: seq<set<nat>>, m: nat)
    requires 0 < n && m <= |s| == |counted| && DemandRun(s, n, caches)
    requires forall p :: 0 <= p < m ==> counted[p]
    ensures Hits(s, counted, caches, m) <= OptHits(s, counted, n, m)
  {
    assert Near(s, 0, {}, 0) == {};
    assert Dominates(s, counted, n, caches, 0);
    DominatesFrom(s, counted, n, caches, 0, m);
    DominatedHits(s, counted, n, caches, m);
  }

  /** The replayed policy is itself a demand-fetch run. */
  lemma OptIsDemandRun(s: seq<nat>, n: nat)
    requires 0 < n
    ensures DemandRun(s, n, OptRun(s, n))
  {
  }
}
