/** The decode routing reuse profiler: an incremental index over the request stream, the
    ideal-LRU curve read off its histogram, and the replay of the optimal policy. */
module RoutingReuse {
  import opened Fenwick
  import opened StackDistance
  import opened ReuseModel
  import opened Belady

  const FIRST_LEARNED_LAYER: nat := 3
  const DEFAULT_CAPACITIES: seq<nat> := [6, 64, 128, 258, 779, 1558, 3022, 11008]
  const MIN_TREE_CAPACITY: nat := 1024

  datatype Observation = Observation(globalExpertId: nat, answeredFromHot: bool)

  /** Hit counts per capacity; the source divides each by `observed`. */
  datatype Curve = Curve(
    capacities: seq<nat>, idealLruHits: seq<nat>, optHits: seq<nat>,
    measuredHot: nat, observed: nat, compulsory: nat)

  /** Per default capacity: the histogram's hits, and the replayed policy's. */
  ghost predicate IsCurve(curve: Curve, s: seq<nat>, counted: seq<bool>, total: nat) {
    && |s| == |counted|
    && curve.capacities == DEFAULT_CAPACITIES
    && |curve.idealLruHits| == |curve.optHits| == |DEFAULT_CAPACITIES|
    && forall k :: 0 <= k < |DEFAULT_CAPACITIES| ==>
         && curve.idealLruHits[k] == ReportedHits(s, counted, InitialCapacity(total), |s|, DEFAULT_CAPACITIES[k])
         && curve.optHits[k] == if curve.observed == 0 then 0 else OptHits(s, counted, DEFAULT_CAPACITIES[k], |s|)
  }

  /** The curve of a step-by-step LRU cache at every default capacity. */
  ghost predicate LruCurve(curve: Curve, s: seq<nat>, counted: seq<bool>) {
    && |s| == |counted|
    && |curve.idealLruHits| == |curve.capacities|
    && forall k :: 0 <= k < |curve.capacities| ==>
         curve.idealLruHits[k] == LruHits(s, counted, |s|, curve.capacities[k])
  }

  /** Until the stream outgrows the model and 1024 requests, the curve is the cache's. */
  lemma ShortIsExact(curve: Curve, s: seq<nat>, counted: seq<bool>, total: nat)
    requires IsCurve(curve, s, counted, total)
    ensures |s| <= total || |s| <= 1024 ==> LruCurve(curve, s, counted)
  {
    hide ReportedHits, LruHits, OptHits, CountedOvercount;
    var cap0 := InitialCapacity(total);
    if |s| <= cap0 {
      forall i | 0 <= i < |s| ensures !CountedOvercount(s, counted, cap0, i) { NoOvercountYet(s, counted, cap0, i); }
      CurveExactIff(s, counted, cap0);
    }
  }

  /** Past that bound it need not be: a model of two experts loses a hit after 1026 requests. */
  lemma LongRunInexact()
    ensures InModel(LongRun(), 2) && !CurveIsExact(LongRun(), Repeat(true, |LongRun()|), InitialCapacity(2))
  {
    hide ReportedHits, LruHits, Reported, Distance, LastBefore, Stale;
    var s := LongRun();
    LongRunOvercounts();
    assert |s| == 1026;
    assert CountedOvercount(s, Repeat(true, |s|), 1024, 1025) by { OvercountSeen(s, 1025); }
    CurveExactIff(s, Repeat(true, |s|), 1024);
  }

  lemma OvercountSeen(s: seq<nat>, i: nat)
    requires i < |s| && Rereferenced(s, i) && Reported(s, 1024, i) != Distance(s, i)
    ensures CountedOvercount(s, Repeat(true, |s|), 1024, i)
  {
  }

  lemma NoOvercountYet(s: seq<nat>, counted: seq<bool>, cap0: nat, i: nat)
    requires 0 < cap0 && i < |s| == |counted| && |s| <= cap0
    ensures !CountedOvercount(s, counted, cap0, i)
  {
    NoGrowthYet(cap0, i);
    ExactWithoutStaleGrowth(s, cap0, i);
  }

  /** The requests that name an expert of the model, in order. */
  function Accepted(requests: seq<Observation>, total: nat): seq<Observation> {
    if requests == [] then []
    else
      var rest := Accepted(requests[..|requests| - 1], total);
      var last := requests[|requests| - 1];
      if last.globalExpertId < total then rest + [last] else rest
  }

  lemma AcceptedFirst(requests: seq<Observation>, total: nat)
    ensures Accepted(requests[..0], total) == []
  {
  }

  lemma AcceptedNext(requests: seq<Observation>, i: nat, total: nat)
    requires i < |requests|
    ensures Accepted(requests[..i + 1], total)
         == Accepted(requests[..i], total) +
            if requests[i].globalExpertId < total then [requests[i]] else []
  {
    assert requests[..i + 1][..i] == requests[..i];
  }

  function Ids(requests: seq<Observation>): seq<nat> {
    seq(|requests|, i requires 0 <= i < |requests| => requests[i].globalExpertId)
  }

  function Hots(requests: seq<Observation>): seq<bool> {
    seq(|requests|, i requires 0 <= i < |requests| => requests[i].answeredFromHot)
  }

  function Repeat(b: bool, n: nat): seq<bool> {
    seq(n, _ => b)
  }

  function Doubled(capacity: nat, needed: nat): (c: nat)
    requires 0 < capacity
    ensures needed <= c && capacity <= c
    decreases if capacity < needed then needed - capacity else 0
  {
    if capacity < needed then Doubled(2 * capacity, needed) else capacity
  }

  function InitialCapacity(total: nat): (c: nat)
    ensures MIN_TREE_CAPACITY <= c
  {
    if total < MIN_TREE_CAPACITY then MIN_TREE_CAPACITY else total
  }

  /** A set of (next use, expert) pairs, ordered as the source orders it. */
  predicate PairLeq(p: (int, nat), q: (int, nat)) {
    p.0 < q.0 || (p.0 == q.0 && p.1 <= q.1)
  }

  lemma {:induction false} LastPairExists(pairs: set<(int, nat)>)
    requires pairs != {}
    ensures exists p :: p in pairs && forall q :: q in pairs ==> PairLeq(q, p)
    decreases |pairs|
  {
    var x :| x in pairs;
    if pairs == {x} {
      assert PairLeq(x, x);
    } else {
      LastPairExists(pairs - {x});
      var p :| p in pairs - {x} && forall q :: q in pairs - {x} ==> PairLeq(q, p);
      var top := if PairLeq(x, p) then p else x;
      forall q | q in pairs ensures PairLeq(q, top) {
        assert q == x || q in pairs - {x};
      }
    }
  }

  /** The replay's three structures describe one cache, keyed by next use. */
  datatype Residents = Residents(pairs: set<(int, nat)>, inCache: seq<bool>, keyOf: seq<int>) {
    ghost predicate Holds(s: seq<nat>, total: nat, c: set<nat>, i: nat)
      requires i <= |s|
    {
      && |inCache| == |keyOf| == total
      && (forall g :: g in c ==> g < total)
      && (forall g :: 0 <= g < total ==> (inCache[g] <==> g in c))
      && (forall g :: g in c ==> keyOf[g] == NextUse(s, i, g))
      && (forall p :: p in pairs <==> p.1 in c && p.0 == keyOf[p.1])
    }

    /** Drops `g`, which must be resident. */
    function Drop(g: nat): Residents
      requires g < |inCache| == |keyOf|
    {
      Residents(pairs - {(keyOf[g], g)}, inCache[g := false], keyOf)
    }

    /** Makes `g` resident with next use `key`. */
    function Load(g: nat, key: int): Residents
      requires g < |inCache| == |keyOf|
    {
      Residents(pairs + {(key, g)}, inCache[g := true], keyOf[g := key])
    }
  }

  lemma DropHolds(r: Residents, s: seq<nat>, total: nat, c: set<nat>, i: nat, g: nat)
    requires i <= |s| && r.Holds(s, total, c, i) && g in c
    ensures r.Drop(g).Holds(s, total, c - {g}, i)
  {
    hide NextUse;
  }

  lemma LoadHolds(r: Residents, s: seq<nat>, total: nat, c: set<nat>, i: nat)
    requires i < |s| && s[i] < total && s[i] !in c && r.Holds(s, total, c, i)
    ensures r.Load(s[i], NextUse(s, i + 1, s[i])).Holds(s, total, c + {s[i]}, i + 1)
  {
    hide NextUse;
    var (x, key) := (s[i], NextUse(s, i + 1, s[i]));
    var (c', r') := (c + {x}, r.Load(x, key));
    forall g | g in c' ensures g < total && r'.keyOf[g] == NextUse(s, i + 1, g) {
      assert g == x || g in c;
      NextUseStep(s, i);
    }
    forall p: (int, nat) ensures p in r'.pairs <==> p.1 in c' && p.0 == r'.keyOf[p.1] {
      if p.1 != x {
        assert p in r'.pairs <==> p in r.pairs;
        assert p.1 in c ==> r'.keyOf[p.1] == r.keyOf[p.1];
      } else {
        assert p !in r.pairs;
      }
    }
  }

  lemma VictimIsLast(r: Residents, s: seq<nat>, total: nat, c: set<nat>, i: nat, victim: (int, nat))
    requires i < |s| && r.Holds(s, total, c, i) && s[i] !in c
    requires victim in r.pairs && forall q :: q in r.pairs ==> PairLeq(q, victim)
    ensures victim.1 == Victim(s, i + 1, c)
  {
    hide NextUse, Victim;
    var v := Victim(s, i + 1, c);
    assert (r.keyOf[v], v) in r.pairs;
    assert Later(s, i + 1, v, victim.1);
    NextUseStep(s, i);
  }

  class RoutingReuseProfiler {
    var enabled: bool
    var totalExperts: nat
    var lastPos: seq<int>
    var fenwick: seq<int>
    var fenwickCapacity: nat
    var clock: nat
    var observed: nat
    var measuredHot: nat
    var compulsory: nat
    var distanceHist: seq<nat>
    var streamIds: seq<nat>
    var streamCounted: seq<bool>
    ghost var streamHot: seq<bool>

    /** Everything the profiler holds is a function of the stream it was fed. */
    ghost predicate Valid()
      reads this
    {
      && clock == |streamIds| == |streamCounted| == |streamHot|
      && InModel(streamIds, totalExperts)
      && (if enabled then
            && Indexed(lastPos, fenwick, fenwickCapacity, streamIds, InitialCapacity(totalExperts), totalExperts, clock)
            && Tallied(Counters(), streamIds, streamCounted, streamHot, InitialCapacity(totalExperts), totalExperts, clock)
          else
            && totalExperts == clock == observed == measuredHot == compulsory == 0
            && distanceHist == [])
    }

    ghost function Counters(): Tally
      reads this`observed, this`measuredHot, this`compulsory, this`distanceHist
    {
      Tally(observed, measuredHot, compulsory, distanceHist)
    }

    constructor ()
      ensures Valid() && !enabled && streamIds == [] && streamCounted == [] && streamHot == []
    {
      enabled, totalExperts := false, 0;
      lastPos, fenwick, fenwickCapacity, clock := [], [], 0, 0;
      observed, measuredHot, compulsory, distanceHist := 0, 0, 0, [];
      streamIds, streamCounted, streamHot := [], [], [];
    }

    method Reset(total: nat)
      modifies this
      ensures Valid() && enabled && totalExperts == total
      ensures streamIds == [] && streamCounted == [] && streamHot == []
    {
      hide Indexed, Tallied, Zeros, NeverSeen, InitialCapacity;
      totalExperts := total;
      lastPos := NeverSeen(total);
      distanceHist := Zeros(total + 1);
      fenwickCapacity := InitialCapacity(totalExperts);
      fenwick := Zeros(fenwickCapacity + 1);
      streamIds, streamCounted, streamHot := [], [], [];
      clock, observed, measuredHot, compulsory := 0, 0, 0, 0;
      enabled := true;
      EmptyIndex(total, fenwickCapacity);
      assert Counters() == Tally(0, 0, 0, Zeros(total + 1));
    }

    /** One layer's requests, in slot order. The stream, and with it the whole state,
        grows by the accepted requests; only a learned layer's are counted. */
    method ObserveLayer(layerId: nat, requests: seq<Observation>)
      requires Valid()
      modifies this
      ensures Valid() && enabled == old(enabled) && totalExperts == old(totalExperts)
      ensures var accepted := Accepted(requests, totalExperts);
              && streamIds == old(streamIds) + Ids(accepted)
              && streamCounted == old(streamCounted) + Repeat(layerId >= FIRST_LEARNED_LAYER, |accepted|)
              && streamHot == old(streamHot) + Hots(accepted)
    {
      hide Indexed, Tallied, InModel, Accepted;
      if !enabled || totalExperts == 0 {
        NoneAccepted(requests);
        return;
      }
      var learned := layerId >= FIRST_LEARNED_LAYER;
      AcceptedFirst(requests, totalExperts);
      for i := 0 to |requests|
        invariant Valid() && enabled && totalExperts == old(totalExperts)
        invariant var accepted := Accepted(requests[..i], totalExperts);
                  && streamIds == old(streamIds) + Ids(accepted)
                  && streamCounted == old(streamCounted) + Repeat(learned, |accepted|)
                  && streamHot == old(streamHot) + Hots(accepted)
      {
        AcceptedNext(requests, i, totalExperts);
        if requests[i].globalExpertId < totalExperts {
          Observe(requests[i].globalExpertId, learned, requests[i].answeredFromHot);
        }
      }
      assert requests[..|requests|] == requests;
    }

    method Observe(gid: nat, learned: bool, hot: bool)
      requires Valid() && enabled && gid < totalExperts
      modifies this
      ensures Valid() && enabled && totalExperts == old(totalExperts)
      ensures streamIds == old(streamIds) + [gid]
      ensures streamCounted == old(streamCounted) + [learned]
      ensures streamHot == old(streamHot) + [hot]
    {
      hide Indexed, Tallied;
      ghost var cap0 := InitialCapacity(totalExperts);
      TallyExtend(Counters(), streamIds, gid, streamCounted, learned, streamHot, hot, cap0, totalExperts);
      IndexExtend(lastPos, fenwick, fenwickCapacity, streamIds, gid, cap0, totalExperts);
      streamIds := streamIds + [gid];
      streamCounted := streamCounted + [learned];
      streamHot := streamHot + [hot];
      Score(gid, learned, hot, cap0);
      Place(gid, cap0);
    }

    /** Counts the request: first-ever, or at its reported distance. */
    method Score(gid: nat, learned: bool, hot: bool, ghost cap0: nat)
      requires 0 < cap0 && clock + 1 == |streamIds| == |streamCounted| == |streamHot|
      requires InModel(streamIds, totalExperts)
      requires Indexed(lastPos, fenwick, fenwickCapacity, streamIds, cap0, totalExperts, clock)
      requires Tallied(Counters(), streamIds, streamCounted, streamHot, cap0, totalExperts, clock)
      requires streamIds[clock] == gid && streamCounted[clock] == learned && streamHot[clock] == hot
      modifies this`observed, this`measuredHot, this`compulsory, this`distanceHist
      ensures Tallied(Counters(), streamIds, streamCounted, streamHot, cap0, totalExperts, clock + 1)
    {
      hide Tallied, LastBefore, Represents, Marks, Reported;
      HistogramWidth(Counters(), streamIds, streamCounted, streamHot, cap0, totalExperts, clock);
      ghost var before := Counters();
      if lastPos[gid] < 0 {
        if learned {
          observed := observed + 1;
          compulsory := compulsory + 1;
          if hot { measuredHot := measuredHot + 1; }
        }
      } else {
        var distance := StackDepth(gid, cap0);
        if learned {
          observed := observed + 1;
          if hot { measuredHot := measuredHot + 1; }
          RecordDistance(distance);
        }
      }
      TallyStep(before, Counters(), streamIds, streamCounted, streamHot, cap0, totalExperts, clock);
    }

    /** The marks in `(last, clock - 1]`. */
    method StackDepth(gid: nat, ghost cap0: nat) returns (distance: int)
      requires 0 < cap0 && clock + 1 == |streamIds| && InModel(streamIds, totalExperts)
      requires Indexed(lastPos, fenwick, fenwickCapacity, streamIds, cap0, totalExperts, clock)
      requires streamIds[clock] == gid && 0 <= lastPos[gid]
      ensures Rereferenced(streamIds, clock) && distance == Reported(streamIds, cap0, clock)
      ensures 0 <= distance <= totalExperts
    {
      hide Represents, Marks, Reported, LastBefore, Sum, Capacity;
      ghost var marks := Marks(streamIds, cap0, clock);
      var upTo := PrefixSum(fenwick, marks, clock - 1);
      var upToLast := PrefixSum(fenwick, marks, lastPos[gid]);
      MarksGiveReported(streamIds, cap0, clock);
      ReportedFits(streamIds, cap0, clock, totalExperts);
      distance := upTo - upToLast;
    }

    /** Moves the expert's mark to the current position and advances the clock. */
    method Place(gid: nat, ghost cap0: nat)
      requires 0 < cap0 && clock + 1 == |streamIds| && InModel(streamIds, totalExperts)
      requires Indexed(lastPos, fenwick, fenwickCapacity, streamIds, cap0, totalExperts, clock)
      requires streamIds[clock] == gid
      modifies this`fenwick, this`fenwickCapacity, this`lastPos, this`clock
      ensures clock == old(clock) + 1
      ensures Indexed(lastPos, fenwick, fenwickCapacity, streamIds, cap0, totalExperts, clock)
    {
      hide Represents, Marks, ExactMarks, LastBefore;
      ghost var (s, n) := (streamIds, clock);
      ghost var marks := Marks(s, cap0, n);
      var last := lastPos[gid];
      if last < 0 {
        AddMark(clock, 1, marks, s, n);
        FirstStep(s, cap0, n);
      } else {
        AddMark(last, -1, marks, s, n);
        AddMark(clock, 1, marks[last := marks[last] - 1], s, n);
        if GrowsAt(cap0, n) {
          GrowStep(s, cap0, n);
        } else {
          MoveStep(s, cap0, n);
        }
      }
      LastPositionsStep(lastPos, s, totalExperts, n);
      lastPos := lastPos[gid := clock];
      clock := clock + 1;
    }

    method RecordDistance(distance: int)
      requires 0 < |distanceHist|
      modifies this`distanceHist
      ensures |distanceHist| == old(|distanceHist|)
      ensures 0 <= distance < |distanceHist| ==>
                distanceHist == old(distanceHist)[distance := old(distanceHist)[distance] + 1]
    {
      var index := if distance < 0 then 0 else distance;
      var clamped := if index < |distanceHist| - 1 then index else |distanceHist| - 1;
      distanceHist := distanceHist[clamped := distanceHist[clamped] + 1];
    }

    /** Adds a mark. A position past the end first rebuilds the tree from the recorded
        last positions, whatever marks it held. */
    method AddMark(index: nat, delta: int, ghost marks: seq<int>, ghost s: seq<nat>, ghost i: nat)
      requires 0 < fenwickCapacity == |marks| && Represents(fenwick, marks)
      requires i <= |s| && LastPositions(lastPos, s, totalExperts, i) && i <= fenwickCapacity
      requires InModel(s, totalExperts)
      modifies this`fenwick, this`fenwickCapacity
      ensures fenwickCapacity == if old(fenwickCapacity) < index + 1
                                 then Doubled(old(fenwickCapacity), index + 1) else old(fenwickCapacity)
      ensures var base := if old(fenwickCapacity) < index + 1
                          then ExactMarks(s, i, fenwickCapacity) else marks;
              Represents(fenwick, base[index := base[index] + delta])
    {
      ghost var base := marks;
      if index + 1 > fenwickCapacity {
        Grow(index + 1, s, i);
        base := ExactMarks(s, i, fenwickCapacity);
      }
      fenwick := Bump(fenwick, base, index, delta);
    }

    method Grow(needed: nat, ghost s: seq<nat>, ghost i: nat)
      requires 0 < fenwickCapacity
      requires i <= |s| && i <= needed && LastPositions(lastPos, s, totalExperts, i)
      requires InModel(s, totalExperts)
      modifies this`fenwick, this`fenwickCapacity
      ensures fenwickCapacity == Doubled(old(fenwickCapacity), needed)
      ensures Represents(fenwick, ExactMarks(s, i, fenwickCapacity))
    {
      var capacity := fenwickCapacity;
      while capacity < needed
        invariant 0 < capacity && Doubled(capacity, needed) == Doubled(fenwickCapacity, needed)
      {
        capacity := capacity * 2;
      }
      var rebuilt := Zeros(capacity + 1);
      ghost var marks := Zeros(capacity);
      EmptyTree(capacity);
      for gid := 0 to totalExperts
        invariant |marks| == capacity && Represents(rebuilt, marks)
        invariant forall p :: 0 <= p < capacity ==>
          marks[p] == if p < i && Latest(s, i, p) && s[p] < gid then 1 else 0
      {
        if 0 <= lastPos[gid] {
          var p := lastPos[gid];
          rebuilt := Bump(rebuilt, marks, p, 1);
          marks := marks[p := marks[p] + 1];
        }
      }
      assert marks == ExactMarks(s, i, capacity);
      fenwick, fenwickCapacity := rebuilt, capacity;
    }

    /** The ideal-LRU hits at one capacity: the histogram below it. */
    method IdealHits(capacity: nat) returns (hits: nat)
      requires Valid()
      ensures hits == ReportedHits(streamIds, streamCounted, InitialCapacity(totalExperts), clock, capacity)
    {
      hits := 0;
      var limit := if |distanceHist| < capacity then |distanceHist| else capacity;
      ghost var cap0 := InitialCapacity(totalExperts);
      NoHitsInNoSlots(streamIds, streamCounted, cap0, clock);
      for d := 0 to limit
        invariant hits == ReportedHits(streamIds, streamCounted, cap0, clock, d)
      {
        hits := hits + distanceHist[d];
        NextBucket(streamIds, streamCounted, cap0, clock, d);
      }
      if |distanceHist| < capacity && enabled {
        AllBuckets(streamIds, streamCounted, cap0, clock, totalExperts, capacity);
      }
    }

    /** The optimal policy's counted hits, replayed over the whole stream. */
    method OptHitCount(capacity: nat) returns (hits: nat)
      requires Valid()
      ensures hits == if observed == 0 || capacity == 0 then 0
                      else OptHits(streamIds, streamCounted, capacity, clock)
    {
      if observed == 0 || streamIds == [] || capacity == 0 {
        return 0;
      }
      var nextPos := NextPositions(streamIds, totalExperts);
      hits := Replay(streamIds, streamCounted, totalExperts, nextPos, capacity);
    }

    /** One backward pass: where each request's expert is selected next. */
    static method NextPositions(s: seq<nat>, total: nat) returns (nextPos: seq<int>)
      requires InModel(s, total)
      ensures |nextPos| == |s|
      ensures forall i :: 0 <= i < |s| ==> nextPos[i] == NextUse(s, i + 1, s[i])
    {
      hide NextUse;
      var never := |s| + 1;
      nextPos := seq(|s|, _ => never);
      var lastSeen := seq(total, _ => never);
      var i := |s|;
      NoNextUse(s);
      while 0 < i
        invariant 0 <= i <= |nextPos| == |s| && |lastSeen| == total
        invariant forall g :: 0 <= g < total ==> lastSeen[g] == NextUse(s, i, g)
        invariant forall j :: i <= j < |s| ==> nextPos[j] == NextUse(s, j + 1, s[j])
      {
        i := i - 1;
        NextUseStep(s, i);
        nextPos := nextPos[i := lastSeen[s[i]]];
        lastSeen := lastSeen[s[i] := i];
      }
    }

    static method Replay(s: seq<nat>, counted: seq<bool>, total: nat, nextPos: seq<int>, capacity: nat)
      returns (hits: nat)
      requires InModel(s, total) && 0 < capacity && |nextPos| == |s| == |counted|
      requires forall i :: 0 <= i < |s| ==> nextPos[i] == NextUse(s, i + 1, s[i])
      ensures hits == OptHits(s, counted, capacity, |s|)
    {
      hide OptStep, NextUse;
      var r := Residents({}, seq(total, _ => false), Zeros(total));
      hits := 0;
      ghost var run := OptRun(s, capacity);
      for i := 0 to |s|
        invariant r.Holds(s, total, run[i], i)
        invariant hits == Hits(s, counted, run, i)
      {
        if r.inCache[s[i]] && counted[i] {
          hits := hits + 1;
        }
        r := ReplayStep(r, s, total, capacity, i, nextPos[i], run[i]);
      }
    }

    /** One request of the replay: re-key a hit; on a miss evict the set's last element
        when the cache is full, then load. */
    static method ReplayStep(
      r0: Residents, s: seq<nat>, total: nat, capacity: nat, i: nat, next: int, ghost c: set<nat>)
      returns (r: Residents)
      requires 0 < capacity && i < |s| && s[i] < total && r0.Holds(s, total, c, i)
      requires next == NextUse(s, i + 1, s[i])
      ensures r.Holds(s, total, OptStep(s, capacity, i, c), i + 1)
    {
      r := r0;
      var gid := s[i];
      if r.inCache[gid] {
        DropHolds(r, s, total, c, i, gid);
        r := r.Drop(gid);
        LoadHolds(r, s, total, c - {gid}, i);
        r := r.Load(gid, next);
        assert c - {gid} + {gid} == c;
      } else {
        ghost var kept := c;
        PairCount(r.pairs, r.keyOf, c);
        if |r.pairs| >= capacity {
          LastPairExists(r.pairs);
          var victim :| victim in r.pairs && forall q :: q in r.pairs ==> PairLeq(q, victim);
          VictimIsLast(r, s, total, c, i, victim);
          DropHolds(r, s, total, c, i, victim.1);
          r := r.Drop(victim.1);
          kept := c - {victim.1};
        }
        LoadHolds(r, s, total, kept, i);
        r := r.Load(gid, next);
      }
    }

    /** The three curve quantities at every default capacity. */
    method GetCurve() returns (curve: Curve)
      requires Valid()
      ensures IsCurve(curve, streamIds, streamCounted, totalExperts)
      ensures |streamIds| <= totalExperts || |streamIds| <= 1024 ==> LruCurve(curve, streamIds, streamCounted)
      ensures curve.observed == observed && curve.measuredHot == measuredHot && curve.compulsory == compulsory
    {
      hide Indexed, Tallied, InModel, ReportedHits, OptHits;
      var ideal: seq<nat>, opt: seq<nat> := [], [];
      for k := 0 to |DEFAULT_CAPACITIES|
        invariant |ideal| == |opt| == k
        invariant forall j :: 0 <= j < k ==>
          && ideal[j] == ReportedHits(streamIds, streamCounted, InitialCapacity(totalExperts), clock, DEFAULT_CAPACITIES[j])
          && opt[j] == if observed == 0 then 0 else OptHits(streamIds, streamCounted, DEFAULT_CAPACITIES[j], clock)
      {
        var hits := IdealHits(DEFAULT_CAPACITIES[k]);
        var best := OptHitCount(DEFAULT_CAPACITIES[k]);
        ideal, opt := ideal + [hits], opt + [best];
      }
      curve := Curve(DEFAULT_CAPACITIES, ideal, opt, measuredHot, observed, compulsory);
      ShortIsExact(curve, streamIds, streamCounted, totalExperts);
    }
  }

  /** The stream a sequence of layers feeds: ids of the model's experts, in order, whether the
      layer is past the first three, and which requests were answered from Hot. */
  ghost function StreamOf(total: nat, layers: seq<(nat, seq<Observation>)>): (seq<nat>, seq<bool>, seq<bool>) {
    if layers == [] then ([], [], [])
    else
      var (ids, counted, hot) := StreamOf(total, layers[..|layers| - 1]);
      var (layer, requests) := layers[|layers| - 1];
      var accepted := Accepted(requests, total);
      (ids + Ids(accepted), counted + Repeat(layer >= 3, |accepted|), hot + Hots(accepted))
  }

  /** From a reset to the curve. The LRU hits never exceed the cache's and are the cache's while
      the stream fits the model or 1024 requests; the OPT hits are the replayed policy's. */
  method Profile(total: nat, layers: seq<(nat, seq<Observation>)>) returns (curve: Curve)
    ensures curve.capacities == [6, 64, 128, 258, 779, 1558, 3022, 11008]
    ensures |curve.idealLruHits| == |curve.optHits| == 8
    ensures var (s, counted, hot) := StreamOf(total, layers);
      && |s| == |counted| == |hot|
      && curve.observed == CountTrue(counted, |s|) && curve.measuredHot == CountBoth(counted, hot, |s|)
      && curve.compulsory == Compulsory(s, counted, |s|)
      && (forall k :: 0 <= k < 8 ==> curve.idealLruHits[k] <= LruHits(s, counted, |s|, curve.capacities[k]))
      && (|s| <= total || |s| <= 1024 ==> LruCurve(curve, s, counted))
      && (curve.observed > 0 ==>
            forall k :: 0 <= k < 8 ==> curve.optHits[k] == OptHits(s, counted, curve.capacities[k], |s|))
  {
    hide ReportedHits, LruHits, OptHits, Accepted;
    var p := new RoutingReuseProfiler();
    p.Reset(total);
    for i := 0 to |layers|
      invariant p.Valid() && p.enabled && p.totalExperts == total
      invariant (p.streamIds, p.streamCounted, p.streamHot) == StreamOf(total, layers[..i])
    {
      assert layers[..i + 1][..i] == layers[..i];
      p.ObserveLayer(layers[i].0, layers[i].1);
    }
    assert layers[..|layers|] == layers;
    curve := p.GetCurve();
    forall k | 0 <= k < 8
      ensures curve.idealLruHits[k] <= LruHits(p.streamIds, p.streamCounted, |p.streamIds|, curve.capacities[k])
    {
      CurveIsLowerBound(p.streamIds, p.streamCounted, InitialCapacity(total), |p.streamIds|, curve.capacities[k]);
    }
  }

  lemma {:induction false} NoneAccepted(requests: seq<Observation>)
    ensures Accepted(requests, 0) == []
  {
    if requests != [] {
      NoneAccepted(requests[..|requests| - 1]);
    }
  }

  lemma {:induction false} PairCount(pairs: set<(int, nat)>, keyOf: seq<int>, c: set<nat>)
    requires forall g :: g in c ==> g < |keyOf|
    requires forall p :: p in pairs <==> p.1 in c && p.0 == keyOf[p.1]
    ensures |pairs| == |c|
    decreases |c|
  {
    if g :| g in c {
      var p := (keyOf[g], g);
      assert p in pairs;
      PairCount(pairs - {p}, keyOf, c - {g});
    } else {
      assert pairs == {};
    }
  }
}
