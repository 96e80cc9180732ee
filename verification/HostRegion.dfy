/** One pinned host region shared by Warm lanes (in stage order from the head) and a transport
    corridor (anchored at the tail), cut differently in each phase. */
module HostRegion {
  import Modular

  datatype Staging = Staging(decode: nat, batch: nat, prefill: nat, peak: nat)

  /** The larger of two needs, as a least upper bound. */
  predicate IsLargest(m: int, a: int, b: int) {
    a <= m && b <= m && (m == a || m == b)
  }

  ghost function LeastOf(a: int, b: int): int { if a <= b then a else b }

  function Larger(a: nat, b: nat): nat { if a < b then b else a }
  function Smaller(a: nat, b: nat): nat { if a < b then a else b }

  function Times(a: nat, b: nat): nat {
    Modular.MulSign(a, b);
    a * b
  }

  /** The corridor each phase needs: decode double-buffers one token, a routed chunk needs as many
      slots as it can select and a layer has, a sweep its whole blocks, at least one; each phase
      the larger of its own need and the phase before it. */
  function StagingSlots(prefillChunk: nat, sweep: bool, blocks: nat, expertsPerLayer: nat, expertsPerToken: nat): (s: Staging)
    ensures s.decode <= s.batch <= s.prefill == s.peak
    ensures s.decode == expertsPerToken + expertsPerToken
    ensures IsLargest(s.batch, s.decode, LeastOf(expertsPerToken * (if prefillChunk == 0 then 1 else prefillChunk), expertsPerLayer))
    ensures !sweep ==> s.prefill == s.batch
    ensures sweep ==> IsLargest(s.prefill, s.batch, (if blocks == 0 then 1 else blocks) * expertsPerLayer)
  {
    var decode := 2 * expertsPerToken;
    var ceiling := Smaller(Times(expertsPerToken, Larger(1, prefillChunk)), expertsPerLayer);
    var batch := Larger(decode, ceiling);
    var used := if sweep then Larger(1, blocks) else 1;
    Modular.MulAtLeast(used, expertsPerLayer);
    var prefill := if sweep then Larger(batch, Times(used, expertsPerLayer)) else batch;
    Staging(decode, batch, prefill, Larger(decode, Larger(batch, prefill)))
  }

  ghost function Sum(xs: seq<nat>): nat {
    if xs == [] then 0 else Sum(xs[..|xs| - 1]) + xs[|xs| - 1]
  }

  lemma SumStep(xs: seq<nat>, i: nat)
    requires i < |xs|
    ensures Sum(xs[..i + 1]) == Sum(xs[..i]) + xs[i]
  {
    assert xs[..i + 1][..i] == xs[..i];
  }

  /** The cumulative floor after some layers. */
  ghost function Cut(total: nat, layers: nat, all: nat): int
    requires 0 < all
  {
    (total * layers) / all
  }

  lemma CutGrows(total: nat, a: nat, b: nat, all: nat)
    requires 0 < all && a <= b
    ensures 0 <= Cut(total, a, all) <= Cut(total, b, all)
  {
    Modular.MulSign(b - a, total);
    Modular.MulSign(a, total);
    assert total * b == total * a + (b - a) * total;
    Modular.DivMonotone(total * a, total * b, all);
    Modular.DivNonNegative(total * a, all);
  }

  lemma CutEnds(total: nat, all: nat)
    requires 0 < all
    ensures Cut(total, 0, all) == 0 && Cut(total, all, all) == total
  {
    Modular.ModSmall(0, all);
    Modular.DivModUnique(total * all, all, total, 0);
  }

  /** Shares by cumulative floors: with any layers at all they add up to the whole budget, and
      each prefix is the floor of its exact proportion. */
  method SplitHostBudget(total: nat, counts: seq<nat>) returns (shares: seq<nat>)
    ensures |shares| == |counts|
    ensures Sum(counts) == 0 ==> Sum(shares) == 0
    ensures Sum(counts) > 0 ==>
      && Sum(shares) == total
      && forall i :: 0 <= i <= |counts| ==> Sum(shares[..i]) == Cut(total, Sum(counts[..i]), Sum(counts))
  {
    var layers := 0;
    for i := 0 to |counts|
      invariant layers == Sum(counts[..i])
    {
      SumStep(counts, i);
      layers := layers + counts[i];
    }
    assert counts[..|counts|] == counts;
    if layers == 0 {
      shares := Zeros(|counts|);
      return;
    }
    hide Sum;
    var before := 0;
    shares := [];
    SumEmpty(counts, shares);
    CutEnds(total, layers);
    for i := 0 to |counts|
      invariant |shares| == i && before == Sum(counts[..i])
      invariant Sum(shares[..i]) == Cut(total, before, layers)
      invariant forall k :: 0 <= k <= i ==> Sum(shares[..k]) == Cut(total, Sum(counts[..k]), layers)
    {
      var after := before + counts[i];
      SumStep(counts, i);
      CutGrows(total, before, after, layers);
      ghost var was := shares;
      shares := shares + [(total * after) / layers - (total * before) / layers];
      SumStep(shares, i);
      assert shares[..i] == was[..i];
      assert forall k :: 0 <= k <= i ==> shares[..k] == was[..k];
      before := after;
    }
    assert shares[..|counts|] == shares;
  }

  lemma SumEmpty(counts: seq<nat>, shares: seq<nat>)
    requires shares == []
    ensures Sum(counts[..0]) == 0 && Sum(shares[..0]) == 0
  {
  }

  function Zeros(n: nat): (z: seq<nat>)
    ensures |z| == n && Sum(z) == 0
  {
    if n == 0 then [] else Zeros(n - 1) + [0]
  }

  // -- The plan ---------------------------------------------------------------------------------

  /** One stage's claim: the whole region, and where its Warm lane starts and how long it is. */
  datatype Lane = Lane(region: nat, start: nat, slots: nat)

  ghost function LaneSlots(plan: seq<Lane>): (s: seq<nat>)
    ensures |s| == |plan|
  {
    seq(|plan|, i requires 0 <= i < |plan| => plan[i].slots)
  }

  /** Lanes follow one another from the head of one region. */
  ghost predicate Contiguous(plan: seq<Lane>, region: nat) {
    forall i :: 0 <= i < |plan| ==> plan[i].region == region && plan[i].start == Sum(LaneSlots(plan)[..i])
  }

  function RegionSlots(warmBytes: nat, payload: nat, staging: Staging, stages: nat): nat
    requires 0 < payload
  {
    Modular.DivNonNegative(warmBytes, payload);
    if warmBytes / payload == 0 && stages > 1 then staging.peak else warmBytes / payload
  }

  function LaneTotal(warmBytes: nat, payload: nat, staging: Staging, stages: nat): nat
    requires 0 < payload
  {
    var region := RegionSlots(warmBytes, payload, staging, stages);
    if warmBytes / payload > 0 && region > staging.decode then region - staging.decode else 0
  }

  /** The region is as many whole payloads as the budget holds; without a budget, several stages
      still share the peak corridor and one stage has none. */
  lemma RegionIsBudget(warmBytes: nat, payload: nat, staging: Staging, stages: nat)
    requires 0 < payload
    ensures var region := RegionSlots(warmBytes, payload, staging, stages);
      && (payload <= warmBytes ==> region * payload <= warmBytes < (region + 1) * payload)
      && (warmBytes < payload ==> region == if stages > 1 then staging.peak else 0)
  {
    Modular.DivModOf(warmBytes, payload);
    if warmBytes < payload {
      Modular.ModSmall(warmBytes, payload);
    } else {
      Modular.DivMonotone(payload, warmBytes, payload);
      Modular.DivModUnique(payload, payload, 1, 0);
      assert (warmBytes / payload + 1) * payload == (warmBytes / payload) * payload + payload;
    }
  }

  /** The lanes tile the region short of the decode corridor. */
  method PlanSharedHostRegion(warmBytes: nat, payload: nat, staging: Staging, counts: seq<nat>) returns (plan: seq<Lane>)
    requires 0 < payload
    ensures |plan| == |counts| && Contiguous(plan, RegionSlots(warmBytes, payload, staging, |counts|))
    ensures Sum(LaneSlots(plan)) == if Sum(counts) > 0 then LaneTotal(warmBytes, payload, staging, |counts|) else 0
  {
    var region := RegionSlots(warmBytes, payload, staging, |counts|);
    var lanes := SplitHostBudget(LaneTotal(warmBytes, payload, staging, |counts|), counts);
    plan := [];
    var start := 0;
    for stage := 0 to |counts|
      invariant |plan| == stage && start == Sum(lanes[..stage])
      invariant forall i :: 0 <= i < stage ==> plan[i] == Lane(region, Sum(lanes[..i]), lanes[i])
    {
      plan := plan + [Lane(region, start, lanes[stage])];
      SumStep(lanes, stage);
      start := start + lanes[stage];
    }
    assert LaneSlots(plan) == lanes;
    assert lanes[..|counts|] == lanes;
  }

  /** Lanes of one plan never overlap, and none reaches past the last one's end. */
  lemma LanesDisjoint(plan: seq<Lane>, region: nat, i: nat, j: nat)
    requires Contiguous(plan, region) && i < j < |plan|
    ensures plan[i].start + plan[i].slots <= plan[j].start
    ensures plan[j].start + plan[j].slots <= Sum(LaneSlots(plan))
  {
    SumStep(LaneSlots(plan), i);
    SumPrefix(LaneSlots(plan), i + 1, j);
    SumStep(LaneSlots(plan), j);
    SumPrefix(LaneSlots(plan), j + 1, |plan|);
    assert LaneSlots(plan)[..|plan|] == LaneSlots(plan);
  }

  lemma {:induction false} SumPrefix(xs: seq<nat>, i: nat, j: nat)
    requires i <= j <= |xs|
    ensures Sum(xs[..i]) <= Sum(xs[..j])
  {
    if i < j {
      SumPrefix(xs, i, j - 1);
      SumStep(xs, j - 1);
    }
  }

  /** What a phase whose corridor takes `staging` slots leaves of a lane. */
  function WarmFor(lane: Lane, staging: nat): nat {
    var room := if lane.region > staging then lane.region - staging else 0;
    var usable := if room > lane.start then room - lane.start else 0;
    Smaller(usable, lane.slots)
  }

  ghost function WarmTotal(plan: seq<Lane>, staging: nat, n: nat): nat
    requires n <= |plan|
  {
    if n == 0 then 0 else WarmTotal(plan, staging, n - 1) + WarmFor(plan[n - 1], staging)
  }

  /** Clipping each lane clips the lanes as one block. */
  lemma {:induction false} ClippedTogether(plan: seq<Lane>, region: nat, staging: nat, n: nat)
    requires Contiguous(plan, region) && n <= |plan|
    ensures WarmTotal(plan, staging, n)
         == Smaller(if region > staging then region - staging else 0, Sum(LaneSlots(plan)[..n]))
  {
    if n > 0 {
      ClippedTogether(plan, region, staging, n - 1);
      SumStep(LaneSlots(plan), n - 1);
    }
  }

  /** With Warm enabled and a region that holds the peak, Warm and the corridor fill the region
      in each of the three phases. */
  lemma PhasesFillRegion(plan: seq<Lane>, warmBytes: nat, payload: nat, staging: Staging, counts: seq<nat>, corridor: nat)
    requires 0 < payload && |plan| == |counts| && Sum(counts) > 0 && warmBytes / payload > 0
    requires staging.decode <= staging.batch <= staging.prefill <= staging.peak
    requires Contiguous(plan, RegionSlots(warmBytes, payload, staging, |counts|))
    requires Sum(LaneSlots(plan)) == LaneTotal(warmBytes, payload, staging, |counts|)
    requires staging.peak <= RegionSlots(warmBytes, payload, staging, |counts|)
    requires corridor in {staging.decode, staging.batch, staging.prefill}
    ensures WarmTotal(plan, corridor, |plan|) + corridor == RegionSlots(warmBytes, payload, staging, |counts|)
    ensures corridor == staging.decode ==> forall i :: 0 <= i < |plan| ==> WarmFor(plan[i], corridor) == plan[i].slots
  {
    var region := RegionSlots(warmBytes, payload, staging, |counts|);
    ClippedTogether(plan, region, corridor, |plan|);
    assert LaneSlots(plan)[..|plan|] == LaneSlots(plan);
    if corridor == staging.decode {
      forall i | 0 <= i < |plan| ensures WarmFor(plan[i], corridor) == plan[i].slots {
        SumStep(LaneSlots(plan), i);
        SumPrefix(LaneSlots(plan), i + 1, |plan|);
      }
    }
  }

  // -- The tiers --------------------------------------------------------------------------------

  const WORD: nat := 0x1_0000_0000

  /** Warm takes what Hot leaves, within its lane; Cold is the rest, in 32-bit arithmetic. */
  function WarmSlots(total: nat, hot: nat, lane: nat): nat {
    Smaller(if total > hot then total - hot else 0, lane)
  }

  function ColdSlots(total: nat, hot: nat, lane: nat): int {
    (total - (hot + WarmSlots(total, hot, lane))) % WORD
  }

  /** The tiers account for every expert exactly when Hot holds no more than there are, and Warm
      holds as many of the others as its lane can. */
  lemma TiersConserve(total: nat, hot: nat, lane: nat)
    requires total < WORD && hot < WORD
    ensures hot + WarmSlots(total, hot, lane) + ColdSlots(total, hot, lane) == total <==> hot <= total
    ensures var warm := WarmSlots(total, hot, lane);
      && warm <= lane && (hot <= total ==> hot + warm <= total)
      && (warm == lane || hot + warm == total || (hot > total && warm == 0))
  {
    var rest := total - (hot + WarmSlots(total, hot, lane));
    if hot <= total {
      Modular.ModSmall(rest, WORD);
    } else {
      Modular.DivModUnique(rest, WORD, -1, rest + WORD);
    }
  }
}
