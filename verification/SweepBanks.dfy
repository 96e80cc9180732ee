/** Which windows keep their live layers in different staging banks: a condition on what was
    resident when they began, exact in both directions. */
module SweepBanks {
  import opened Wrappers
  import opened PrefillSweep
  import opened SweepWindow
  import Modular

  /** Two layers that lacked something, in one bank, with fewer than `banks` such layers from one
      to the other: the lookahead can reach the second while the first holds the bank. */
  ghost predicate Conflict(start: seq<set<nat>>, experts: nat, banks: nat, a: nat, b: nat) {
    && 0 < banks && a < b < |start| && Bank(a, banks) == Bank(b, banks)
    && !Whole(start, a, experts) && !Whole(start, b, experts)
    && Missing(start, experts, a + 1, b + 1) < banks
  }

  lemma ConflictNeedsBanks(start: seq<set<nat>>, experts: nat, banks: nat, a: nat, b: nat)
    requires Conflict(start, experts, banks, a, b)
    ensures 1 < banks
  {
    hide Whole, Bank;
  }

  /** In every state of a window without a conflicting pair, no two live layers share a bank. */
  lemma LiveBanksApart(s: Sweep)
    requires s.Valid() && forall a, b :: !Conflict(s.start, s.experts, s.banks, a, b)
    ensures BanksApart(s.batches, s.ahead, if s.resident.Some? then Some(s.residentLayer) else None, s.banks)
  {
    hide Covers, AllSupply, OneWave, Ledger, Whole, Missing, Bank;
    forall i, j | 0 <= i < j < |s.ahead|
      ensures Bank(s.batches[s.ahead[i]].layer, s.banks) != Bank(s.batches[s.ahead[j]].layer, s.banks)
    {
      QueueDistance(s, i, j);
      assert !Conflict(s.start, s.experts, s.banks, s.batches[s.ahead[i]].layer, s.batches[s.ahead[j]].layer);
    }
    if s.resident.Some? {
      forall j | 0 <= j < |s.ahead|
        ensures Bank(s.batches[s.ahead[j]].layer, s.banks) != Bank(s.residentLayer, s.banks)
      {
        FrontDistance(s, j);
        assert !Conflict(s.start, s.experts, s.banks, s.residentLayer, s.batches[s.ahead[j]].layer);
      }
    }
  }

  /** Layers in different banks have disjoint staging slots, all inside the arena. */
  lemma SlotsApart(a: nat, b: nat, banks: nat, experts: nat)
    requires 0 < banks && Bank(a, banks) < Bank(b, banks)
    ensures Bank(a, banks) * experts + experts <= Bank(b, banks) * experts
    ensures Bank(b, banks) * experts + experts <= banks * experts
  {
    Modular.DivModOf(a, banks);
    Modular.DivModOf(b, banks);
    Modular.MulAtLeast(Bank(b, banks) - Bank(a, banks), experts);
    Modular.MulAtLeast(banks - Bank(b, banks), experts);
    assert Bank(b, banks) * experts == Bank(a, banks) * experts + (Bank(b, banks) - Bank(a, banks)) * experts;
    assert banks * experts == Bank(b, banks) * experts + (banks - Bank(b, banks)) * experts;
  }

  /** In a window without a conflicting pair, two queued batches never read into one slot. */
  lemma LiveSlotsApart(s: Sweep, i: nat, j: nat)
    requires s.Valid() && (forall a, b :: !Conflict(s.start, s.experts, s.banks, a, b)) && i < j < |s.ahead|
    ensures Known(s.batches, s.ahead)
    ensures var p, q := s.batches[s.ahead[i]].base, s.batches[s.ahead[j]].base;
      p + s.experts <= q || q + s.experts <= p
  {
    hide QueueOk, WindowOk, Bank, Conflict;
    s.Shape();
    LiveBanksApart(s);
    var a, b := s.batches[s.ahead[i]].layer, s.batches[s.ahead[j]].layer;
    if Bank(a, s.banks) < Bank(b, s.banks) {
      SlotsApart(a, b, s.banks, s.experts);
    } else {
      SlotsApart(b, a, s.banks, s.experts);
    }
  }

  /** Nor into one the resident layer's copies still leave. */
  lemma HeldSlotsApart(s: Sweep, j: nat)
    requires s.Valid() && (forall a, b :: !Conflict(s.start, s.experts, s.banks, a, b)) && j < |s.ahead| && s.resident.Some?
    ensures Known(s.batches, s.ahead) && s.resident.value < |s.batches|
    ensures var p, q := s.batches[s.resident.value].base, s.batches[s.ahead[j]].base;
      p + s.experts <= q || q + s.experts <= p
  {
    hide QueueOk, WindowOk, Bank, Conflict;
    s.Shape();
    LiveBanksApart(s);
    var a, b := s.residentLayer, s.batches[s.ahead[j]].layer;
    if Bank(a, s.banks) < Bank(b, s.banks) {
      SlotsApart(a, b, s.banks, s.experts);
    } else {
      SlotsApart(b, a, s.banks, s.experts);
    }
  }

  /** The layers that lacked something from one queued layer to another are the queued ones. */
  lemma QueueDistance(s: Sweep, i: nat, j: nat)
    requires s.Valid() && i < j < |s.ahead|
    ensures var a, b := s.batches[s.ahead[i]].layer, s.batches[s.ahead[j]].layer;
      && a < b < |s.start| && !Whole(s.start, a, s.experts) && !Whole(s.start, b, s.experts)
      && Missing(s.start, s.experts, a + 1, b + 1) == j - i < s.banks
  {
    hide Covers, AllSupply, OneWave, Ledger, Whole;
    var a, b := s.batches[s.ahead[i]].layer, s.batches[s.ahead[j]].layer;
    MissingSplit(s.start, s.experts, s.next, a + 1, b + 1);
  }

  lemma FrontDistance(s: Sweep, j: nat)
    requires s.Valid() && j < |s.ahead| && s.resident.Some?
    ensures var b := s.batches[s.ahead[j]].layer;
      && s.residentLayer < b < |s.start| && !Whole(s.start, b, s.experts) && !Whole(s.start, s.residentLayer, s.experts)
      && Missing(s.start, s.experts, s.residentLayer + 1, b + 1) == j + 1 < s.banks
  {
    hide Covers, AllSupply, OneWave, Ledger, Whole;
  }

  /** A queue that skipped nothing keeps its banks apart, whatever was whole elsewhere. */
  lemma UnskippedBanksApart(s: Sweep)
    requires s.Valid() && Contiguous(s.batches, s.ahead, s.next)
    ensures BanksApart(s.batches, s.ahead, if s.resident.Some? then Some(s.residentLayer) else None, s.banks)
  {
    hide Covers, AllSupply, OneWave, Ascending, Ledger, Beyond, Whole;
    ContiguousBanksApart(s.batches, s.ahead, s.next, if s.resident.Some? then Some(s.residentLayer) else None, s.banks);
  }

  ghost predicate SharesBank(s: Sweep)
    reads s
    requires 0 < s.banks && Known(s.batches, s.ahead)
  {
    exists j :: 0 <= j < |s.ahead| && Bank(s.batches[s.ahead[j]].layer, s.banks) == Bank(s.residentLayer, s.banks)
  }

  /** The condition is exact: once the drive has caught up in the body of a layer, with staging
      for every free bank, the layer's bank is shared if and only if it has a conflict. */
  lemma SharingExact(s: Sweep)
    requires s.Valid() && s.resident.Some? && !Flying(s.batches, s.ahead)
    requires Saturated(s.batches, s.ahead, s.residents, s.next, s.layers, s.experts, Depth(s.banks))
    ensures SharesBank(s) <==> exists b :: Conflict(s.start, s.experts, s.banks, s.residentLayer, b)
  {
    hide Covers, AllSupply, OneWave, Ledger, Flying, Saturated, Bank, Whole, Missing;
    if SharesBank(s) {
      var j :| 0 <= j < |s.ahead| && Bank(s.batches[s.ahead[j]].layer, s.banks) == Bank(s.residentLayer, s.banks);
      FrontDistance(s, j);
      assert Conflict(s.start, s.experts, s.banks, s.residentLayer, s.batches[s.ahead[j]].layer);
    }
    if b :| Conflict(s.start, s.experts, s.banks, s.residentLayer, b) {
      ConflictIsReached(s, b);
      QueuedBecauseDue(s, b);
    }
  }

  /** The lookahead gets as far as a conflicting layer. */
  lemma ConflictIsReached(s: Sweep, b: nat)
    requires s.Valid() && s.resident.Some? && Conflict(s.start, s.experts, s.banks, s.residentLayer, b)
    requires !Flying(s.batches, s.ahead)
    requires Saturated(s.batches, s.ahead, s.residents, s.next, s.layers, s.experts, Depth(s.banks))
    ensures b < Frontier(s.batches, s.ahead, s.next)
  {
    hide Covers, AllSupply, OneWave, Ledger, Flying, Bank;
    var f := Frontier(s.batches, s.ahead, s.next);
    MissingToFrontier(s.batches, s.ahead, s.start, s.next, s.experts);
    assert f <= b && |s.ahead| < Depth(s.banks) ==> Whole(s.residents, b, s.experts);
    if f <= b {
      FrontierAhead(s.batches, s.ahead, s.next, s.layers);
      MissingSplit(s.start, s.experts, s.next, f, b + 1);
    }
  }

  /** Between the queue's ends, a layer that lacked something is queued. */
  lemma QueuedBecauseDue(s: Sweep, b: nat)
    requires s.Valid() && s.next <= b < Frontier(s.batches, s.ahead, s.next) && !Whole(s.start, b, s.experts)
    ensures exists i :: 0 <= i < |s.ahead| && s.batches[s.ahead[i]].layer == b
  {
    hide Covers, AllSupply, OneWave, Ledger, Whole;
    var k := Missing(s.start, s.experts, s.next, b);
    var last := s.batches[s.ahead[|s.ahead| - 1]].layer;
    MissingSplit(s.start, s.experts, s.next, b, last);
    if b < last { MissingSplit(s.start, s.experts, b, b + 1, last); }
    assert k < |s.ahead|;
    var l := s.batches[s.ahead[k]].layer;
    assert Missing(s.start, s.experts, s.next, l) == k;
    if b < l {
      MissingSplit(s.start, s.experts, s.next, b, l);
      MissingSplit(s.start, s.experts, b, b + 1, l);
    } else if l < b {
      MissingSplit(s.start, s.experts, s.next, l, b);
      MissingSplit(s.start, s.experts, l, l + 1, b);
    }
  }

  /** A window that begins with no layer whole has no conflicting pair. */
  lemma NoneWholeNoConflict(start: seq<set<nat>>, experts: nat, banks: nat, a: nat, b: nat)
    requires forall l :: 0 <= l < |start| ==> !Whole(start, l, experts)
    ensures !Conflict(start, experts, banks, a, b)
  {
    if 0 < banks && a < b < |start| {
      MissingAll(start, experts, a + 1, b + 1);
      if b < a + banks { Modular.ModDistinct(a, b, banks); }
    }
  }

  lemma {:induction false} MissingAll(start: seq<set<nat>>, experts: nat, lo: nat, hi: nat)
    requires lo <= hi <= |start| && forall l :: 0 <= l < |start| ==> !Whole(start, l, experts)
    ensures Missing(start, experts, lo, hi) == hi - lo
  {
    if lo < hi { MissingAll(start, experts, lo, hi - 1); }
  }

  // -- Runs that reach a conflict ---------------------------------------------------------------

  /** One layer of a window whose reads land at once and whose pool has room. */
  method PassLayer(s: Sweep, layer: nat, w: World)
    requires s.Valid() && s.active && !s.inBody && s.next == layer < s.layers && s.Grounded()
    requires Prompt(w, s.experts) && s.experts <= w.vram
    modifies s
    ensures s.Valid() && s.active && !s.inBody && s.next == layer + 1 && s.Grounded()
    ensures s.start == old(s.start) && s.readAheadMax == old(s.readAheadMax)
  {
    hide QueueOk, WindowOk, Based, LeasesOk, HeldOk, Whole, Saturated, Capacity, Lacking, NothingLive, Flying, Prompt;
    s.Sizes(layer);
    var ok := s.BeforeLayer(layer, w);
    ok := s.AfterLayer(layer, w);
    s.Shape();
  }

  /** The body of a conflicting layer, with staging for every bank: its bank is shared. */
  method EnterConflict(s: Sweep, w: World, a: nat, ghost b: nat)
    requires s.Valid() && s.active && !s.inBody && s.next == a < s.layers && s.Grounded()
    requires Conflict(s.start, s.experts, s.banks, a, b)
    requires Prompt(w, s.experts) && s.experts <= w.vram
    requires Capacity(w.staging, s.experts, s.banks, s.readAheadMax) == Depth(s.banks)
    modifies s
    ensures s.Valid() && s.resident.Some? && s.residentLayer == a && s.start == old(s.start)
    ensures Known(s.batches, s.ahead) && SharesBank(s)
  {
    hide QueueOk, WindowOk, Based, LeasesOk, Whole, Saturated, Capacity, Lacking, NothingLive, Flying, Prompt, Missing, Depth;
    s.Sizes(a);
    ConflictNeedsBanks(s.start, s.experts, s.banks, a, b);
    var ok := s.BeforeLayer(a, w);
    s.Shape();
    SharingExact(s);
  }

  /** Every conflict is reached: whatever decode left resident, a window with a drive that
      delivers at once, staging for every bank and room in the pool comes to a state in which
      the conflicting layer is queued into a bank that is still held. */
  method ReachConflict(s: Sweep, hot: seq<set<nat>>, w: World, a: nat, ghost b: nat)
    requires s.Valid() && !s.active && |hot| == s.layers && s.experts <= s.vramCapacity
    requires Conflict(hot, s.experts, s.banks, a, b)
    requires Prompt(w, s.experts) && s.experts <= w.vram
    requires Capacity(w.staging, s.experts, s.banks, s.readAheadMax) == Depth(s.banks)
    requires forall l :: 0 <= l < |hot| ==> hot[l] <= w.preserved(l)
    modifies s
    ensures s.Valid() && s.resident.Some? && s.residentLayer == a && s.start == hot
    ensures Known(s.batches, s.ahead) && SharesBank(s)
  {
    hide QueueOk, WindowOk, Based, LeasesOk, HeldOk, Whole, Saturated, Capacity, Flying, Prompt, Missing, Depth;
    s.Decode(hot);
    PreservedAll(hot, w);
    var ok := s.Begin(w);
    s.Shape();
    for layer := 0 to a
      invariant s.Valid() && s.active && !s.inBody && s.next == layer && s.start == hot && s.Grounded()
      invariant s.readAheadMax == old(s.readAheadMax)
    {
      PassLayer(s, layer, w);
    }
    EnterConflict(s, w, a, b);
  }

  /** The smallest case: two banks, one expert, layer 1 preserved. Layers 0 and 2 are live in
      bank 0 at once. */
  method SkippedLayerSharesABank() returns (s: Sweep)
    ensures fresh(s) && s.Valid() && s.banks == 2 && s.residentLayer == 0 && s.resident.Some?
    ensures exists j :: 0 <= j < |s.ahead| && s.batches[s.ahead[j]].layer == 2 && Bank(2, 2) == Bank(0, 2)
  {
    hide QueueOk, WindowOk, Based, LeasesOk;
    s := new Sweep(3, 1, 2, 1);
    var hot: seq<set<nat>> := [{}, {0}, {}];
    var w := World(1, 1, _ => {0}, _ => {}, _ => [], _ => {0});
    SmallConflict(hot);
    ReachConflict(s, hot, w, 0, 2);
    s.Shape();
    var j :| 0 <= j < |s.ahead| && Bank(s.batches[s.ahead[j]].layer, s.banks) == Bank(s.residentLayer, s.banks);
    FrontDistance(s, j);
    assert s.batches[s.ahead[j]].layer == 2;
  }

  lemma PreservedAll(hot: seq<set<nat>>, w: World)
    requires forall l :: 0 <= l < |hot| ==> hot[l] <= w.preserved(l)
    ensures Preserved(hot, w) == hot
  {
    var kept := Preserved(hot, w);
    assert forall l :: 0 <= l < |hot| ==> kept[l] == hot[l];
  }

  lemma SmallConflict(hot: seq<set<nat>>)
    requires hot == [{}, {0}, {}]
    ensures Conflict(hot, 1, 2, 0, 2) && Capacity(1, 1, 2, 0) == Depth(2)
  {
    assert 0 !in hot[0] && 0 !in hot[2];
    assert Missing(hot, 1, 1, 1) == 0;
    assert Whole(hot, 1, 1);
    assert Missing(hot, 1, 1, 2) == 0;
    assert Missing(hot, 1, 1, 3) == Missing(hot, 1, 1, 2) + 1;
    assert 1 / 1 == 1;
  }
}
