/** The prefill sweep: a lookahead queue of layers whose reads are dispatched, staging banks
    that hold them, and the window driver. The supply and the registry are port methods of
    the same object, with the contracts the sweep relies on: a layer's residency changes only
    by its own pump, materialization or release, and every choice they leave to the
    environment (what has landed, how much staging is free) is arbitrary. */
module PrefillSweep {
  import opened Wrappers
  import Modular

  /** One layer's dispatched reads: the staging slot its bank begins at, what was missing, what the drive has not delivered yet,
      and how often the batch was materialized and its bank finished. */
  datatype Batch = Batch(layer: nat, base: nat, experts: set<nat>, pending: set<nat>, materialized: nat, finished: nat)

  /** The lookahead queue names its entries by batch. */
  type Queue = seq<nat>

  ghost predicate Known(batches: seq<Batch>, ahead: Queue) {
    forall i :: 0 <= i < |ahead| ==> ahead[i] < |batches|
  }

  /** Layer order is dispatch order. */
  ghost predicate Ascending(batches: seq<Batch>, ahead: Queue)
    requires Known(batches, ahead)
  {
    forall i, j :: 0 <= i < j < |ahead| ==>
      ahead[i] < ahead[j] && batches[ahead[i]].layer < batches[ahead[j]].layer
  }

  /** Each batch waits in the queue, is held by the resident layer, or has been materialized
      once and its bank finished once. */
  ghost predicate Ledger(batches: seq<Batch>, ahead: Queue, resident: Option<nat>) {
    && (resident.Some? ==> resident.value < |batches| && resident.value !in ahead)
    && forall id :: 0 <= id < |batches| ==>
         && batches[id].materialized == (if id in ahead then 0 else 1)
         && batches[id].finished == (if id in ahead || resident == Some(id) then 0 else 1)
  }

  /** Only the last queued layer may have reads outstanding. */
  ghost predicate OneWave(batches: seq<Batch>, ahead: Queue)
    requires Known(batches, ahead)
  {
    forall i :: 0 <= i < |ahead| - 1 ==> batches[ahead[i]].pending == {}
  }

  /** Queued layers are still to come. */
  ghost predicate Beyond(batches: seq<Batch>, ahead: Queue, next: nat, layers: nat)
    requires Known(batches, ahead)
  {
    forall i :: 0 <= i < |ahead| ==> next <= batches[ahead[i]].layer < layers
  }

  ghost predicate Whole(residents: seq<set<nat>>, layer: nat, experts: nat) {
    layer < |residents| && forall e :: 0 <= e < experts ==> e in residents[layer]
  }

  ghost predicate Queued(batches: seq<Batch>, ahead: Queue, layer: nat)
    requires Known(batches, ahead)
  {
    exists i :: 0 <= i < |ahead| && batches[ahead[i]].layer == layer
  }

  /** A layer the queue jumps over needs nothing. */
  ghost predicate Covers(batches: seq<Batch>, ahead: Queue, residents: seq<set<nat>>, next: nat, experts: nat)
    requires Known(batches, ahead)
  {
    ahead != [] ==> forall l :: next <= l < batches[ahead[|ahead| - 1]].layer ==>
      Whole(residents, l, experts) || Queued(batches, ahead, l)
  }

  /** What a batch was dispatched for is all its layer lacks. */
  ghost predicate Supplies(b: Batch, residents: seq<set<nat>>, experts: nat) {
    b.layer < |residents| && forall e :: 0 <= e < experts ==> e in residents[b.layer] || e in b.experts
  }

  ghost predicate AllSupply(batches: seq<Batch>, ahead: Queue, residents: seq<set<nat>>, experts: nat)
    requires Known(batches, ahead)
  {
    forall i :: 0 <= i < |ahead| ==> Supplies(batches[ahead[i]], residents, experts)
  }

  ghost predicate Contiguous(batches: seq<Batch>, ahead: Queue, next: nat)
    requires Known(batches, ahead)
  {
    forall i :: 0 <= i < |ahead| ==> batches[ahead[i]].layer == next + i
  }

  function Depth(banks: nat): nat { if banks > 1 then banks - 1 else 1 }

  function Bank(layer: nat, banks: nat): nat
    requires 0 < banks
  {
    layer % banks
  }

  /** No two live layers (the resident one and the queued ones) share a staging bank. */
  ghost predicate BanksApart(batches: seq<Batch>, ahead: Queue, residentLayer: Option<nat>, banks: nat)
    requires 0 < banks && Known(batches, ahead)
  {
    && (forall i, j :: 0 <= i < j < |ahead| ==>
          Bank(batches[ahead[i]].layer, banks) != Bank(batches[ahead[j]].layer, banks))
    && (residentLayer.Some? ==> forall i :: 0 <= i < |ahead| ==>
          Bank(batches[ahead[i]].layer, banks) != Bank(residentLayer.value, banks))
  }

  /** Everything the queue keeps at every step. */
  ghost predicate QueueOk(batches: seq<Batch>, ahead: Queue, residents: seq<set<nat>>, resident: Option<nat>,
                          next: nat, layers: nat, experts: nat)
  {
    && |residents| == layers
    && Known(batches, ahead)
    && Ascending(batches, ahead)
    && Ledger(batches, ahead, resident)
    && OneWave(batches, ahead)
    && Beyond(batches, ahead, next, layers)
    && Covers(batches, ahead, residents, next, experts)
    && AllSupply(batches, ahead, residents, experts)
  }

  // -- What each step keeps -------------------------------------------------------------------

  /** With no layer skipped, live layers are at most `banks` consecutive ones. */
  lemma ContiguousBanksApart(batches: seq<Batch>, ahead: Queue, next: nat, residentLayer: Option<nat>, banks: nat)
    requires 0 < banks && Known(batches, ahead) && Contiguous(batches, ahead, next) && |ahead| <= Depth(banks)
    requires residentLayer.Some? ==> banks > 1 && residentLayer.value + 1 == next
    ensures BanksApart(batches, ahead, residentLayer, banks)
  {
    forall i, j | 0 <= i < j < |ahead|
      ensures Bank(batches[ahead[i]].layer, banks) != Bank(batches[ahead[j]].layer, banks)
    {
      Modular.ModDistinct(next + i, next + j, banks);
    }
    if residentLayer.Some? {
      forall i | 0 <= i < |ahead|
        ensures Bank(batches[ahead[i]].layer, banks) != Bank(residentLayer.value, banks)
      {
        Modular.ModDistinct(residentLayer.value, next + i, banks);
      }
    }
  }

  /** What the drive and the registry may do on their own: deliver reads, and change the
      residency of layers already retired. */
  ghost predicate Settles(batches: seq<Batch>, batches': seq<Batch>, residents: seq<set<nat>>,
                          residents': seq<set<nat>>, next: nat)
  {
    && |batches'| == |batches| && |residents'| == |residents|
    && (forall id :: 0 <= id < |batches| ==>
          && batches'[id] == batches[id].(pending := batches'[id].pending)
          && batches'[id].pending <= batches[id].pending)
    && forall l :: next <= l < |residents| ==> residents[l] <= residents'[l]
  }

  lemma SettlesKeeps(batches: seq<Batch>, batches': seq<Batch>, ahead: Queue, residents: seq<set<nat>>,
                     residents': seq<set<nat>>, resident: Option<nat>, next: nat, layers: nat, experts: nat)
    requires QueueOk(batches, ahead, residents, resident, next, layers, experts)
    requires Settles(batches, batches', residents, residents', next)
    ensures QueueOk(batches', ahead, residents', resident, next, layers, experts)
  {
    assert Ledger(batches', ahead, resident) by {
      hide Covers, AllSupply, OneWave, Ascending, Beyond;
    }
    assert AllSupply(batches', ahead, residents', experts) by {
      hide Covers, Ledger, OneWave, Ascending;
    }
    assert OneWave(batches', ahead) by {
      hide Covers, Ledger, AllSupply, Ascending, Beyond;
    }
    CoversKeeps(batches, batches', ahead, residents, residents', next, layers, experts);
  }

  lemma CoversKeeps(batches: seq<Batch>, batches': seq<Batch>, ahead: Queue, residents: seq<set<nat>>,
                    residents': seq<set<nat>>, next: nat, layers: nat, experts: nat)
    requires Known(batches, ahead) && Covers(batches, ahead, residents, next, experts)
    requires Settles(batches, batches', residents, residents', next)
    ensures Covers(batches', ahead, residents', next, experts)
  {
    assert forall i :: 0 <= i < |ahead| ==> batches'[ahead[i]].layer == batches[ahead[i]].layer;
    forall l | ahead != [] && next <= l < batches'[ahead[|ahead| - 1]].layer
      ensures Whole(residents', l, experts) || Queued(batches', ahead, l)
    {
      if Queued(batches, ahead, l) {
        var i :| 0 <= i < |ahead| && batches[ahead[i]].layer == l;
        assert batches'[ahead[i]].layer == l;
      } else {
        assert Whole(residents, l, experts);
        assert residents[l] <= residents'[l];
      }
    }
  }

  lemma PushLedger(batches: seq<Batch>, ahead: Queue, resident: Option<nat>, b: Batch)
    requires Known(batches, ahead) && Ledger(batches, ahead, resident) && b.materialized == 0 && b.finished == 0
    ensures Ledger(batches + [b], ahead + [|batches|], resident)
  {
    var ahead' := ahead + [|batches|];
    assert forall k :: k in ahead' <==> k == |batches| || k in ahead;
  }

  lemma PushCovers(batches: seq<Batch>, ahead: Queue, residents: seq<set<nat>>, next: nat, experts: nat, b: Batch)
    requires Known(batches, ahead) && Covers(batches, ahead, residents, next, experts)
    requires forall l :: (if ahead == [] then next else batches[ahead[|ahead| - 1]].layer + 1) <= l < b.layer
               ==> Whole(residents, l, experts)
    ensures Known(batches + [b], ahead + [|batches|])
    ensures Covers(batches + [b], ahead + [|batches|], residents, next, experts)
  {
    hide Whole;
    var batches', ahead' := batches + [b], ahead + [|batches|];
    assert forall i :: 0 <= i < |ahead| ==> batches'[ahead'[i]] == batches[ahead[i]];
    forall l | next <= l < b.layer
      ensures Whole(residents, l, experts) || Queued(batches', ahead', l)
    {
      if ahead != [] && l <= batches[ahead[|ahead| - 1]].layer {
        if l == batches[ahead[|ahead| - 1]].layer {
          assert batches'[ahead'[|ahead| - 1]].layer == l;
        } else if Queued(batches, ahead, l) {
          var i :| 0 <= i < |ahead| && batches[ahead[i]].layer == l;
          assert batches'[ahead'[i]].layer == l;
        }
      }
    }
  }

  /** A freshly dispatched batch joins the queue at its tail. */
  lemma PushOk(batches: seq<Batch>, ahead: Queue, residents: seq<set<nat>>, resident: Option<nat>,
               next: nat, layers: nat, experts: nat, b: Batch)
    requires QueueOk(batches, ahead, residents, resident, next, layers, experts)
    requires forall i :: 0 <= i < |ahead| ==> batches[ahead[i]].pending == {}
    requires next <= b.layer < layers && b.materialized == 0 && b.finished == 0 && Supplies(b, residents, experts)
    requires ahead != [] ==> batches[ahead[|ahead| - 1]].layer < b.layer
    requires forall l :: (if ahead == [] then next else batches[ahead[|ahead| - 1]].layer + 1) <= l < b.layer
               ==> Whole(residents, l, experts)
    ensures QueueOk(batches + [b], ahead + [|batches|], residents, resident, next, layers, experts)
  {
    hide Whole, Supplies, Ledger, Covers;
    PushLedger(batches, ahead, resident, b);
    PushCovers(batches, ahead, residents, next, experts, b);
    var batches', ahead' := batches + [b], ahead + [|batches|];
    assert forall i :: 0 <= i < |ahead| ==> batches'[ahead'[i]] == batches[ahead[i]];
  }

  lemma PopLedger(batches: seq<Batch>, ahead: Queue, b: Batch, held: bool)
    requires ahead != [] && Known(batches, ahead) && Ascending(batches, ahead) && Ledger(batches, ahead, None)
    requires b.materialized == 1 && b.finished == if held then 0 else 1
    ensures Ledger(batches[ahead[0] := b], ahead[1..], if held then Some(ahead[0]) else None)
  {
    var ahead', id := ahead[1..], ahead[0];
    assert ahead == [id] + ahead';
    assert forall k :: k in ahead <==> k == id || k in ahead';
    assert forall i {:trigger ahead'[i]} :: 0 <= i < |ahead'| ==> ahead'[i] == ahead[i + 1];
    assert id !in ahead';
  }

  lemma PopCovers(batches: seq<Batch>, ahead: Queue, residents: seq<set<nat>>, next: nat, experts: nat, b: Batch)
    requires ahead != [] && Known(batches, ahead) && Covers(batches, ahead, residents, next, experts)
    requires next <= b.layer == batches[ahead[0]].layer
    ensures Known(batches[ahead[0] := b], ahead[1..])
    ensures Covers(batches[ahead[0] := b], ahead[1..], residents, b.layer + 1, experts)
  {
    hide Whole;
    var batches', ahead' := batches[ahead[0] := b], ahead[1..];
    forall l | ahead' != [] && b.layer + 1 <= l < batches'[ahead'[|ahead'| - 1]].layer
      ensures Whole(residents, l, experts) || Queued(batches', ahead', l)
    {
      assert batches'[ahead[|ahead| - 1]].layer == batches[ahead[|ahead| - 1]].layer;
      if Queued(batches, ahead, l) {
        var i :| 0 <= i < |ahead| && batches[ahead[i]].layer == l;
        assert batches'[ahead'[i - 1]].layer == l;
      }
    }
  }

  /** The front leaves the queue: materialized now, its bank held or returned. */
  lemma PopOk(batches: seq<Batch>, ahead: Queue, residents: seq<set<nat>>,
              next: nat, layers: nat, experts: nat, b: Batch, held: bool)
    requires ahead != [] && QueueOk(batches, ahead, residents, None, next, layers, experts)
    requires b.layer == batches[ahead[0]].layer && b.materialized == 1 && b.finished == if held then 0 else 1
    ensures QueueOk(batches[ahead[0] := b], ahead[1..], residents,
                    if held then Some(ahead[0]) else None, b.layer + 1, layers, experts)
  {
    hide Whole, Supplies, Ledger, Covers;
    PopLedger(batches, ahead, b, held);
    PopCovers(batches, ahead, residents, next, experts, b);
    var batches', ahead' := batches[ahead[0] := b], ahead[1..];
    assert forall i {:trigger ahead'[i]} :: 0 <= i < |ahead'| ==> ahead'[i] == ahead[i + 1];
    assert forall i {:trigger ahead'[i]} :: 0 <= i < |ahead'| ==> ahead[0] < ahead'[i] && b.layer < batches[ahead'[i]].layer;
  }

  /** A batch dispatched and materialized at once, while nothing is queued. */
  lemma DirectOk(batches: seq<Batch>, residents: seq<set<nat>>, next: nat, layers: nat, experts: nat, b: Batch, held: bool)
    requires QueueOk(batches, [], residents, None, next, layers, experts)
    requires b.materialized == 1 && b.finished == if held then 0 else 1
    ensures QueueOk(batches + [b], [], residents, if held then Some(|batches|) else None, next + 1, layers, experts)
  {
  }

  /** A layer the queue does not hold is passed over. */
  lemma PassOk(batches: seq<Batch>, ahead: Queue, residents: seq<set<nat>>, resident: Option<nat>, next: nat, layers: nat, experts: nat)
    requires QueueOk(batches, ahead, residents, resident, next, layers, experts)
    requires ahead != [] ==> batches[ahead[0]].layer != next
    ensures QueueOk(batches, ahead, residents, resident, next + 1, layers, experts)
    ensures ahead != [] ==> Whole(residents, next, experts)
  {
    hide Whole, Supplies, Ledger, OneWave, AllSupply;
    if ahead != [] {
      assert next < batches[ahead[0]].layer;
      assert next < batches[ahead[|ahead| - 1]].layer;
      assert forall i :: 0 < i < |ahead| ==> batches[ahead[0]].layer < batches[ahead[i]].layer;
    }
  }

  /** The resident layer's bank is returned. */
  lemma FinishOk(batches: seq<Batch>, ahead: Queue, residents: seq<set<nat>>, id: nat, next: nat, layers: nat, experts: nat)
    requires QueueOk(batches, ahead, residents, Some(id), next, layers, experts)
    ensures QueueOk(batches[id := batches[id].(finished := batches[id].finished + 1)], ahead, residents, None, next, layers, experts)
  {
    hide Whole, Supplies;
    var batches' := batches[id := batches[id].(finished := batches[id].finished + 1)];
    assert Known(batches', ahead);
    assert Ledger(batches', ahead, None) by { hide Covers, AllSupply, OneWave, Ascending, Beyond; }
    assert forall i :: 0 <= i < |ahead| ==> batches'[ahead[i]] == batches[ahead[i]];
    assert Ascending(batches', ahead) && OneWave(batches', ahead) && Beyond(batches', ahead, next, layers) by {
      hide Covers, AllSupply, Ledger;
    }
    assert AllSupply(batches', ahead, residents, experts) by {
      hide Covers, Ledger, OneWave, Ascending, Beyond;
    }
    hide Ledger, AllSupply, OneWave, Ascending, Beyond;
    forall l | ahead != [] && next <= l < batches'[ahead[|ahead| - 1]].layer
      ensures Whole(residents, l, experts) || Queued(batches', ahead, l)
    {
      if Queued(batches, ahead, l) {
        var i :| 0 <= i < |ahead| && batches[ahead[i]].layer == l;
        assert batches'[ahead[i]].layer == l;
      }
    }
  }
}
