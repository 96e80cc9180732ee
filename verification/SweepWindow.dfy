/** The sweep object and its window driver, proved to keep the queue's invariants. */
module SweepWindow {
  import opened Wrappers
  import opened PrefillSweep
  import Modular

  /** First layer the lookahead has not considered. */
  ghost function Frontier(batches: seq<Batch>, ahead: Queue, next: nat): nat
    requires Known(batches, ahead)
  {
    if ahead == [] then next else batches[ahead[|ahead| - 1]].layer + 1
  }

  /** Layers past the frontier hold what they held when the window began. */
  ghost predicate Untouched(residents: seq<set<nat>>, start: seq<set<nat>>, frontier: nat) {
    |residents| == |start| && forall l :: frontier <= l < |start| ==> residents[l] == start[l]
  }

  /** How many layers in `lo..hi` lacked something when the window began. */
  ghost function Missing(start: seq<set<nat>>, experts: nat, lo: nat, hi: nat): nat {
    if hi <= lo then 0
    else Missing(start, experts, lo, hi - 1) + if Whole(start, hi - 1, experts) then 0 else 1
  }

  /** The queue is the next layers that lacked something, in order and without a gap. */
  ghost predicate Gapless(batches: seq<Batch>, ahead: Queue, start: seq<set<nat>>, next: nat, experts: nat)
    requires Known(batches, ahead)
  {
    forall i :: 0 <= i < |ahead| ==>
      var l := batches[ahead[i]].layer;
      next <= l && !Whole(start, l, experts) && Missing(start, experts, next, l) == i
  }

  /** The first `n` experts a layer does not have. */
  ghost function Absent(have: set<nat>, n: nat): set<nat> {
    set e: nat | e < n && e !in have
  }

  lemma {:induction false} AbsentSize(have: set<nat>, n: nat)
    ensures |Absent(have, n)| == Lacking(have, n)
  {
    if n == 0 {
      assert Absent(have, n) == {};
    } else {
      AbsentSize(have, n - 1);
      if n - 1 in have {
        assert Absent(have, n) == Absent(have, n - 1);
      } else {
        assert Absent(have, n) == Absent(have, n - 1) + {n - 1};
      }
    }
  }

  /** A queued batch asks for exactly what its layer lacked when the window began. */
  ghost predicate Exact(batches: seq<Batch>, ahead: Queue, start: seq<set<nat>>, experts: nat)
    requires Known(batches, ahead)
  {
    forall i :: 0 <= i < |ahead| ==> ExactBatch(batches[ahead[i]], start, experts)
  }

  ghost predicate ExactBatch(b: Batch, start: seq<set<nat>>, experts: nat) {
    b.layer < |start| && b.experts == Absent(start[b.layer], experts) && b.pending <= b.experts
  }

  /** Every batch was read into its layer's bank. */
  ghost predicate Based(batches: seq<Batch>, banks: nat, experts: nat)
    requires 0 < banks
  {
    forall id :: 0 <= id < |batches| ==> batches[id].base == Bank(batches[id].layer, banks) * experts
  }

  lemma BasedNone(banks: nat, experts: nat)
    requires 0 < banks
    ensures Based([], banks, experts)
  {
  }

  lemma BasedPush(batches: seq<Batch>, b: Batch, banks: nat, experts: nat)
    requires 0 < banks && Based(batches, banks, experts) && b.base == Bank(b.layer, banks) * experts
    ensures Based(batches + [b], banks, experts)
  {
  }

  lemma BasedKept(batches: seq<Batch>, batches': seq<Batch>, banks: nat, experts: nat)
    requires 0 < banks && Based(batches, banks, experts) && |batches'| == |batches|
    requires forall id :: 0 <= id < |batches| ==> batches'[id].base == batches[id].base && batches'[id].layer == batches[id].layer
    ensures Based(batches', banks, experts)
  {
    hide Bank;
  }

  /** How many experts the first `n` layers lacked when the window began. */
  ghost function Streamed(start: seq<set<nat>>, experts: nat, n: nat): nat {
    if n == 0 then 0
    else Streamed(start, experts, n - 1) + if n <= |start| then Lacking(start[n - 1], experts) else 0
  }

  /** The window so far: nothing past the frontier was touched, nothing due was left out, every
      batch asks for what was lacking, and up to the frontier each such expert was asked for once. */
  ghost predicate WindowOk(batches: seq<Batch>, ahead: Queue, residents: seq<set<nat>>, start: seq<set<nat>>,
                           next: nat, experts: nat, streamed: int)
  {
    && Known(batches, ahead)
    && Untouched(residents, start, Frontier(batches, ahead, next))
    && Gapless(batches, ahead, start, next, experts)
    && Exact(batches, ahead, start, experts)
    && streamed == Streamed(start, experts, Frontier(batches, ahead, next))
  }

  /** The bank held through a body is that body's layer's. */
  ghost predicate HeldOk(batches: seq<Batch>, resident: Option<nat>, residentLayer: nat, start: seq<set<nat>>,
                         banks: nat, next: nat, experts: nat, inBody: bool)
  {
    resident.Some? ==>
      && resident.value < |batches| && banks > 1 && inBody
      && residentLayer == batches[resident.value].layer && residentLayer + 1 == next
      && !Whole(start, residentLayer, experts)
  }

  /** Every lease taken is on the list, and the list is empty whenever the queue is. */
  ghost predicate LeasesOk(leases: seq<nat>, outstanding: multiset<nat>, ahead: Queue) {
    multiset(leases) == outstanding && (ahead == [] ==> leases == [])
  }

  /** What the drive, the pools and the registry decide during one call, per layer where it
      matters: free staging and free VRAM slots, which experts' reads have landed and been copied,
      which leases are handed out, and which residents are preserved. */
  datatype World = World(staging: nat, vram: nat, landed: nat -> set<nat>, copied: nat -> set<nat>,
                         leased: nat -> seq<nat>, preserved: nat -> set<nat>)

  /** A drive that delivers at once. */
  ghost predicate Prompt(w: World, experts: nat) {
    forall l: nat, e: nat :: e < experts ==> e in w.landed(l)
  }

  /** What a drain leaves. */
  function Preserved(residents: seq<set<nat>>, w: World): (r: seq<set<nat>>)
    ensures |r| == |residents| && forall l :: 0 <= l < |r| ==> r[l] == residents[l] * w.preserved(l)
  {
    seq(|residents|, l requires 0 <= l < |residents| => residents[l] * w.preserved(l))
  }

  /** How many of the first `n` experts are not among those a layer has. */
  ghost function Lacking(have: set<nat>, n: nat): nat {
    if n == 0 then 0 else Lacking(have, n - 1) + if n - 1 in have then 0 else 1
  }

  lemma {:induction false} LackingNone(have: set<nat>, n: nat)
    ensures Lacking(have, n) <= n
    ensures Lacking(have, n) == 0 <==> forall e :: 0 <= e < n ==> e in have
  {
    if n > 0 { LackingNone(have, n - 1); }
  }

  ghost predicate AllDone(batches: seq<Batch>) {
    forall id :: 0 <= id < |batches| ==> batches[id].materialized == 1 && batches[id].finished == 1
  }

  ghost predicate NothingLive(batches: seq<Batch>, layer: nat) {
    forall id :: 0 <= id < |batches| && batches[id].layer == layer ==> batches[id].finished > 0
  }

  /** The batch whose bank is held gives it back. */
  function Returned(batches: seq<Batch>, resident: Option<nat>): seq<Batch>
    requires resident.Some? ==> resident.value < |batches|
  {
    if resident.Some? then
      batches[resident.value := batches[resident.value].(finished := batches[resident.value].finished + 1)]
    else batches
  }

  function Materialized(b: Batch, held: bool): Batch {
    b.(pending := {}, materialized := b.materialized + 1, finished := b.finished + if held then 0 else 1)
  }

  function Vacant(layers: nat): (r: seq<set<nat>>)
    ensures |r| == layers
  {
    seq(layers, _ => {})
  }

  /** An idle queue satisfies every queue invariant. */
  lemma EmptyOk(batches: seq<Batch>, residents: seq<set<nat>>, layers: nat, experts: nat)
    requires |residents| == layers && AllDone(batches)
    ensures QueueOk(batches, [], residents, None, 0, layers, experts)
  {
  }

  lemma NoLeases(leases: seq<nat>, outstanding: multiset<nat>)
    requires LeasesOk(leases, outstanding, [])
    ensures leases == [] && outstanding == multiset{}
  {
  }

  lemma FrontierAhead(batches: seq<Batch>, ahead: Queue, next: nat, layers: nat)
    requires Known(batches, ahead) && Beyond(batches, ahead, next, layers)
    ensures next <= Frontier(batches, ahead, next)
  {
  }

  lemma ResidentKnown(batches: seq<Batch>, ahead: Queue, resident: Option<nat>)
    requires Ledger(batches, ahead, resident)
    ensures resident.Some? ==> resident.value < |batches|
  {
  }

  lemma QueuedBelowFrontier(batches: seq<Batch>, ahead: Queue, next: nat, i: nat)
    requires Known(batches, ahead) && Ascending(batches, ahead) && i < |ahead|
    ensures batches[ahead[i]].layer < Frontier(batches, ahead, next)
  {
  }

  lemma {:induction false} MissingSplit(start: seq<set<nat>>, experts: nat, lo: nat, mid: nat, hi: nat)
    requires lo <= mid <= hi
    ensures Missing(start, experts, lo, hi) == Missing(start, experts, lo, mid) + Missing(start, experts, mid, hi)
  {
    if mid < hi { MissingSplit(start, experts, lo, mid, hi - 1); }
  }

  lemma {:induction false} MissingNone(start: seq<set<nat>>, experts: nat, lo: nat, hi: nat)
    requires forall l :: lo <= l < hi ==> Whole(start, l, experts)
    ensures Missing(start, experts, lo, hi) == 0
  {
    if lo < hi { MissingNone(start, experts, lo, hi - 1); }
  }

  /** Up to the frontier, exactly the queued layers lacked something. */
  lemma MissingToFrontier(batches: seq<Batch>, ahead: Queue, start: seq<set<nat>>, next: nat, experts: nat)
    requires Known(batches, ahead) && Gapless(batches, ahead, start, next, experts)
    ensures Missing(start, experts, next, Frontier(batches, ahead, next)) == |ahead|
  {
    if ahead != [] {
      assert !Whole(start, batches[ahead[|ahead| - 1]].layer, experts);
    }
  }

  /** What the layers between the frontier and the scan hold. */
  ghost predicate Passed(residents: seq<set<nat>>, frontier: nat, layer: nat, experts: nat) {
    frontier <= layer && forall l :: frontier <= l < layer ==> Whole(residents, l, experts)
  }

  /** How many layers may be queued: the banks not in use, within the free staging, within the
      configured cap. */
  function Capacity(free: nat, experts: nat, banks: nat, readAheadMax: nat): nat {
    if experts == 0 then 0 else
      Modular.DivNonNegative(free, experts);
      var bound := if free / experts < Depth(banks) then free / experts else Depth(banks);
      if readAheadMax == 0 || bound < readAheadMax then bound else readAheadMax
  }

  /** The capacity is the deepest queue the staging holds whole, the banks leave free and the cap
      allows. */
  lemma CapacityIsDeepest(free: nat, experts: nat, banks: nat, readAheadMax: nat, c: nat)
    requires 0 < experts
    ensures c <= Capacity(free, experts, banks, readAheadMax)
      <==> c * experts <= free && c <= (if banks > 1 then banks - 1 else 1) && (readAheadMax == 0 || c <= readAheadMax)
  {
    Modular.DivNonNegative(free, experts);
    Modular.DivModOf(free, experts);
    var q := free / experts;
    if c <= q {
      Modular.MulSign(q - c, experts);
      assert q * experts == c * experts + (q - c) * experts;
    } else {
      Modular.MulAtLeast(c - q, experts);
      assert c * experts == q * experts + (c - q) * experts;
    }
  }

  /** A pump takes a batch's landed reads off its list. */
  ghost predicate Landed(was: Batch, now: Batch, w: World) {
    now == was.(pending := was.pending - w.landed(was.layer))
  }

  ghost predicate Flying(batches: seq<Batch>, ahead: Queue)
    requires Known(batches, ahead)
  {
    exists i :: 0 <= i < |ahead| && batches[ahead[i]].pending != {}
  }

  /** The lookahead has done all it may: a wave is in flight, the queue is full, or no layer past
      it lacks anything. */
  ghost predicate Saturated(batches: seq<Batch>, ahead: Queue, residents: seq<set<nat>>, next: nat, layers: nat, experts: nat, capacity: nat)
    requires Known(batches, ahead)
  {
    || Flying(batches, ahead)
    || capacity <= |ahead|
    || forall l :: Frontier(batches, ahead, next) <= l < layers ==> Whole(residents, l, experts)
  }

  /** Settling the front batch keeps the queue in order and makes its layer whole. */
  lemma SettleFront(batches: seq<Batch>, ahead: Queue, residents: seq<set<nat>>, resident: Option<nat>,
                    next: nat, layers: nat, experts: nat, held: bool)
    requires ahead != [] && QueueOk(batches, ahead, residents, resident, next, layers, experts)
    ensures var id := ahead[0];
      var b := Materialized(batches[id], held);
      var residents' := residents[b.layer := residents[b.layer] + b.experts];
      && QueueOk(Returned(batches, resident)[id := b], ahead[1..], residents',
                 if held then Some(id) else None, b.layer + 1, layers, experts)
      && Whole(residents', b.layer, experts)
  {
    hide Covers, Ascending, OneWave;
    var id := ahead[0];
    var b := Materialized(batches[id], held);
    var residents' := residents[b.layer := residents[b.layer] + b.experts];
    assert b.materialized == 1 && b.finished == (if held then 0 else 1);
    assert Supplies(batches[id], residents, experts);
    assert Whole(residents', b.layer, experts);
    var batches1 := Returned(batches, resident);
    assert resident.Some? ==> resident.value != id;
    assert batches1[id] == batches[id];
    hide *;
    if resident.Some? { FinishOk(batches, ahead, residents, resident.value, next, layers, experts); }
    PopOk(batches1, ahead, residents, next, layers, experts, b, held);
    var batches2 := batches1[id := b];
    SettlesKeeps(batches2, batches2, ahead[1..], residents, residents', if held then Some(id) else None, b.layer + 1, layers, experts);
  }

  /** Settling the front moves neither the frontier nor what lies past it. */
  lemma FrontFrame(batches: seq<Batch>, ahead: Queue, residents: seq<set<nat>>, start: seq<set<nat>>, resident: Option<nat>,
                   next: nat, layers: nat, experts: nat, held: bool, streamed: int)
    requires ahead != [] && QueueOk(batches, ahead, residents, resident, next, layers, experts)
    requires WindowOk(batches, ahead, residents, start, next, experts, streamed)
    ensures var id := ahead[0];
      var b := Materialized(batches[id], held);
      var residents' := residents[b.layer := residents[b.layer] + b.experts];
      var batches' := Returned(batches, resident)[id := b];
      WindowOk(batches', ahead[1..], residents', start, b.layer + 1, experts, streamed)
      && !Whole(start, b.layer, experts) && ExactBatch(b, start, experts)
  {
    hide Covers, OneWave, AllSupply, Whole, Streamed, Exact, ExactBatch;
    FrontExact(batches, ahead, start, resident, experts, held);
    var id, ahead' := ahead[0], ahead[1..];
    var b := Materialized(batches[id], held);
    var batches' := Returned(batches, resident)[id := b];
    assert forall i {:trigger ahead'[i]} :: 0 <= i < |ahead'| ==> ahead'[i] == ahead[i + 1];
    assert forall i {:trigger batches'[i]} :: 0 <= i < |batches| ==> batches'[i].layer == batches[i].layer;
    QueuedBelowFrontier(batches, ahead, next, 0);
    assert Frontier(batches', ahead', b.layer + 1) == Frontier(batches, ahead, next);
    var residents' := residents[b.layer := residents[b.layer] + b.experts];
    assert Known(batches', ahead');
    assert Untouched(residents', start, Frontier(batches, ahead, next));
    forall i | 0 <= i < |ahead'|
      ensures var l := batches'[ahead'[i]].layer;
        b.layer + 1 <= l && !Whole(start, l, experts) && Missing(start, experts, b.layer + 1, l) == i
    {
      var l := batches[ahead[i + 1]].layer;
      assert ahead'[i] == ahead[i + 1];
      MissingSplit(start, experts, next, b.layer + 1, l);
    }
  }

  lemma FrontExact(batches: seq<Batch>, ahead: Queue, start: seq<set<nat>>, resident: Option<nat>, experts: nat, held: bool)
    requires ahead != [] && Known(batches, ahead) && Exact(batches, ahead, start, experts)
    requires resident.Some? ==> resident.value < |batches|
    ensures var batches' := Returned(batches, resident)[ahead[0] := Materialized(batches[ahead[0]], held)];
      && Known(batches', ahead[1..]) && Exact(batches', ahead[1..], start, experts)
      && ExactBatch(Materialized(batches[ahead[0]], held), start, experts)
  {
    hide Absent;
    var ahead' := ahead[1..];
    assert ExactBatch(batches[ahead[0]], start, experts);
    forall i | 0 <= i < |ahead'|
      ensures ExactBatch(Returned(batches, resident)[ahead[0] := Materialized(batches[ahead[0]], held)][ahead'[i]], start, experts)
    {
      assert ahead'[i] == ahead[i + 1] && ExactBatch(batches[ahead[i + 1]], start, experts);
    }
  }

  /** Settling the front starts no read. */
  lemma FrontFlies(batches: seq<Batch>, ahead: Queue, resident: Option<nat>, held: bool)
    requires ahead != [] && Known(batches, ahead) && (resident.Some? ==> resident.value < |batches|)
    ensures var batches' := Returned(batches, resident)[ahead[0] := Materialized(batches[ahead[0]], held)];
      Known(batches', ahead[1..]) && (!Flying(batches, ahead) ==> !Flying(batches', ahead[1..]))
  {
    var ahead' := ahead[1..];
    assert forall i {:trigger ahead'[i]} :: 0 <= i < |ahead'| ==> ahead'[i] == ahead[i + 1];
  }

  /** All of it together. */
  lemma FrontSettled(batches: seq<Batch>, ahead: Queue, residents: seq<set<nat>>, start: seq<set<nat>>, resident: Option<nat>,
                     next: nat, layers: nat, experts: nat, held: bool, streamed: int)
    requires ahead != [] && QueueOk(batches, ahead, residents, resident, next, layers, experts)
    requires WindowOk(batches, ahead, residents, start, next, experts, streamed)
    ensures Known(batches, ahead) && batches[ahead[0]].layer < layers == |residents|
    ensures resident.Some? ==> resident.value < |batches| && resident.value != ahead[0]
    ensures var id := ahead[0];
      var b := Materialized(batches[id], held);
      var residents' := residents[b.layer := residents[b.layer] + b.experts];
      var batches' := Returned(batches, resident)[id := b];
      && QueueOk(batches', ahead[1..], residents', if held then Some(id) else None, b.layer + 1, layers, experts)
      && WindowOk(batches', ahead[1..], residents', start, b.layer + 1, experts, streamed)
      && Whole(residents', b.layer, experts) && !Whole(start, b.layer, experts)
      && Known(batches', ahead[1..])
      && (!Flying(batches, ahead) ==> !Flying(batches', ahead[1..]))
  {
    hide Covers, OneWave, AllSupply, Ascending, Whole, WindowOk, Based, Flying;
    assert ahead[0] in ahead;
    SettleFront(batches, ahead, residents, resident, next, layers, experts, held);
    FrontFrame(batches, ahead, residents, start, resident, next, layers, experts, held, streamed);
    FrontFlies(batches, ahead, resident, held);
  }

  /** Passing over a whole layer leaves the window as it is. */
  lemma PassFrame(batches: seq<Batch>, ahead: Queue, residents: seq<set<nat>>, start: seq<set<nat>>, next: nat, experts: nat, streamed: int)
    requires WindowOk(batches, ahead, residents, start, next, experts, streamed)
    requires (ahead != [] ==> batches[ahead[0]].layer != next) && Whole(residents, next, experts)
    ensures WindowOk(batches, ahead, residents, start, next + 1, experts, streamed) && Whole(start, next, experts)
  {
    hide Absent, ExactBatch;
    if ahead != [] { MissingSplit(start, experts, next, next + 1, batches[ahead[0]].layer); }
    assert Whole(start, next, experts);
    if next < |start| { LackingNone(start[next], experts); }
    hide Whole, Streamed;
    StreamedNext(start, experts, next);
    forall i | 0 <= i < |ahead|
      ensures var l := batches[ahead[i]].layer;
        next + 1 <= l && !Whole(start, l, experts) && Missing(start, experts, next + 1, l) == i
    {
      var l, l0 := batches[ahead[i]].layer, batches[ahead[0]].layer;
      MissingSplit(start, experts, next, next + 1, l0);
      if l > next { MissingSplit(start, experts, next, next + 1, l); }
    }
  }

  lemma StreamedNext(start: seq<set<nat>>, experts: nat, l: nat)
    ensures Streamed(start, experts, l + 1)
         == Streamed(start, experts, l) + if l < |start| then Lacking(start[l], experts) else 0
  {
  }

  lemma {:induction false} StreamedPassed(start: seq<set<nat>>, experts: nat, f: nat, l: nat)
    requires f <= l && forall k :: f <= k < l ==> Whole(start, k, experts)
    ensures Streamed(start, experts, l) == Streamed(start, experts, f)
  {
    if f < l {
      StreamedPassed(start, experts, f, l - 1);
      assert Whole(start, l - 1, experts);
      LackingNone(start[l - 1], experts);
    }
  }

  /** Loading the layer in hand touches nothing past it. */
  lemma DirectFrame(batches: seq<Batch>, batches': seq<Batch>, residents: seq<set<nat>>, start: seq<set<nat>>,
                    loaded: set<nat>, next: nat, experts: nat, streamed: int)
    requires WindowOk(batches, [], residents, start, next, experts, streamed) && next < |residents|
    ensures residents[next] == start[next] && (Whole(start, next, experts) <==> Whole(residents, next, experts))
    ensures WindowOk(batches', [], residents[next := loaded], start, next + 1, experts,
                     streamed + Lacking(residents[next], experts))
  {
    StreamedNext(start, experts, next);
  }

  /** A queued layer moves the frontier just past itself. */
  lemma PushFrame(batches: seq<Batch>, ahead: Queue, residents: seq<set<nat>>, start: seq<set<nat>>,
                  next: nat, experts: nat, streamed: int, b: Batch)
    requires WindowOk(batches, ahead, residents, start, next, experts, streamed) && next <= Frontier(batches, ahead, next)
    requires Passed(residents, Frontier(batches, ahead, next), b.layer, experts) && b.layer < |residents|
    requires !Whole(residents, b.layer, experts) && ExactBatch(b, residents, experts)
    ensures WindowOk(batches + [b], ahead + [|batches|], residents, start, next, experts,
                     streamed + Lacking(residents[b.layer], experts))
    ensures Frontier(batches + [b], ahead + [|batches|], next) == b.layer + 1
  {
    var f := Frontier(batches, ahead, next);
    MissingToFrontier(batches, ahead, start, next, experts);
    forall l | f <= l < b.layer ensures Whole(start, l, experts) {
      assert Whole(residents, l, experts);
    }
    MissingNone(start, experts, f, b.layer);
    MissingSplit(start, experts, next, f, b.layer);
    assert !Whole(start, b.layer, experts) && residents[b.layer] == start[b.layer];
    StreamedPassed(start, experts, f, b.layer);
    StreamedNext(start, experts, b.layer);
    assert ExactBatch(b, start, experts);
    hide Whole, Streamed, ExactBatch;
    var batches', ahead' := batches + [b], ahead + [|batches|];
    assert forall i :: 0 <= i < |ahead| ==> batches'[ahead'[i]] == batches[ahead[i]];
  }

  /** A layer loaded while nothing is queued. */
  lemma SettleDirect(batches: seq<Batch>, residents: seq<set<nat>>, next: nat, layers: nat, experts: nat, b: Batch, held: bool)
    requires QueueOk(batches, [], residents, None, next, layers, experts)
    requires b.layer == next < layers && b.materialized == 0 && b.finished == 0 && Supplies(b, residents, experts)
    ensures var residents' := residents[next := residents[next] + b.experts];
      && QueueOk(batches + [Materialized(b, held)], [], residents', if held then Some(|batches|) else None, next + 1, layers, experts)
      && Whole(residents', next, experts)
  {
    var residents' := residents[next := residents[next] + b.experts];
    assert Whole(residents', next, experts);
    hide QueueOk;
    DirectOk(batches, residents', next, layers, experts, Materialized(b, held), held) by {
      SettlesKeeps(batches, batches, [], residents, residents', None, next, layers, experts);
    }
  }

  /** With nothing queued and no bank held, every batch is done. */
  lemma EmptyAgain(batches: seq<Batch>, residents: seq<set<nat>>, next: nat, layers: nat, experts: nat)
    requires QueueOk(batches, [], residents, None, next, layers, experts)
    ensures AllDone(batches) && |residents| == layers
  {
  }

  lemma QueuedSupplied(batches: seq<Batch>, ahead: Queue, residents: seq<set<nat>>, next: nat, layers: nat, i: nat)
    requires Known(batches, ahead) && Beyond(batches, ahead, next, layers) && |residents| == layers && i < |ahead|
    ensures next <= batches[ahead[i]].layer < |residents|
  {
  }

  lemma WholeGrows(residents: seq<set<nat>>, residents': seq<set<nat>>, layer: nat, experts: nat)
    requires Whole(residents, layer, experts) && layer < |residents'| && residents[layer] <= residents'[layer]
    ensures Whole(residents', layer, experts)
  {
  }

  /** One queued layer's progress disturbs nothing else. */
  lemma PumpOk(batches: seq<Batch>, batches': seq<Batch>, ahead: Queue, residents: seq<set<nat>>, residents': seq<set<nat>>,
               start: seq<set<nat>>, resident: Option<nat>, next: nat, layers: nat, experts: nat, streamed: int, i: nat)
    requires QueueOk(batches, ahead, residents, resident, next, layers, experts) && i < |ahead|
    requires Settles(batches, batches', residents, residents', 0)
    requires forall l :: 0 <= l < |residents| && l != batches[ahead[i]].layer ==> residents'[l] == residents[l]
    requires WindowOk(batches, ahead, residents, start, next, experts, streamed)
    ensures QueueOk(batches', ahead, residents', resident, next, layers, experts)
    ensures WindowOk(batches', ahead, residents', start, next, experts, streamed)
  {
    hide Covers, OneWave, AllSupply, Beyond, Ledger, Whole, Streamed, Absent;
    SettlesKeeps(batches, batches', ahead, residents, residents', resident, next, layers, experts);
    QueuedBelowFrontier(batches, ahead, next, i);
    assert Frontier(batches', ahead, next) == Frontier(batches, ahead, next);
  }

  /** The layer being retired has no live batch once its bank is back. */
  lemma NothingLiveAfter(batches: seq<Batch>, ahead: Queue, resident: Option<nat>, next: nat, layers: nat, layer: nat)
    requires Known(batches, ahead) && Ledger(batches, ahead, resident) && Beyond(batches, ahead, next, layers)
    requires layer < next
    ensures NothingLive(Returned(batches, resident), layer)
  {
    var batches' := Returned(batches, resident);
    assert forall id :: 0 <= id < |batches| ==> batches'[id].layer == batches[id].layer;
  }

  /** Returning the held bank and releasing a layer behind the queue keeps everything. */
  lemma RetireOk(batches: seq<Batch>, ahead: Queue, residents: seq<set<nat>>, residents': seq<set<nat>>, start: seq<set<nat>>,
                 resident: Option<nat>, next: nat, layers: nat, experts: nat, streamed: int)
    requires QueueOk(batches, ahead, residents, resident, next, layers, experts)
    requires WindowOk(batches, ahead, residents, start, next, experts, streamed)
    requires |residents'| == |residents| && forall l :: next <= l < |residents| ==> residents'[l] == residents[l]
    ensures resident.Some? ==> resident.value < |batches|
    ensures QueueOk(Returned(batches, resident), ahead, residents', None, next, layers, experts)
    ensures WindowOk(Returned(batches, resident), ahead, residents', start, next, experts, streamed)
  {
    hide Covers, OneWave, AllSupply, Ascending, Whole, Streamed, Absent;
    ResidentKnown(batches, ahead, resident);
    var batches' := Returned(batches, resident);
    hide Ledger;
    if resident.Some? { FinishOk(batches, ahead, residents, resident.value, next, layers, experts); }
    SettlesKeeps(batches', batches', ahead, residents, residents', None, next, layers, experts);
    FrontierAhead(batches, ahead, next, layers);
    assert forall id :: 0 <= id < |batches| ==>
      batches'[id].layer == batches[id].layer && batches'[id].experts == batches[id].experts && batches'[id].pending == batches[id].pending;
    assert Frontier(batches', ahead, next) == Frontier(batches, ahead, next);
  }

  lemma ReturnedFlies(batches: seq<Batch>, ahead: Queue, resident: Option<nat>)
    requires Known(batches, ahead) && (resident.Some? ==> resident.value < |batches|)
    ensures Known(Returned(batches, resident), ahead)
    ensures Flying(Returned(batches, resident), ahead) <==> Flying(batches, ahead)
  {
    var batches' := Returned(batches, resident);
    assert forall i :: 0 <= i < |batches| ==> batches'[i].pending == batches[i].pending;
  }

  lemma KnownQueue(batches: seq<Batch>, ahead: Queue, residents: seq<set<nat>>, resident: Option<nat>,
                   next: nat, layers: nat, experts: nat)
    requires QueueOk(batches, ahead, residents, resident, next, layers, experts)
    ensures Known(batches, ahead) && (resident.Some? ==> resident.value < |batches|)
  {
  }

  lemma WindowStarts(batches: seq<Batch>, residents: seq<set<nat>>, experts: nat)
    ensures WindowOk(batches, [], residents, residents, 0, experts, 0)
  {
  }

  class Sweep {
    const layers: nat
    const experts: nat
    const banks: nat
    const vramCapacity: nat
    var readAheadMax: nat

    var active: bool
    var activeLayer: nat
    var ahead: Queue
    var resident: Option<nat>
    var residentLayer: nat
    var leases: seq<nat>
    var layerLoads: nat
    var expertsStreamed: nat
    var layersReleased: nat

    // The supply and the registry.
    var batches: seq<Batch>
    var residents: seq<set<nat>>
    var outstanding: multiset<nat>

    ghost var next: nat
    ghost var inBody: bool
    ghost var start: seq<set<nat>>
    ghost var streamedBefore: nat

    ghost predicate Valid()
      reads this
    {
      && 0 < banks && next <= layers
      && QueueOk(batches, ahead, residents, resident, next, layers, experts)
      && |ahead| <= Depth(banks)
      && LeasesOk(leases, outstanding, ahead)
      && layerLoads == |batches|
      && HeldOk(batches, resident, residentLayer, start, banks, next, experts, inBody)
      && (!active ==> ahead == [] && resident.None? && !inBody)
      && WindowOk(batches, ahead, residents, start, next, experts, expertsStreamed - streamedBefore)
      && Based(batches, banks, experts)
    }

    /** No read of the queue is outstanding. */
    ghost predicate Grounded()
      reads this
    {
      Known(batches, ahead) && !Flying(batches, ahead)
    }

    lemma Shape()
      requires Valid()
      ensures Known(batches, ahead) && |residents| == |start| == layers
    {
    }

    /** Past the last layer, every expert that was lacking has been asked for. */
    lemma AllAsked()
      requires Valid() && next == layers
      ensures expertsStreamed == streamedBefore + Streamed(start, experts, layers)
    {
      hide Covers, AllSupply, OneWave, Ascending, Ledger, Streamed;
    }

    lemma Sizes(layer: nat)
      requires Valid() && layer < layers
      ensures layer < |residents| && Lacking(residents[layer], experts) <= experts && Known(batches, ahead)
    {
      LackingNone(residents[layer], experts);
    }

    /** `configure`: no banks means one. */
    constructor (layers: nat, experts: nat, stagingBanks: nat, vramCapacity: nat)
      ensures Valid() && !active && batches == [] && outstanding == multiset{}
      ensures this.layers == layers && this.experts == experts && this.vramCapacity == vramCapacity
      ensures banks == (if stagingBanks == 0 then 1 else stagingBanks) && readAheadMax == 0
    {
      hide QueueOk, WindowOk, Based;
      this.layers, this.experts, this.vramCapacity := layers, experts, vramCapacity;
      banks := if stagingBanks == 0 then 1 else stagingBanks;
      readAheadMax, active, activeLayer, ahead, resident, residentLayer := 0, false, 0, [], None, 0;
      leases, layerLoads, expertsStreamed, layersReleased, streamedBefore := [], 0, 0, 0, 0;
      batches, outstanding := [], multiset{};
      residents, start := Vacant(layers), Vacant(layers);
      next, inBody := 0, false;
      EmptyOk([], Vacant(layers), layers, experts);
      WindowStarts([], Vacant(layers), experts);
      BasedNone(if stagingBanks == 0 then 1 else stagingBanks, experts);
    }

    // -- Ports --------------------------------------------------------------------------------

    /** Between windows decode loads and evicts as it likes. */
    method Decode(hot: seq<set<nat>>)
      requires Valid() && !active && |hot| == layers
      modifies this`residents, this`next, this`start, this`streamedBefore
      ensures Valid() && residents == hot
    {
      hide QueueOk, WindowOk, Based, AllDone, LeasesOk, Frontier, Whole;
      EmptyAgain(batches, residents, next, layers, experts);
      residents, next, start, streamedBefore := hot, 0, hot, expertsStreamed;
      EmptyOk(batches, residents, layers, experts);
      WindowStarts(batches, residents, experts);
    }

    /** The registry drains some residents; the rest is preserved. */
    method BeginPrefillStream(w: World)
      modifies this`residents
      ensures residents == Preserved(old(residents), w)
    {
      residents := Preserved(residents, w);
    }

    /** The reads are in flight; the registry leases what it has promised. */
    method DispatchLayerStream(layer: nat, missing: set<nat>, base: nat, w: World) returns (id: nat)
      modifies this`batches, this`leases, this`outstanding
      requires multiset(leases) == outstanding
      ensures id == |old(batches)| && batches == old(batches) + [Batch(layer, base, missing, missing - w.landed(layer), 0, 0)]
      ensures multiset(leases) == outstanding && leases == old(leases) + w.leased(layer)
    {
      id := |batches|;
      batches := batches + [Batch(layer, base, missing, missing - w.landed(layer), 0, 0)];
      leases := leases + w.leased(layer);
      outstanding := outstanding + multiset(w.leased(layer));
    }

    /** Some of a batch's reads have landed and some of its experts were copied. */
    method PumpLayerPrefetch(id: nat, w: World)
      requires id < |batches| && batches[id].layer < |residents|
      modifies this`batches, this`residents
      ensures Settles(old(batches), batches, old(residents), residents, 0)
      ensures batches == old(batches)[id := old(batches)[id].(pending := old(batches)[id].pending - w.landed(old(batches)[id].layer))]
      ensures forall l :: 0 <= l < |residents| && l != batches[id].layer ==> residents[l] == old(residents)[l]
    {
      var b := batches[id];
      batches := batches[id := b.(pending := b.pending - w.landed(b.layer))];
      residents := residents[b.layer := residents[b.layer] + (w.copied(b.layer) * (b.experts - batches[id].pending))];
    }

    method MaterializeLayerPrefetch(id: nat)
      requires id < |batches| && batches[id].layer < |residents|
      modifies this`batches, this`residents
      ensures batches == old(batches)[id := Materialized(old(batches)[id], true)]
      ensures residents == old(residents)[batches[id].layer := old(residents)[batches[id].layer] + batches[id].experts]
    {
      var b := batches[id];
      batches := batches[id := b.(pending := {}, materialized := b.materialized + 1)];
      residents := residents[b.layer := residents[b.layer] + b.experts];
    }

    method FinishStreamedBatch(id: nat)
      requires id < |batches|
      modifies this`batches
      ensures batches == Returned(old(batches), Some(id))
    {
      batches := batches[id := batches[id].(finished := batches[id].finished + 1)];
    }

    /** Refuses a layer with a live transfer; else keeps only what is preserved of it. */
    method ReleaseLayer(layer: nat, w: World) returns (ok: bool)
      requires layer < |residents|
      modifies this`residents
      ensures ok <==> NothingLive(batches, layer)
      ensures residents == if ok then old(residents)[layer := old(residents)[layer] * w.preserved(layer)] else old(residents)
    {
      for id := 0 to |batches|
        invariant forall k :: 0 <= k < id && batches[k].layer == layer ==> batches[k].finished > 0
        invariant residents == old(residents)
      {
        if batches[id].layer == layer && batches[id].finished == 0 { return false; }
      }
      residents := residents[layer := residents[layer] * w.preserved(layer)];
      return true;
    }

    /** Give back every lease on the list. */
    method ReleaseLeases()
      requires multiset(leases) == outstanding
      modifies this`outstanding, this`leases
      ensures leases == [] && outstanding == multiset{}
    {
      var i := 0;
      while i < |leases|
        invariant 0 <= i <= |leases| && leases == old(leases)
        invariant outstanding == multiset(leases[i..])
      {
        assert leases[i..] == [leases[i]] + leases[i + 1..];
        outstanding := outstanding - multiset{leases[i]};
        i := i + 1;
      }
      leases := [];
    }

    // -- The lookahead ------------------------------------------------------------------------

    method ReadLookaheadCapacity(free: nat) returns (capacity: nat)
      ensures capacity == Capacity(free, experts, banks, readAheadMax) <= Depth(banks)
    {
      if experts == 0 { return 0; }
      var bankBound := if banks > 1 then banks - 1 else 1;
      var staged := free / experts;
      var bound := if staged < bankBound then staged else bankBound;
      capacity := if readAheadMax == 0 || bound < readAheadMax then bound else readAheadMax;
    }

    method ReadsInFlight() returns (pending: bool)
      requires Known(batches, ahead)
      ensures pending <==> Flying(batches, ahead)
    {
      for i := 0 to |ahead|
        invariant forall j :: 0 <= j < i ==> batches[ahead[j]].pending == {}
      {
        if batches[ahead[i]].pending != {} { return true; }
      }
      return false;
    }

    method ResidentCount(layer: nat) returns (count: nat)
      requires layer < |residents|
      ensures count + Lacking(residents[layer], experts) == experts
      ensures count == experts <==> Whole(residents, layer, experts)
    {
      count := 0;
      for e := 0 to experts
        invariant count + Lacking(residents[layer], e) == e
      {
        if e in residents[layer] { count := count + 1; }
      }
      LackingNone(residents[layer], experts);
    }

    /** Where a layer's bank begins in the arena; with one bank always at its head. */
    method StagingBase(layer: nat) returns (base: nat)
      requires 0 < banks
      ensures base == Bank(layer, banks) * experts
    {
      Modular.DivModOf(layer, banks);
      Modular.MulSign(layer % banks, experts);
      if banks <= 1 { return 0; }
      base := (layer % banks) * experts;
    }

    /** Issue one layer's reads for exactly what it lacks; nothing at all when it lacks nothing. */
    method DispatchLayerInto(layer: nat, w: World) returns (dispatched: bool)
      requires 0 < banks && layer < |residents| && multiset(leases) == outstanding && layerLoads == |batches|
      modifies this`batches, this`leases, this`outstanding, this`layerLoads, this`expertsStreamed
      ensures multiset(leases) == outstanding && layerLoads == |batches|
      ensures dispatched <==> !Whole(residents, layer, experts)
      ensures expertsStreamed == old(expertsStreamed) + Lacking(residents[layer], experts)
      ensures !dispatched ==> batches == old(batches) && leases == old(leases)
      ensures dispatched ==>
        && |batches| == |old(batches)| + 1 && batches[..|old(batches)|] == old(batches)
        && batches[|old(batches)|].layer == layer && batches[|old(batches)|].base == Bank(layer, banks) * experts
        && batches[|old(batches)|].materialized == 0 && batches[|old(batches)|].finished == 0
        && Supplies(batches[|old(batches)|], residents, experts) && ExactBatch(batches[|old(batches)|], residents, experts)
        && (Prompt(w, experts) ==> batches[|old(batches)|].pending == {})
    {
      var missing: set<nat> := {};
      for e := 0 to experts
        invariant forall k :: k in missing <==> 0 <= k < e && k !in residents[layer]
      {
        if e !in residents[layer] { missing := missing + {e}; }
      }
      assert missing == Absent(residents[layer], experts);
      AbsentSize(residents[layer], experts);
      if missing == {} { return false; }
      var k :| k in missing;
      var base := StagingBase(layer);
      var id := DispatchLayerStream(layer, missing, base, w);
      layerLoads := layerLoads + 1;
      expertsStreamed := expertsStreamed + |missing|;
      return true;
    }

    /** Put one more layer, the first that lacks something, at the queue's tail. */
    method QueueLayer(layer: nat, w: World)
      requires Valid() && active && layer < layers && |ahead| < Depth(banks)
      requires !Whole(residents, layer, experts)
      requires Passed(residents, Frontier(batches, ahead, next), layer, experts)
      requires !Flying(batches, ahead)
      modifies this`ahead, this`batches, this`leases, this`outstanding, this`layerLoads, this`expertsStreamed
      ensures Valid() && |ahead| == |old(ahead)| + 1 && old(ahead) <= ahead
      ensures Frontier(batches, ahead, next) == layer + 1
      ensures |old(batches)| <= |batches| && batches[..|old(batches)|] == old(batches)
      ensures Prompt(w, experts) ==> !Flying(batches, ahead)
    {
      hide Covers, Ledger, AllSupply, Ascending, OneWave, Whole, WindowOk, Based, Supplies, Prompt;
      var batches0, ahead0 := batches, ahead;
      ghost var streamed := expertsStreamed - streamedBefore;
      FrontierAhead(batches, ahead, next, layers);
      ResidentKnown(batches, ahead, resident);
      var dispatched := DispatchLayerInto(layer, w);
      ahead := ahead + [|batches| - 1];
      var b := batches[|batches0|];
      assert batches == batches0 + [b];
      PushOk(batches0, ahead0, residents, resident, next, layers, experts, b);
      PushFrame(batches0, ahead0, residents, start, next, experts, streamed, b);
      BasedPush(batches0, b, banks, experts);
      assert forall i :: 0 <= i < |ahead0| ==> batches[ahead[i]] == batches0[ahead0[i]];
      hide QueueOk;
    }

    /** Queue further layers, one read wave at a time. */
    method DispatchAhead(from: nat, w: World)
      requires Valid() && active
      requires from == next || from == Frontier(batches, ahead, next)
      modifies this`ahead, this`batches, this`leases, this`outstanding, this`layerLoads, this`expertsStreamed
      ensures Valid()
      ensures |old(batches)| <= |batches| && batches[..|old(batches)|] == old(batches) && old(ahead) <= ahead
      ensures Saturated(batches, ahead, residents, next, layers, experts, Capacity(w.staging, experts, banks, readAheadMax))
      ensures Flying(old(batches), old(ahead)) ==> ahead == old(ahead)
      ensures Prompt(w, experts) && !Flying(old(batches), old(ahead)) ==> !Flying(batches, ahead)
    {
      hide Covers, Ledger, AllSupply, Ascending, OneWave, Whole, WindowOk, Based, HeldOk, LeasesOk, Capacity, Prompt;
      FrontierAhead(batches, ahead, next, layers);
      hide Beyond;
      if from >= layers { return; }
      var busy := ReadsInFlight();
      if busy { return; }
      var capacity := ReadLookaheadCapacity(w.staging);
      if capacity <= |ahead| { return; }
      var budget := capacity - |ahead|;
      var layer := if ahead == [] || from > batches[ahead[|ahead| - 1]].layer + 1 then from
                   else batches[ahead[|ahead| - 1]].layer + 1;
      PlanFrom(layer, budget, w);
    }

    /** Walk the layers from the frontier: pass over whole ones, queue the others, and stop at the
        first wave that is in flight. */
    method PlanFrom(from: nat, room: nat, w: World)
      requires Valid() && active && from == Frontier(batches, ahead, next)
      requires !Flying(batches, ahead) && |ahead| + room <= Depth(banks)
      modifies this`ahead, this`batches, this`leases, this`outstanding, this`layerLoads, this`expertsStreamed
      ensures Valid()
      ensures |old(batches)| <= |batches| && batches[..|old(batches)|] == old(batches) && old(ahead) <= ahead
      ensures Saturated(batches, ahead, residents, next, layers, experts, |old(ahead)| + room)
      ensures Prompt(w, experts) ==> !Flying(batches, ahead)
    {
      hide Covers, Ledger, AllSupply, Ascending, OneWave, Beyond, Whole, WindowOk, Based, HeldOk, LeasesOk, Flying, Prompt;
      var layer, budget := from, room;
      while budget > 0 && layer < layers
        invariant Valid() && active
        invariant |ahead| + budget == |old(ahead)| + room && old(ahead) <= ahead
        invariant Passed(residents, Frontier(batches, ahead, next), layer, experts)
        invariant !Flying(batches, ahead)
        invariant |old(batches)| <= |batches| && batches[..|old(batches)|] == old(batches)
        decreases layers - layer
      {
        var count := ResidentCount(layer);
        if count == experts {
          layer := layer + 1;
          continue;
        }
        QueueLayer(layer, w);
        budget := budget - 1;
        var more := ReadsInFlight();
        if more { break; }
        layer := layer + 1;
      }
    }

    method AdvanceReads(w: World)
      requires Valid() && (active ==> inBody && activeLayer + 1 == next)
      modifies this`ahead, this`batches, this`leases, this`outstanding, this`layerLoads, this`expertsStreamed
      ensures Valid()
      ensures |old(batches)| <= |batches| && batches[..|old(batches)|] == old(batches) && old(ahead) <= ahead
      ensures active ==> Saturated(batches, ahead, residents, next, layers, experts, Capacity(w.staging, experts, banks, readAheadMax))
    {
      hide Saturated, Capacity, WindowOk, Based, LeasesOk, HeldOk, Covers, Ledger, AllSupply, Ascending, OneWave;
      if !active { return; }
      var from := if ahead == [] then activeLayer + 1 else batches[ahead[|ahead| - 1]].layer + 1;
      DispatchAhead(from, w);
    }

    // -- One layer's bank ---------------------------------------------------------------------

    /** Hand the resident layer's bank back, if one is held. */
    method ReclaimResident()
      requires resident.Some? ==> resident.value < |batches|
      modifies this`batches, this`resident
      ensures resident.None? && batches == Returned(old(batches), old(resident))
    {
      if resident.None? { return; }
      FinishStreamedBatch(resident.value);
      resident := None;
    }

    /** Settle one batch: hold its bank when there is a second one, else return it at once,
        and drop every lease taken so far. */
    method MaterializeEntry(id: nat)
      requires 0 < banks && multiset(leases) == outstanding
      requires resident.Some? ==> resident.value < |batches| && resident.value != id
      requires id < |batches| && batches[id].layer < |residents|
      modifies this`batches, this`residents, this`resident, this`residentLayer, this`leases, this`outstanding
      ensures batches == Returned(old(batches), old(resident))[id := Materialized(old(batches)[id], banks > 1)]
      ensures residents == old(residents)[batches[id].layer := old(residents)[batches[id].layer] + batches[id].experts]
      ensures leases == [] && outstanding == multiset{}
      ensures if banks > 1 then resident == Some(id) && residentLayer == batches[id].layer else resident == None
    {
      ReclaimResident();
      MaterializeLayerPrefetch(id);
      if banks <= 1 {
        FinishStreamedBatch(id);
      }
      ReleaseLeases();
      if banks > 1 {
        resident, residentLayer := Some(id), batches[id].layer;
      }
    }

    /** The queue's front becomes the layer in hand, and is whole. */
    method MaterializeFront()
      requires Valid() && active && ahead != []
      modifies this`ahead, this`batches, this`residents, this`resident, this`residentLayer, this`leases,
               this`outstanding, this`next, this`inBody
      ensures Valid() && inBody && next == old(batches[ahead[0]].layer) + 1 && ahead == old(ahead)[1..]
      ensures Whole(residents, next - 1, experts) && |batches| == |old(batches)| && (resident.Some? <==> banks > 1)
      ensures !Flying(old(batches), old(ahead)) ==> !Flying(batches, ahead)
    {
      hide QueueOk, Whole, WindowOk, Based, Flying;
      var id := ahead[0];
      FrontSettled(batches, ahead, residents, start, resident, next, layers, experts, banks > 1, expertsStreamed - streamedBefore);
      ahead := ahead[1..];
      ghost var batches0 := batches;
      MaterializeEntry(id);
      BasedKept(batches0, batches, banks, experts);
      next, inBody := batches[id].layer + 1, true;
    }

    /** Load the layer in hand while nothing is queued. */
    method LoadLayer(layer: nat, w: World)
      requires Valid() && active && !inBody && layer == next < layers && ahead == []
      requires !Whole(residents, layer, experts)
      modifies this`batches, this`residents, this`resident, this`residentLayer, this`leases,
               this`outstanding, this`next, this`inBody, this`layerLoads, this`expertsStreamed
      ensures Valid() && inBody && next == layer + 1 && Whole(residents, layer, experts) && (resident.Some? <==> banks > 1)
      ensures |batches| >= |old(batches)|
    {
      hide Covers, AllSupply, OneWave, Ascending, Ledger, Beyond, Whole, WindowOk, Based, Supplies;
      ghost var batches0, residents0, streamed := batches, residents, expertsStreamed - streamedBefore;
      var dispatched := DispatchLayerInto(layer, w);
      var id := |batches| - 1;
      ghost var b := batches[id];
      SettleDirect(batches0, residents, next, layers, experts, b, banks > 1);
      assert batches == batches0 + [b];
      MaterializeEntry(id);
      assert batches == batches0 + [Materialized(b, banks > 1)];
      BasedPush(batches0, Materialized(b, banks > 1), banks, experts);
      assert residents == residents0[layer := residents0[layer] + b.experts];
      DirectFrame(batches0, batches, residents0, start, residents[layer], next, experts, streamed);
      next, inBody := next + 1, true;
      hide QueueOk;
    }

    /** Load what the layer lacks and wait for it; refused when the pool has fewer free slots. */
    method EnsureLayer(layer: nat, w: World) returns (ok: bool)
      requires Valid() && active && !inBody && layer == next < layers
      requires ahead != [] ==> batches[ahead[0]].layer != next
      modifies this`batches, this`residents, this`resident, this`residentLayer, this`leases,
               this`outstanding, this`next, this`inBody, this`layerLoads, this`expertsStreamed
      ensures Valid()
      ensures ok <==> Lacking(old(residents)[layer], experts) <= w.vram
      ensures ok ==> inBody && next == layer + 1 && Whole(residents, layer, experts)
      ensures ok ==> (resident.Some? <==> banks > 1 && !Whole(start, layer, experts))
      ensures !ok ==> next == layer && !inBody && batches == old(batches) && residents == old(residents)
      ensures |batches| >= |old(batches)|
      ensures ahead != [] ==> batches == old(batches)
    {
      hide Covers, AllSupply, OneWave, Ascending, Ledger, Beyond, Whole, WindowOk, Based;
      PassOk(batches, ahead, residents, resident, next, layers, experts);
      var count := ResidentCount(layer);
      var missing := experts - count;
      if missing == 0 {
        PassFrame(batches, ahead, residents, start, next, experts, expertsStreamed - streamedBefore);
        next, inBody := next + 1, true;
        return true;
      }
      if w.vram < missing { return false; }
      LoadLayer(layer, w);
      return true;
    }

    // -- The window ---------------------------------------------------------------------------

    /** Drain the pool: an idle sweep starts its window at layer 0. */
    method Open(w: World)
      requires Valid() && !active
      modifies this`active, this`residents, this`next, this`inBody, this`start, this`streamedBefore
      ensures streamedBefore == expertsStreamed
      ensures Valid() && active && next == 0 && !inBody && start == residents == Preserved(old(residents), w)
    {
      hide QueueOk, WindowOk, Based, AllDone, LeasesOk, Frontier, Whole;
      EmptyAgain(batches, residents, next, layers, experts);
      BeginPrefillStream(w);
      active := true;
      next, inBody, start, streamedBefore := 0, false, residents, expertsStreamed;
      EmptyOk(batches, residents, layers, experts);
      WindowStarts(batches, residents, experts);
    }

    /** Drain the pool and issue the first reads; refused when a layer cannot fit. */
    method Begin(w: World) returns (ok: bool)
      requires Valid()
      modifies this`active, this`residents, this`next, this`inBody, this`start, this`streamedBefore,
               this`ahead, this`batches, this`leases, this`outstanding, this`layerLoads, this`expertsStreamed
      ensures Valid() && readAheadMax == old(readAheadMax)
      ensures ok <==> old(active) || vramCapacity >= experts
      ensures ok && !old(active) ==> active && next == 0 && !inBody && start == residents == Preserved(old(residents), w)
      ensures ok && !old(active) ==> streamedBefore == old(expertsStreamed)
      ensures ok && !old(active) && Prompt(w, experts) ==> !Flying(batches, ahead)
      ensures ok && !old(active) ==>
        Saturated(batches, ahead, residents, next, layers, experts, Capacity(w.staging, experts, banks, readAheadMax))
    {
      hide QueueOk, WindowOk, Based, AllDone, LeasesOk, Frontier, Saturated, Capacity, Prompt;
      if active { return true; }
      if vramCapacity < experts { return false; }
      Open(w);
      DispatchAhead(0, w);
      return true;
    }

    /** The layer in hand, from the front of the queue or loaded now. */
    method TakeLayer(layer: nat, w: World) returns (ok: bool)
      requires Valid() && active && !inBody && layer == next < layers
      modifies this`ahead, this`batches, this`residents, this`resident, this`residentLayer, this`leases,
               this`outstanding, this`next, this`inBody, this`layerLoads, this`expertsStreamed
      ensures Valid()
      ensures ok <==> (old(ahead) != [] && old(batches[ahead[0]].layer) == layer) || Lacking(old(residents)[layer], experts) <= w.vram
      ensures ok ==> inBody && next == layer + 1 && Whole(residents, layer, experts)
      ensures ok ==> (resident.Some? <==> banks > 1 && !Whole(start, layer, experts))
      ensures ok && !Flying(old(batches), old(ahead)) ==> !Flying(batches, ahead)
      ensures !ok ==> !inBody && next == layer
    {
      hide Covers, AllSupply, OneWave, Ascending, Ledger, Beyond, Whole, WindowOk, Based, LeasesOk, Lacking;
      if ahead != [] && batches[ahead[0]].layer == layer {
        MaterializeFront();
        return true;
      }
      ok := EnsureLayer(layer, w);
    }

    /** The layer about to compute is whole, and the next reads are in flight behind it. */
    method BeforeLayer(layer: nat, w: World) returns (ok: bool)
      requires Valid() && (active ==> !inBody && layer == next < layers)
      modifies this
      ensures Valid() && active == old(active) && layersReleased == old(layersReleased) && start == old(start) && streamedBefore == old(streamedBefore)
      ensures !old(active) ==> ok
      ensures active ==>
        (ok <==> (old(ahead) != [] && old(batches[ahead[0]].layer) == layer) || Lacking(old(residents)[layer], experts) <= w.vram)
      ensures active && ok ==> (resident.Some? <==> banks > 1 && !Whole(start, layer, experts))
      ensures active && ok && Prompt(w, experts) && !Flying(old(batches), old(ahead)) ==> !Flying(batches, ahead)
      ensures active && ok ==> inBody && activeLayer + 1 == next == layer + 1 && Whole(residents, layer, experts)
      ensures active && !ok ==> !inBody && next == layer
      ensures readAheadMax == old(readAheadMax)
      ensures active && ok ==>
        Saturated(batches, ahead, residents, next, layers, experts, Capacity(w.staging, experts, banks, readAheadMax))
    {
      hide Covers, AllSupply, OneWave, Ascending, Ledger, Beyond, Whole, WindowOk, Based, LeasesOk, HeldOk, Saturated, Capacity, Prompt, Lacking, Flying;
      if !active { return true; }
      activeLayer := layer;
      ok := TakeLayer(layer, w);
      if !ok { return; }
      DispatchAhead(layer + 1, w);
      return true;
    }

    /** Let every queued layer's reads settle. */
    method PumpQueue(w: World)
      requires Valid() && active && inBody && activeLayer + 1 == next && Whole(residents, activeLayer, experts)
      modifies this`batches, this`residents
      ensures Valid() && Whole(residents, activeLayer, experts) && |batches| == |old(batches)| && Known(old(batches), ahead)
      ensures forall i :: 0 <= i < |ahead| ==> Landed(old(batches)[ahead[i]], batches[ahead[i]], w)
    {
      hide Covers, AllSupply, OneWave, Ledger, Beyond, Whole, WindowOk, Based, LeasesOk;
      for i := 0 to |ahead|
        invariant Valid() && Whole(residents, activeLayer, experts) && |batches| == |old(batches)|
        invariant forall k :: 0 <= k < i ==> Landed(old(batches)[ahead[k]], batches[ahead[k]], w)
        invariant forall k :: i <= k < |ahead| ==> batches[ahead[k]] == old(batches)[ahead[k]]
      {
        ghost var batches0, residents0 := batches, residents;
        QueuedSupplied(batches, ahead, residents, next, layers, i);
        PumpLayerPrefetch(ahead[i], w);
        PumpOk(batches0, batches, ahead, residents0, residents, start, resident, next, layers, experts, expertsStreamed - streamedBefore, i);
        WholeGrows(residents0, residents, activeLayer, experts);
        BasedKept(batches0, batches, banks, experts);
      }
    }

    /** Let every queued layer's reads settle, then issue the next wave. */
    method Pump(w: World)
      requires Valid() && (active ==> inBody && activeLayer + 1 == next && Whole(residents, activeLayer, experts))
      modifies this`batches, this`residents, this`ahead, this`leases, this`outstanding, this`layerLoads, this`expertsStreamed
      ensures Valid()
      ensures active ==> Whole(residents, activeLayer, experts)
      ensures active ==>
        Saturated(batches, ahead, residents, next, layers, experts, Capacity(w.staging, experts, banks, readAheadMax))
      ensures active ==>
        && |old(batches)| <= |batches| && Known(old(batches), old(ahead))
        && forall i :: 0 <= i < |old(ahead)| ==> Landed(old(batches)[old(ahead)[i]], batches[old(ahead)[i]], w)
    {
      hide QueueOk, Whole, WindowOk, Based, LeasesOk, HeldOk, Saturated, Capacity, Landed;
      if !active { return; }
      PumpQueue(w);
      AdvanceReads(w);
    }

    /** Return the held bank, then ask the registry to release a layer. A layer behind the queue
        is always released; another one is unless it has a live transfer. */
    method Retire(layer: nat, w: World) returns (ok: bool)
      requires Valid() && active && layer < layers && (resident.Some? ==> residentLayer == layer)
      modifies this`batches, this`resident, this`residents, this`inBody
      ensures batches == Returned(old(batches), old(resident)) && resident.None?
      ensures ok <==> NothingLive(batches, layer)
      ensures residents == if ok then old(residents)[layer := old(residents)[layer] * w.preserved(layer)] else old(residents)
      ensures inBody == (old(inBody) && layer + 1 != next)
      ensures layer < next ==> ok
      ensures layer < next || !ok ==> Valid()
    {
      hide Covers, AllSupply, OneWave, Ascending, WindowOk, Based, LeasesOk;
      ghost var batches0, resident0, residents0 := batches, resident, residents;
      if layer < next { NothingLiveAfter(batches, ahead, resident, next, layers, layer); }
      ReclaimResident();
      BasedKept(batches0, batches, banks, experts);
      ok := ReleaseLayer(layer, w);
      hide Ledger, Beyond, QueueOk, Returned, NothingLive;
      if layer < next || !ok { RetireOk(batches0, ahead, residents0, residents, start, resident0, next, layers, experts, expertsStreamed - streamedBefore); }
      inBody := inBody && layer + 1 != next;
    }

    /** Retire one layer. With a bank held, any layer but its own is refused. With none held the
        source does not notice a wrong layer: whatever layer is named is released, unless it has a
        live transfer. */
    method AfterLayer(layer: nat, w: World) returns (ok: bool)
      requires Valid() && (active ==> inBody && activeLayer + 1 == next && layer < layers)
      modifies this`batches, this`resident, this`residents, this`inBody, this`layersReleased
      ensures !active ==> ok && Valid()
      ensures active ==>
        (ok <==> if old(resident).Some? then layer + 1 == next else NothingLive(old(batches), layer))
      ensures active && layer + 1 == next ==> ok && !inBody
      ensures active && ok ==>
        && resident.None? && layersReleased == old(layersReleased) + 1
        && batches == Returned(old(batches), old(resident))
        && residents == old(residents)[layer := old(residents)[layer] * w.preserved(layer)]
        && (layer < next ==> Valid())
        && (!Flying(old(batches), ahead) ==> !Flying(batches, ahead))
      ensures !ok ==>
        Valid() && batches == old(batches) && residents == old(residents) && layersReleased == old(layersReleased)
    {
      hide QueueOk, WindowOk, Based, LeasesOk, NothingLive;
      if !active { return true; }
      if resident.Some? && residentLayer != layer { return false; }
      KnownQueue(batches, ahead, residents, resident, next, layers, experts);
      ReturnedFlies(batches, ahead, resident);
      ok := Retire(layer, w);
      if !ok { return; }
      layersReleased := layersReleased + 1;
    }

    /** With the queue empty, return a bank still held and leave the mode. */
    method Leave()
      requires Valid() && active && ahead == []
      modifies this`active, this`resident, this`inBody, this`batches, this`leases
      ensures Valid() && !active && resident.None? && AllDone(batches) && leases == [] && outstanding == multiset{}
    {
      hide QueueOk, WindowOk, Based, AllDone, LeasesOk;
      RetireOk(batches, [], residents, residents, start, resident, next, layers, experts, expertsStreamed - streamedBefore);
      ghost var batches0 := batches;
      ReclaimResident();
      BasedKept(batches0, batches, banks, experts);
      NoLeases(leases, outstanding);
      active, leases, inBody := false, [], false;
      EmptyAgain(batches, residents, next, layers, experts);
    }

    /** Settle and retire everything still queued, and leave the mode. */
    method End(w: World)
      requires Valid()
      modifies this`active, this`residents, this`resident, this`residentLayer, this`next, this`inBody,
               this`ahead, this`batches, this`leases, this`outstanding
      ensures Valid() && !active && ahead == [] && resident.None?
      ensures old(active) ==> AllDone(batches) && leases == [] && outstanding == multiset{}
    {
      hide Covers, AllSupply, OneWave, Ascending, Ledger, Beyond, WindowOk, Based, AllDone, Whole, LeasesOk;
      if !active { return; }
      while ahead != []
        invariant Valid() && active
        decreases |ahead|
      {
        var layer := batches[ahead[0]].layer;
        MaterializeFront();
        var released := Retire(layer, w);
      }
      Leave();
    }
  }

  /** One layer of a window: before, any number of pumps, after. The world of each call is
      arbitrary: `world(layer, 0)` before it, then one per pump, then one after. */
  method RunLayer(s: Sweep, layer: nat, pumps: nat, world: (nat, nat) -> World) returns (ok: bool)
    requires s.Valid() && s.active && !s.inBody && s.next == layer < s.layers
    modifies s
    ensures s.Valid() && s.start == old(s.start) && s.streamedBefore == old(s.streamedBefore)
    ensures ok ==> s.active && !s.inBody && s.next == layer + 1 && s.layersReleased == old(s.layersReleased) + 1
    ensures s.experts <= world(layer, 0).vram ==> ok
  {
    hide QueueOk, WindowOk, Based, LeasesOk, HeldOk, Whole, Saturated, Capacity, Lacking, NothingLive, Flying, Prompt, Landed;
    s.Sizes(layer);
    ok := s.BeforeLayer(layer, world(layer, 0));
    if !ok { return; }
    for i := 0 to pumps
      invariant s.Valid() && s.active && s.inBody && s.activeLayer == layer && layer + 1 == s.next
      invariant Whole(s.residents, layer, s.experts) && s.layersReleased == old(s.layersReleased)
      invariant s.start == old(s.start) && s.streamedBefore == old(s.streamedBefore)
    {
      s.Pump(world(layer, i + 1));
    }
    ok := s.AfterLayer(layer, world(layer, pumps + 1));
  }

  /** One whole window: every layer is whole when its body runs, every expert a layer lacked at
      the start is read exactly once and no other, and when the window closes every batch ever
      dispatched was materialized once, its bank finished once, and every lease is back. Only a
      pool without room can stop it. */
  method RunWindow(s: Sweep, pumps: seq<nat>, world: (nat, nat) -> World) returns (ok: bool)
    requires s.Valid() && !s.active && |pumps| == s.layers
    modifies s
    ensures s.Valid()
    ensures ok ==>
      && !s.active && s.ahead == [] && s.resident.None?
      && AllDone(s.batches) && s.leases == [] && s.outstanding == multiset{}
      && s.layersReleased == old(s.layersReleased) + s.layers
      && s.expertsStreamed == old(s.expertsStreamed)
           + Streamed(Preserved(old(s.residents), world(s.layers, 0)), s.experts, s.layers)
    ensures s.vramCapacity < s.experts ==> !ok
    ensures s.experts <= s.vramCapacity && (forall l, k :: s.experts <= world(l, k).vram) ==> ok
  {
    hide QueueOk, WindowOk, Based, LeasesOk, HeldOk, Whole, Saturated, Capacity, Streamed, AllDone, Flying, Prompt, Preserved;
    ok := s.Begin(world(s.layers, 0));
    if !ok { return; }
    ghost var begun := s.start;
    for layer := 0 to s.layers
      invariant s.Valid() && s.active && !s.inBody && s.next == layer
      invariant s.layersReleased == old(s.layersReleased) + layer
      invariant s.start == begun && s.streamedBefore == old(s.expertsStreamed)
    {
      ok := RunLayer(s, layer, pumps[layer], world);
      if !ok { return; }
    }
    s.AllAsked();
    s.End(world(s.layers, 1));
    return true;
  }
}
