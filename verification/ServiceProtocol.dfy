/** The conversation service as a protocol: HTTP threads, one worker and shutdown, each
    step one locked section, one atomic or one stream operation. */
module ServiceProtocol {
  import opened Wrappers

  type JobId = nat

  datatype Phase = Loading | Ready | Stopping

  datatype Event = Delta | Finished | Failed {
    predicate IsTerminal() {
      !Delta?
    }
  }

  /** Where the worker thread is. From `Taken` to `Recording` it holds one job. */
  datatype Worker =
    | Starting
    | Idle
    | Taken(job: JobId)
    | Skipping(job: JobId)
    | Running(job: JobId)
    | Closing(job: JobId)
    | Recording(job: JobId)
    | Exiting
    | Draining
    | Done

  datatype State = State(
    maxQueue: nat,
    phase: Phase,
    running: bool,
    queue: seq<JobId>,
    nextId: JobId,
    live: Option<JobId>,
    cancelled: set<JobId>,
    events: map<JobId, seq<Event>>,
    closed: set<JobId>,
    worker: Worker,
    // Jobs swapped out of the queue: terminal event still to push, and to close.
    doomed: set<JobId>,
    dying: set<JobId>,
    // Those of them the worker swapped out itself: it stores Stopping only after closing them.
    leftover: set<JobId>,
    // History.
    started: seq<JobId>,
    engineRuns: seq<JobId>,
    skipped: set<JobId>,
    swapped: bool,
    early: bool)
  {
    predicate Accepted(job: JobId) {
      job in events
    }
  }

  function Init(maxQueue: nat): State {
    State(maxQueue, Loading, true, [], 1, None, {}, map[], {}, Starting, {}, {}, {}, [], [], {}, false, false)
  }

  datatype Step =
    | Submit
    | Cancel(job: JobId)
    | Publish
    | Take
    | Break
    | CheckCancel
    | PushDelta
    | PushSkipped
    | PushResult(failed: bool)
    | CloseStream
    | Record
    | FinalSwap
    | StoreStopping
    | Shutdown
    | DrainPush(job: JobId)
    | DrainClose(job: JobId)

  predicate Enabled(s: State, step: Step) {
    match step
    case Submit => s.phase == Ready && |s.queue| < s.maxQueue
    case Cancel(job) => s.Accepted(job)
    case Publish => s.worker == Starting
    case Take => s.worker == Idle && s.running && s.queue != []
    case Break => s.worker == Idle && !s.running
    case CheckCancel => s.worker.Taken?
    case PushDelta => s.worker.Running? && s.Accepted(s.worker.job)
    case PushSkipped => s.worker.Skipping? && s.Accepted(s.worker.job)
    case PushResult(_) => s.worker.Running? && s.Accepted(s.worker.job)
    case CloseStream => s.worker.Closing?
    case Record => s.worker.Recording?
    case FinalSwap => s.worker == Exiting
    case StoreStopping => s.worker == Draining && s.leftover <= s.closed
    case Shutdown => true
    case DrainPush(job) => job in s.doomed && s.Accepted(job)
    case DrainClose(job) => job in s.dying
  }

  function Push(s: State, job: JobId, e: Event): State
    requires s.Accepted(job)
  {
    s.(events := s.events[job := s.events[job] + [e]])
  }

  function SetOf(queue: seq<JobId>): set<JobId> {
    set job | job in queue
  }

  /** Shutdown's locked section. */
  function Stop(s: State): State {
    s.(doomed := s.doomed + SetOf(s.queue), queue := [], running := false, phase := Stopping,
       cancelled := if s.live.Some? then s.cancelled + {s.live.value} else s.cancelled,
       early := s.early || s.worker == Starting)
  }

  function Apply(s: State, step: Step): State
    requires Enabled(s, step)
  {
    match step
    case Submit =>
      s.(queue := s.queue + [s.nextId], events := s.events[s.nextId := []], nextId := s.nextId + 1)
    case Cancel(job) => s.(cancelled := s.cancelled + {job})
    case Publish => s.(phase := Ready, worker := Idle)
    case Take =>
      var job := s.queue[0];
      s.(queue := s.queue[1..], live := Some(job), worker := Taken(job), started := s.started + [job])
    case Break => s.(worker := Exiting)
    case CheckCancel =>
      var job := s.worker.job;
      if job in s.cancelled then s.(worker := Skipping(job), skipped := s.skipped + {job})
      else s.(worker := Running(job), engineRuns := s.engineRuns + [job])
    case PushDelta => Push(s, s.worker.job, Delta)
    case PushSkipped => Push(s, s.worker.job, Finished).(worker := Closing(s.worker.job))
    case PushResult(failed) =>
      Push(s, s.worker.job, if failed then Failed else Finished).(worker := Closing(s.worker.job))
    case CloseStream => s.(closed := s.closed + {s.worker.job}, worker := Recording(s.worker.job))
    case Record => s.(live := None, worker := Idle)
    case FinalSwap => s.(doomed := s.doomed + SetOf(s.queue), queue := [], leftover := SetOf(s.queue),
                           worker := Draining, swapped := true)
    case StoreStopping => s.(phase := Stopping, worker := Done)
    case Shutdown => Stop(s)
    case DrainPush(job) => Push(s, job, Finished).(doomed := s.doomed - {job}, dying := s.dying + {job})
    case DrainClose(job) => s.(closed := s.closed + {job}, dying := s.dying - {job})
  }

  /** A run: every step enabled where it is taken. */
  ghost predicate Feasible(s: State, steps: seq<Step>)
    decreases |steps|
  {
    steps == [] || (Enabled(s, steps[0]) && Feasible(Apply(s, steps[0]), steps[1..]))
  }

  ghost function After(s: State, steps: seq<Step>): State
    requires Feasible(s, steps)
    decreases |steps|
  {
    if steps == [] then s else After(Apply(s, steps[0]), steps[1..])
  }

  // -- Where a job is -----------------------------------------------------------------------

  function HeldJob(w: Worker): Option<JobId> {
    if w.Taken? || w.Skipping? || w.Running? || w.Closing? || w.Recording? then Some(w.job) else None
  }

  predicate Held(w: Worker, job: JobId) {
    HeldJob(w) == Some(job)
  }

  ghost predicate NoTerminal(es: seq<Event>) {
    forall i :: 0 <= i < |es| ==> !es[i].IsTerminal()
  }

  /** Exactly one terminal event, and it is the last. */
  ghost predicate EndsOnce(es: seq<Event>) {
    es != [] && es[|es| - 1].IsTerminal() && NoTerminal(es[..|es| - 1])
  }

  ghost predicate Ascending(ids: seq<JobId>) {
    forall i, j :: 0 <= i < j < |ids| ==> ids[i] < ids[j]
  }

  /** A job's events and closure match its place; every accepted job has one place. */
  ghost predicate Placed(s: State, job: JobId)
    requires s.Accepted(job)
  {
    var es := s.events[job];
    if job in s.queue then
      es == [] && job !in s.closed && job !in s.doomed && job !in s.dying && !Held(s.worker, job)
    else if Held(s.worker, job) then
      && job !in s.doomed && job !in s.dying
      && (s.worker.Taken? || s.worker.Skipping? ==> es == [])
      && (s.worker.Running? ==> NoTerminal(es))
      && (s.worker.Closing? || s.worker.Recording? ==> EndsOnce(es))
      && (job in s.closed <==> s.worker.Recording?)
    else if job in s.doomed then es == [] && job !in s.dying && job !in s.closed
    else if job in s.dying then EndsOnce(es) && job !in s.closed
    else EndsOnce(es) && job in s.closed
  }

  ghost predicate Mentions(s: State, job: JobId) {
    job in s.queue || job in s.doomed || job in s.dying || job in s.closed || Held(s.worker, job)
  }

  ghost predicate Jobs(s: State) {
    && 1 <= s.nextId
    && (forall job: JobId :: s.Accepted(job) <==> 1 <= job < s.nextId)
    && (forall job: JobId :: Mentions(s, job) ==> s.Accepted(job))
    && (forall job: JobId :: s.Accepted(job) ==> Placed(s, job))
  }

  ghost predicate Order(s: State) {
    && Ascending(s.started + s.queue)
    && |s.queue| <= s.maxQueue
    && (forall job: JobId :: job in s.started ==> 1 <= job < s.nextId)
    && LiveIsHeld(s)
  }

  /** The published live job is the one the worker holds, the latest started. */
  ghost predicate LiveIsHeld(s: State) {
    && s.live == HeldJob(s.worker)
    && (s.live.Some? ==> s.started != [] && s.started[|s.started| - 1] == s.live.value)
  }

  /** Engine runs are the started jobs not seen cancelled. */
  ghost predicate Runs(s: State) {
    && Ascending(s.engineRuns)
    && (forall job: JobId :: job in s.engineRuns ==> job in s.started && job !in s.skipped)
    && (forall job: JobId :: job in s.skipped ==> job in s.started)
    && (s.worker.Taken? ==> s.worker.job !in s.engineRuns && s.worker.job !in s.skipped)
  }

  /** The service state, and when a queue can still fill after the final swap. */
  ghost predicate Lifecycle(s: State) {
    && (s.worker == Starting ==> s.phase != Ready && s.queue == [] && s.started == [] && s.early == !s.running)
    && (s.worker == Exiting || s.worker == Draining || s.worker == Done ==> !s.running)
    && (s.swapped <==> s.worker == Draining || s.worker == Done)
    && (!s.running && !s.early ==> s.phase == Stopping && s.queue == [])
    && (s.worker == Done ==> s.phase == Stopping)
    && (s.early ==> !s.running)
  }

  /** What the worker swapped out has left the queue for good. */
  ghost predicate Drains(s: State) {
    && (forall job: JobId :: job in s.leftover ==> s.Accepted(job) && job !in s.queue)
    && (s.leftover != {} ==> s.swapped)
  }

  ghost predicate Inv(s: State) {
    Jobs(s) && Order(s) && Runs(s) && Lifecycle(s) && Drains(s)
  }

  // -- Every step keeps the invariant -----------------------------------------------------------

  lemma InitInv(maxQueue: nat)
    ensures Inv(Init(maxQueue))
  {
  }

  /** Queued ids are later than every started one. */
  lemma QueuedAfterStarted(s: State, job: JobId)
    requires Order(s) && job in s.queue
    ensures job !in s.started
    ensures forall id :: id in s.started ==> id < job
  {
    var all := s.started + s.queue;
    var k :| 0 <= k < |s.queue| && s.queue[k] == job;
    assert all[|s.started| + k] == job;
    forall id | id in s.started
      ensures id < job
    {
      var i :| 0 <= i < |s.started| && s.started[i] == id;
      assert all[i] == id;
    }
  }

  /** The job the worker holds is the latest started. */
  lemma HeldIsLatest(s: State, job: JobId)
    requires Order(s) && Held(s.worker, job)
    ensures job in s.started
    ensures forall id :: id in s.started && id != job ==> id < job
  {
    var all := s.started + s.queue;
    var n := |s.started| - 1;
    assert s.started[n] == job == all[n];
    forall id | id in s.started && id != job
      ensures id < job
    {
      var i :| 0 <= i < |s.started| && s.started[i] == id;
      assert all[i] == id;
    }
  }

  lemma EndsWith(es: seq<Event>, e: Event)
    requires NoTerminal(es)
    ensures if e.IsTerminal() then EndsOnce(es + [e]) else NoTerminal(es + [e])
  {
    assert (es + [e])[..|es|] == es;
  }

  lemma PlacedStep(s: State, step: Step, job: JobId)
    requires Inv(s) && Enabled(s, step) && Apply(s, step).Accepted(job)
    ensures Placed(Apply(s, step), job)
  {
    hide Runs, Lifecycle, Order, EndsOnce, NoTerminal, Drains;
    assert s.Accepted(job) ==> Placed(s, job);
    match step
    case Take => PlacedTake(s, job);
    case PushDelta => PlacedPush(s, step, s.worker.job, job);
    case PushSkipped => PlacedPush(s, step, s.worker.job, job);
    case PushResult(_) => PlacedPush(s, step, s.worker.job, job);
    case DrainPush(j) => PlacedPush(s, step, j, job);
    case CheckCancel => NoneYet();
    case _ => assert Mentions(s, job) ==> s.Accepted(job);
  }

  lemma PlacedTake(s: State, job: JobId)
    requires Inv(s) && Enabled(s, Take) && s.Accepted(job)
    ensures Placed(Apply(s, Take), job)
  {
    hide Runs, Lifecycle, Order, EndsOnce, NoTerminal, Drains;
    assert Placed(s, job);
    assert s.queue == [s.queue[0]] + s.queue[1..];
    if job == s.queue[0] {
      QueueUnique(s);
    }
  }

  /** The job a push goes to. */
  ghost predicate PushesTo(s: State, step: Step, target: JobId) {
    if step.DrainPush? then target == step.job
    else (step.PushDelta? || step.PushSkipped? || step.PushResult?) && Enabled(s, step) && target == s.worker.job
  }

  lemma PlacedPush(s: State, step: Step, target: JobId, job: JobId)
    requires Enabled(s, step) && s.Accepted(job) && Placed(s, job) && PushesTo(s, step, target)
    ensures Placed(Apply(s, step), job)
  {
    if job == target {
      PlacedPushed(s, step, job);
    } else {
      hide Placed;
      PlacedFrame(s, Apply(s, step), job);
    }
  }

  lemma PlacedPushed(s: State, step: Step, job: JobId)
    requires Enabled(s, step) && s.Accepted(job) && Placed(s, job) && PushesTo(s, step, job)
    ensures Placed(Apply(s, step), job)
  {
    hide EndsOnce, NoTerminal, SetOf, Placed;
    var s' := Apply(s, step);
    if step.DrainPush? {
      DrainedPlace(s, s', job);
    } else {
      var e := if step.PushDelta? then Delta else if step.PushResult? && step.failed then Failed else Finished;
      WorkerPlace(s, s', job, e);
    }
  }

  lemma DrainedPlace(s: State, s': State, job: JobId)
    requires s.Accepted(job) && Placed(s, job) && job in s.doomed
    requires s' == s.(events := s.events[job := s.events[job] + [Finished]], doomed := s.doomed - {job}, dying := s.dying + {job})
    ensures Placed(s', job)
  {
    hide EndsOnce, NoTerminal;
    NoneYet();
    EndsWith([], Finished);
  }

  lemma WorkerPlace(s: State, s': State, job: JobId, e: Event)
    requires s.Accepted(job) && Placed(s, job) && (s.worker == Running(job) || s.worker == Skipping(job))
    requires s.worker.Skipping? ==> e.IsTerminal()
    requires s' == s.(events := s.events[job := s.events[job] + [e]], worker := if e.IsTerminal() then Closing(job) else s.worker)
    ensures Placed(s', job)
  {
    hide EndsOnce, NoTerminal;
    NoneYet();
    if NoTerminal(s.events[job]) { EndsWith(s.events[job], e); }
  }

  /** A step that touches nothing of a job leaves it where it was. */
  lemma PlacedFrame(s: State, s': State, job: JobId)
    requires s.Accepted(job) && s'.Accepted(job) && Placed(s, job)
    requires s'.events[job] == s.events[job] && s'.queue == s.queue && s'.closed == s.closed
    requires (job in s'.doomed <==> job in s.doomed) && (job in s'.dying <==> job in s.dying)
    requires HeldJob(s'.worker) == HeldJob(s.worker) && (Held(s.worker, job) ==> s'.worker == s.worker)
    ensures Placed(s', job)
  {
    hide EndsOnce, NoTerminal;
  }

  lemma NoneYet()
    ensures NoTerminal([])
  {
  }

  /** The front of the queue is there once. */
  lemma QueueUnique(s: State)
    requires Order(s) && s.queue != []
    ensures s.queue[0] !in s.queue[1..]
  {
    var all := s.started + s.queue;
    forall k | 1 <= k < |s.queue|
      ensures s.queue[0] < s.queue[k]
    {
      assert all[|s.started|] == s.queue[0] && all[|s.started| + k] == s.queue[k];
    }
  }

  lemma JobsStep(s: State, step: Step)
    requires Inv(s) && Enabled(s, step)
    ensures Jobs(Apply(s, step))
  {
    hide Placed, Runs, Lifecycle, Order, Drains;
    var s' := Apply(s, step);
    forall job: JobId
      ensures s'.Accepted(job) <==> 1 <= job < s'.nextId
      ensures Mentions(s', job) ==> s'.Accepted(job)
    {
      assert s.Accepted(job) <==> 1 <= job < s.nextId;
      assert Mentions(s, job) ==> s.Accepted(job);
      if step.Take? {
        assert Mentions(s, s.queue[0]);
      }
    }
    forall job: JobId | s'.Accepted(job)
      ensures Placed(s', job)
    {
      PlacedStep(s, step, job);
    }
  }

  lemma OrderStep(s: State, step: Step)
    requires Inv(s) && Enabled(s, step)
    ensures Order(Apply(s, step))
  {
    hide Jobs, Runs, Lifecycle, LiveIsHeld, Ascending, Drains;
    LiveStep(s, step);
    var s' := Apply(s, step);
    match step
    case Take =>
      FrontAccepted(s);
      assert s'.started + s'.queue == s.started + s.queue;
    case Submit =>
      AscendingNext(s);
    case Shutdown =>
      AscendingPrefix(s.started, s.queue);
      assert s'.started + s'.queue == s.started;
    case FinalSwap =>
      AscendingPrefix(s.started, s.queue);
      assert s'.started + s'.queue == s.started;
    case _ =>
  }

  lemma FrontAccepted(s: State)
    requires Jobs(s) && s.queue != []
    ensures 1 <= s.queue[0] < s.nextId
  {
    assert Mentions(s, s.queue[0]);
  }

  lemma LiveStep(s: State, step: Step)
    requires Inv(s) && Enabled(s, step)
    ensures LiveIsHeld(Apply(s, step))
  {
    hide Jobs, Runs, Lifecycle, Ascending, Drains;
  }

  lemma AscendingNext(s: State)
    requires Jobs(s) && Order(s)
    ensures Ascending(s.started + (s.queue + [s.nextId]))
  {
    hide Placed;
    var all := s.started + s.queue;
    forall i | 0 <= i < |all|
      ensures all[i] < s.nextId
    {
      assert all[i] in s.started || (all[i] in s.queue && Mentions(s, all[i]));
    }
    assert s.started + (s.queue + [s.nextId]) == all + [s.nextId];
  }

  lemma AscendingPrefix(a: seq<JobId>, b: seq<JobId>)
    requires Ascending(a + b)
    ensures Ascending(a)
  {
    assert forall i :: 0 <= i < |a| ==> (a + b)[i] == a[i];
  }

  lemma RunsStep(s: State, step: Step)
    requires Inv(s) && Enabled(s, step)
    ensures Runs(Apply(s, step))
  {
    hide Placed, Jobs, Lifecycle, Drains;
    match step
    case Take => QueuedAfterStarted(s, s.queue[0]);
    case CheckCancel => RunsAtCheck(s);
    case _ =>
  }

  lemma RunsAtCheck(s: State)
    requires Order(s) && Runs(s) && s.worker.Taken?
    ensures Runs(Apply(s, CheckCancel))
  {
    var job := s.worker.job;
    HeldIsLatest(s, job);
    hide Order;
    var longer := s.engineRuns + [job];
    forall i, j | 0 <= i < j < |longer|
      ensures longer[i] < longer[j]
    {
      assert longer[i] in s.engineRuns;
    }
  }

  lemma LifecycleStep(s: State, step: Step)
    requires Inv(s) && Enabled(s, step)
    ensures Lifecycle(Apply(s, step))
  {
    hide Placed, Jobs, Runs;
  }

  lemma DrainsStep(s: State, step: Step)
    requires Inv(s) && Enabled(s, step)
    ensures Drains(Apply(s, step))
  {
    hide Placed, Order, Runs;
    assert forall job: JobId :: job in s.queue ==> Mentions(s, job);
  }

  lemma InvStep(s: State, step: Step)
    requires Inv(s) && Enabled(s, step)
    ensures Inv(Apply(s, step))
  {
    hide Jobs, Order, Runs, Lifecycle, Drains, Apply;
    DrainsStep(s, step);
    JobsStep(s, step);
    OrderStep(s, step);
    RunsStep(s, step);
    LifecycleStep(s, step);
  }

  lemma {:induction false} RunInv(s: State, steps: seq<Step>)
    requires Inv(s) && Feasible(s, steps)
    ensures Inv(After(s, steps))
    decreases |steps|
  {
    hide Inv, Apply, Enabled;
    if steps != [] {
      InvStep(s, steps[0]);
      RunInv(Apply(s, steps[0]), steps[1..]);
    }
  }

  // -- What every run guarantees --------------------------------------------------------------------

  /** In every reachable state: a closed stream ends with its only terminal event, an open
      one of a finished job too, and nothing is pushed after. */
  lemma ClosedEndsOnce(maxQueue: nat, steps: seq<Step>, job: JobId)
    requires Feasible(Init(maxQueue), steps) && After(Init(maxQueue), steps).Accepted(job)
    ensures var s := After(Init(maxQueue), steps);
            && (job in s.closed ==> EndsOnce(s.events[job]))
            && (NoTerminal(s.events[job]) || EndsOnce(s.events[job]))
  {
    hide Apply, Enabled, Order, Runs, Lifecycle, EndsOnce, Drains;
    InitInv(maxQueue);
    RunInv(Init(maxQueue), steps);
    var s := After(Init(maxQueue), steps);
    assert Placed(s, job);
    NoneYet();
  }

  /** Closing is final: no later step changes a closed stream. */
  lemma ClosedIsFinal(s: State, step: Step, job: JobId)
    requires Inv(s) && Enabled(s, step) && job in s.closed
    ensures var s' := Apply(s, step);
            && s.Accepted(job) && s'.Accepted(job)
            && job in s'.closed && s'.events[job] == s.events[job]
  {
    hide Order, Runs, Lifecycle, EndsOnce, NoTerminal, Drains;
    assert Mentions(s, job) && Placed(s, job);
    if step.DrainPush? {
      assert Placed(s, step.job);
    }
  }

  /** Jobs reach the worker in id order, at most once, and the queue keeps its bound. */
  lemma StartedInOrder(maxQueue: nat, steps: seq<Step>)
    requires Feasible(Init(maxQueue), steps)
    ensures var s := After(Init(maxQueue), steps);
            && Ascending(s.started) && Ascending(s.queue) && Ascending(s.engineRuns)
            && |s.queue| <= maxQueue
  {
    hide Apply, Enabled, Jobs, Lifecycle, Drains;
    InitInv(maxQueue);
    RunInv(Init(maxQueue), steps);
    MaxQueueKept(Init(maxQueue), steps);
    var s := After(Init(maxQueue), steps);
    var all := s.started + s.queue;
    assert forall i :: 0 <= i < |s.started| ==> all[i] == s.started[i];
    assert forall i :: 0 <= i < |s.queue| ==> all[|s.started| + i] == s.queue[i];
  }

  lemma {:induction false} MaxQueueKept(s: State, steps: seq<Step>)
    requires Feasible(s, steps)
    ensures After(s, steps).maxQueue == s.maxQueue
    decreases |steps|
  {
    if steps != [] {
      MaxQueueKept(Apply(s, steps[0]), steps[1..]);
    }
  }

  /** Shutdown's locked section leaves every unfinished job cancelled with the worker or in
      the hands of a drain, and none queued. */
  lemma ShutdownCoversAll(s: State, job: JobId)
    requires Inv(s) && s.Accepted(job) && job !in s.closed
    ensures job in s.queue || s.live == Some(job) || job in s.doomed || job in s.dying
    ensures var s' := Apply(s, Shutdown);
            && job !in s'.queue
            && (s.live == Some(job) ==> job in s'.cancelled)
            && (job in s.queue ==> job in s'.doomed)
  {
    hide Runs, Lifecycle, EndsOnce, NoTerminal, Drains;
    assert Placed(s, job);
  }

  // -- Which jobs reach the engine, and what they are told ------------------------------------------------

  /** A step that cancels a job: its own cancel, or a shutdown while it is live. */
  predicate Cancels(s: State, step: Step, job: JobId) {
    step == Cancel(job) || (step.Shutdown? && s.live == Some(job))
  }

  ghost predicate CancelledIn(s: State, steps: seq<Step>, job: JobId)
    requires Feasible(s, steps)
    decreases |steps|
  {
    steps != [] && (Cancels(s, steps[0], job) || CancelledIn(Apply(s, steps[0]), steps[1..], job))
  }

  lemma {:induction false} CancelledExactly(s: State, steps: seq<Step>, job: JobId)
    requires Feasible(s, steps)
    ensures job in After(s, steps).cancelled <==> job in s.cancelled || CancelledIn(s, steps, job)
    decreases |steps|
  {
    hide Apply, Enabled;
    if steps != [] {
      HistoryStep(s, steps[0], job);
      CancelledExactly(Apply(s, steps[0]), steps[1..], job);
    }
  }

  /** One step cancels, skips and runs only ever more jobs. */
  lemma HistoryStep(s: State, step: Step, job: JobId)
    requires Enabled(s, step)
    ensures var s' := Apply(s, step);
            && (job in s'.cancelled <==> job in s.cancelled || Cancels(s, step, job))
            && (job in s.skipped ==> job in s'.skipped)
            && (job in s.engineRuns ==> job in s'.engineRuns)
  {
    hide SetOf;
  }

  lemma {:induction false} HistoryGrows(s: State, steps: seq<Step>, job: JobId)
    requires Feasible(s, steps)
    ensures job in s.skipped ==> job in After(s, steps).skipped
    ensures job in s.engineRuns ==> job in After(s, steps).engineRuns
    decreases |steps|
  {
    hide Apply, Enabled;
    if steps != [] {
      HistoryStep(s, steps[0], job);
      HistoryGrows(Apply(s, steps[0]), steps[1..], job);
    }
  }

  /** In every run, a job the worker took reaches the engine if and only if nothing cancelled it
      before the worker looked. */
  lemma RunsUnlessCancelled(maxQueue: nat, before: seq<Step>, rest: seq<Step>, job: JobId)
    requires Feasible(Init(maxQueue), before) && After(Init(maxQueue), before).worker == Taken(job)
    requires Feasible(Apply(After(Init(maxQueue), before), CheckCancel), rest)
    ensures job in After(Apply(After(Init(maxQueue), before), CheckCancel), rest).engineRuns
      <==> !CancelledIn(Init(maxQueue), before, job)
  {
    hide Jobs, Order, Lifecycle, Drains;
    InitInv(maxQueue);
    RunInv(Init(maxQueue), before);
    CancelledExactly(Init(maxQueue), before, job);
    var s := After(Init(maxQueue), before);
    InvStep(s, CheckCancel);
    var s' := Apply(s, CheckCancel);
    RunInv(s', rest);
    HistoryGrows(s', rest, job);
  }

  /** Without its own cancel or any shutdown, nothing cancels a job. */
  lemma {:induction false} CancelNeedsACause(s: State, steps: seq<Step>, job: JobId)
    requires Feasible(s, steps)
    ensures Cancel(job) in steps ==> CancelledIn(s, steps, job)
    ensures CancelledIn(s, steps, job) ==> Cancel(job) in steps || exists i :: 0 <= i < |steps| && steps[i].Shutdown?
    decreases |steps|
  {
    hide Apply, Enabled;
    if steps != [] {
      var rest := steps[1..];
      assert steps == [steps[0]] + rest;
      CancelNeedsACause(Apply(s, steps[0]), rest, job);
      if i :| 0 <= i < |rest| && rest[i].Shutdown? { assert steps[i + 1].Shutdown?; }
    }
  }

  /** A job the engine has not run has been told nothing, or just that it is finished. */
  ghost predicate Told(s: State) {
    && (s.worker.Running? ==> s.worker.job in s.engineRuns)
    && forall job: JobId :: s.Accepted(job) && job !in s.engineRuns ==> s.events[job] == [] || s.events[job] == [Finished]
  }

  lemma ToldStep(s: State, step: Step)
    requires Inv(s) && Told(s) && Enabled(s, step)
    ensures Told(Apply(s, step))
  {
    hide Order, Runs, Lifecycle, Drains, EndsOnce, NoTerminal, SetOf;
    var s' := Apply(s, step);
    forall job: JobId | s'.Accepted(job) && job !in s'.engineRuns
      ensures s'.events[job] == [] || s'.events[job] == [Finished]
    {
      if s.Accepted(job) {
        assert Placed(s, job);
        assert [] + [Finished] == [Finished];
      }
    }
  }

  lemma {:induction false} ToldRun(s: State, steps: seq<Step>)
    requires Inv(s) && Told(s) && Feasible(s, steps)
    ensures Told(After(s, steps))
    decreases |steps|
  {
    hide Inv, Told, Apply, Enabled;
    if steps != [] {
      InvStep(s, steps[0]);
      ToldStep(s, steps[0]);
      ToldRun(Apply(s, steps[0]), steps[1..]);
    }
  }

  /** What one step tells one job: the engine's deltas and its result to the job it runs, one
      finished event to a job skipped or drained. */
  function Tells(s: State, step: Step, job: JobId): seq<Event> {
    if step.DrainPush? && step.job == job then [Finished]
    else if s.worker == Running(job) && step.PushDelta? then [Delta]
    else if s.worker == Running(job) && step.PushResult? then [if step.failed then Failed else Finished]
    else if s.worker == Skipping(job) && step.PushSkipped? then [Finished]
    else []
  }

  ghost function ToldIn(s: State, steps: seq<Step>, job: JobId): seq<Event>
    requires Feasible(s, steps)
    decreases |steps|
  {
    if steps == [] then [] else Tells(s, steps[0], job) + ToldIn(Apply(s, steps[0]), steps[1..], job)
  }

  ghost function EventsOf(s: State, job: JobId): seq<Event> {
    if s.Accepted(job) then s.events[job] else []
  }

  lemma TellsStep(s: State, step: Step, job: JobId)
    requires Inv(s) && Enabled(s, step)
    ensures EventsOf(Apply(s, step), job) == EventsOf(s, job) + Tells(s, step, job)
  {
    hide Placed, Order, Runs, Lifecycle, Drains, SetOf;
  }

  lemma {:induction false} TellsRun(s: State, steps: seq<Step>, job: JobId)
    requires Inv(s) && Feasible(s, steps)
    ensures EventsOf(After(s, steps), job) == EventsOf(s, job) + ToldIn(s, steps, job)
    decreases |steps|
  {
    hide Inv, Apply, Enabled, EventsOf, Tells;
    if steps != [] {
      InvStep(s, steps[0]);
      TellsStep(s, steps[0], job);
      TellsRun(Apply(s, steps[0]), steps[1..], job);
    }
  }

  /** In every run a job's events are exactly what its steps told it, in order; and a closed job
      that never reached the engine has the one event that it is finished. */
  lemma ToldExactly(maxQueue: nat, steps: seq<Step>, job: JobId)
    requires Feasible(Init(maxQueue), steps) && After(Init(maxQueue), steps).Accepted(job)
    ensures var s := After(Init(maxQueue), steps);
            && s.events[job] == ToldIn(Init(maxQueue), steps, job)
            && (job in s.closed && job !in s.engineRuns ==> s.events[job] == [Finished])
  {
    hide Apply, Enabled, Inv, Feasible, After, ToldIn, EndsOnce, NoTerminal;
    InitInv(maxQueue);
    ToldRun(Init(maxQueue), steps);
    TellsRun(Init(maxQueue), steps, job);
    ClosedEndsOnce(maxQueue, steps, job);
    EndsWithSomething(After(Init(maxQueue), steps).events[job]);
  }

  lemma EndsWithSomething(es: seq<Event>)
    ensures EndsOnce(es) ==> es != []
  {
  }

  // -- Progress -----------------------------------------------------------------------------------------

  /** Steps the service takes on its own: not a caller's, and not one more delta. */
  predicate OwnStep(step: Step) {
    !step.Submit? && !step.Cancel? && !step.Shutdown? && !step.PushDelta?
  }

  /** An unfinished job always has a step of the service ahead of it, except one stranded in
      the queue of a worker that is gone. */
  lemma NeverStuck(s: State, job: JobId) returns (step: Step)
    requires Inv(s) && s.Accepted(job) && job !in s.closed
    requires job in s.queue ==> s.worker != Done
    ensures OwnStep(step) && Enabled(s, step)
  {
    hide Order, Runs, EndsOnce, NoTerminal;
    assert Placed(s, job);
    if job in s.doomed {
      step := DrainPush(job);
    } else if job in s.dying {
      step := DrainClose(job);
    } else {
      match s.worker
      case Starting => step := Publish;
      case Idle => step := if s.running then Take else Break;
      case Taken(_) => step := CheckCancel;
      case Skipping(j) => assert Mentions(s, j); step := PushSkipped;
      case Running(j) => assert Mentions(s, j); step := PushResult(false);
      case Closing(_) => step := CloseStream;
      case Recording(_) => step := Record;
      case Exiting => step := FinalSwap;
      case Draining =>
        if j :| j in s.leftover && j !in s.closed {
          assert Placed(s, j);
          step := if j in s.doomed then DrainPush(j) else DrainClose(j);
        } else {
          step := StoreStopping;
        }
    }
  }

  function Stage(w: Worker): nat {
    match w
    case Starting => 5
    case Idle => 4
    case Taken(_) => 11
    case Skipping(_) => 10
    case Running(_) => 10
    case Closing(_) => 9
    case Recording(_) => 8
    case Exiting => 3
    case Draining => 2
    case Done => 0
  }

  /** The service's own work left to do. */
  function Work(s: State): nat {
    8 * |s.queue| + 2 * |s.doomed| + |s.dying| + Stage(s.worker)
  }

  /** Every step of the service's own shortens the work left, so without new submissions and
      with an engine that returns, every job is closed after finitely many. */
  lemma OwnStepsTerminate(s: State, step: Step)
    requires Enabled(s, step) && OwnStep(step)
    ensures Work(Apply(s, step)) < Work(s)
  {
    match step
    case FinalSwap => WorkAtSwap(s.doomed, s.queue);
    case DrainPush(job) => WorkAtDrain(s.doomed, s.dying, job);
    case _ =>
  }

  lemma WorkAtSwap(doomed: set<JobId>, queue: seq<JobId>)
    ensures 2 * |doomed + SetOf(queue)| <= 2 * |doomed| + 8 * |queue|
  {
    QueueSize(queue);
    UnionSize(doomed, SetOf(queue));
  }

  lemma WorkAtDrain(doomed: set<JobId>, dying: set<JobId>, job: JobId)
    requires job in doomed
    ensures 2 * |doomed - {job}| + |dying + {job}| < 2 * |doomed| + |dying|
  {
    UnionSize(dying, {job});
  }

  lemma {:induction false} QueueSize(queue: seq<JobId>)
    ensures |SetOf(queue)| <= |queue|
  {
    if queue == [] {
      assert SetOf(queue) == {};
    } else {
      QueueSize(queue[1..]);
      assert SetOf(queue) == SetOf(queue[1..]) + {queue[0]};
    }
  }

  lemma UnionSize(a: set<JobId>, b: set<JobId>)
    ensures |a + b| <= |a| + |b|
  {
    assert a + b == a + (b - a) && |b - a| + |b * a| == |b|;
  }

  // -- At rest ------------------------------------------------------------------------------------------

  /** All threads of the service have come to rest. */
  predicate Quiescent(s: State) {
    s.worker == Done && s.doomed == {} && s.dying == {}
  }

  /** At rest, the jobs without a terminal event are exactly those still queued; and none is
      queued unless shutdown ran before the worker published Ready. */
  lemma RestIsComplete(maxQueue: nat, steps: seq<Step>, job: JobId)
    requires Feasible(Init(maxQueue), steps) && Quiescent(After(Init(maxQueue), steps))
    requires After(Init(maxQueue), steps).Accepted(job)
    ensures var s := After(Init(maxQueue), steps);
            && (job in s.closed && EndsOnce(s.events[job]) <==> job !in s.queue)
            && (job in s.queue ==> s.early && s.events[job] == [])
  {
    hide Apply, Enabled, Runs, EndsOnce, NoTerminal;
    InitInv(maxQueue);
    RunInv(Init(maxQueue), steps);
    var s := After(Init(maxQueue), steps);
    assert Placed(s, job);
  }

  /** With shutdown after Ready, every accepted job of a run at rest ended exactly once. */
  lemma EveryJobEndsOnce(maxQueue: nat, steps: seq<Step>, job: JobId)
    requires Feasible(Init(maxQueue), steps) && Quiescent(After(Init(maxQueue), steps))
    requires After(Init(maxQueue), steps).Accepted(job) && !After(Init(maxQueue), steps).early
    ensures var s := After(Init(maxQueue), steps);
            job in s.closed && EndsOnce(s.events[job])
  {
    hide Apply, Enabled, EndsOnce;
    RestIsComplete(maxQueue, steps, job);
  }

  // -- Exactly which jobs are stranded --------------------------------------------------------------------

  ghost predicate NoShutdown(steps: seq<Step>) {
    forall i :: 0 <= i < |steps| ==> !steps[i].Shutdown?
  }

  /** A job that left the queue never comes back to it. */
  lemma NeverRequeued(s: State, step: Step, job: JobId)
    requires Inv(s) && Enabled(s, step) && s.Accepted(job) && job !in s.queue
    ensures Apply(s, step).Accepted(job) && job !in Apply(s, step).queue
  {
    hide Order, Runs, Lifecycle, EndsOnce, NoTerminal, Placed, Drains;
  }

  lemma {:induction false} NeverQueuedAgain(s: State, steps: seq<Step>, job: JobId)
    requires Inv(s) && Feasible(s, steps) && s.Accepted(job) && job !in s.queue
    ensures job !in After(s, steps).queue
    decreases |steps|
  {
    hide Apply, Enabled, Inv;
    if steps != [] {
      InvStep(s, steps[0]);
      NeverRequeued(s, steps[0], job);
      NeverQueuedAgain(Apply(s, steps[0]), steps[1..], job);
    }
  }

  /** Past the final swap only a shutdown empties the queue. */
  lemma SwappedStep(s: State, step: Step, job: JobId)
    requires Inv(s) && Enabled(s, step) && job in s.queue && s.swapped
    ensures var s' := Apply(s, step);
            s'.swapped && s'.Accepted(job) && (job in s'.queue <==> !step.Shutdown?)
  {
    hide Order, Runs, EndsOnce, NoTerminal, Placed;
    assert Mentions(s, job);
  }

  /** Before it the worker cannot be done without emptying the queue itself. */
  lemma UnswappedStep(s: State, step: Step, job: JobId)
    requires Inv(s) && Enabled(s, step) && job in s.queue && !s.swapped
    ensures var s' := Apply(s, step);
            s'.Accepted(job) && (job in s'.queue ==> !s'.swapped)
  {
    hide Order, Runs, EndsOnce, NoTerminal, Placed;
    assert Mentions(s, job);
  }

  /** A queued job's fate in every run that ends with the worker gone. */
  lemma {:induction false} QueuedToTheEnd(s: State, steps: seq<Step>, job: JobId)
    requires Inv(s) && Feasible(s, steps) && After(s, steps).worker == Done && job in s.queue
    ensures job in After(s, steps).queue <==> s.swapped && NoShutdown(steps)
    decreases |steps|
  {
    if steps == [] {
      hide Jobs, Order, Runs;
    } else {
      hide Apply, Enabled, Inv;
      var step, rest := steps[0], steps[1..];
      var s' := Apply(s, step);
      InvStep(s, step);
      if s.swapped { SwappedStep(s, step, job); } else { UnswappedStep(s, step, job); }
      assert NoShutdown(steps) <==> !step.Shutdown? && NoShutdown(rest);
      if job in s'.queue {
        QueuedToTheEnd(s', rest, job);
      } else {
        NeverQueuedAgain(s', rest, job);
      }
    }
  }

  /** Which submit strands its job, in every run at rest: exactly one accepted after the
      worker's final swap and followed by no shutdown. Every other job ends exactly once. */
  lemma StrandedExactly(maxQueue: nat, before: seq<Step>, rest: seq<Step>)
    requires Feasible(Init(maxQueue), before)
    requires var s := After(Init(maxQueue), before); Enabled(s, Submit) && Feasible(Apply(s, Submit), rest)
    requires Quiescent(After(Apply(After(Init(maxQueue), before), Submit), rest))
    ensures var s := After(Init(maxQueue), before);
            var (job, end) := (s.nextId, After(Apply(s, Submit), rest));
            && end.Accepted(job)
            && (job in end.closed && EndsOnce(end.events[job]) <==> !(s.swapped && NoShutdown(rest)))
            && (s.swapped && NoShutdown(rest) ==> end.events[job] == [] && job !in end.closed)
  {
    hide Runs, Order, EndsOnce, NoTerminal, Lifecycle, Drains;
    InitInv(maxQueue);
    RunInv(Init(maxQueue), before);
    var s := After(Init(maxQueue), before);
    var job := s.nextId;
    InvStep(s, Submit);
    var s' := Apply(s, Submit);
    assert s'.queue[|s.queue|] == job;
    assert s'.swapped == s.swapped;
    RunInv(s', rest);
    QueuedToTheEnd(s', rest, job);
    StaysAccepted(s', rest, job);
    assert Placed(After(s', rest), job);
  }

  lemma {:induction false} StaysAccepted(s: State, steps: seq<Step>, job: JobId)
    requires Feasible(s, steps) && s.Accepted(job)
    ensures After(s, steps).Accepted(job)
    decreases |steps|
  {
    if steps != [] { StaysAccepted(Apply(s, steps[0]), steps[1..], job); }
  }

  /** Without it, a job can be stranded: shutdown first, then Ready is published, the worker
      leaves its loop, and a submit lands between its final swap and its last store. */
  lemma EarlyShutdownStrands() returns (steps: seq<Step>, s: State)
    ensures Feasible(Init(1), steps) && s == After(Init(1), steps)
    ensures Quiescent(s) && s.queue == [1] && s.Accepted(1) && s.events[1] == [] && 1 !in s.closed
  {
    hide Feasible, After, Apply, Enabled;
    var s3;
    steps, s3, s := LateSubmit();
    assert s3 == Init(1).(running := false, phase := Ready, worker := Exiting, early := true);
    var s1 := Init(1).(running := false, phase := Stopping, early := true);
    var s2 := s1.(phase := Ready, worker := Idle);
    EarlySteps(s1, s2, s3);
    steps := OneMore(s2, Break, s3, steps);
    steps := OneMore(s1, Publish, s2, steps);
    steps := OneMore(Init(1), Shutdown, s1, steps);
  }

  lemma EarlySteps(s1: State, s2: State, s3: State)
    requires s1 == Init(1).(running := false, phase := Stopping, early := true)
    requires s2 == s1.(phase := Ready, worker := Idle) && s3 == s2.(worker := Exiting)
    ensures Enabled(Init(1), Shutdown) && Apply(Init(1), Shutdown) == s1
    ensures Enabled(s1, Publish) && Apply(s1, Publish) == s2
    ensures Enabled(s2, Break) && Apply(s2, Break) == s3
  {
    assert SetOf([]) == {};
  }

  lemma LateSubmit() returns (steps: seq<Step>, s3: State, s: State)
    ensures s3 == Init(1).(running := false, phase := Ready, worker := Exiting, early := true)
    ensures Feasible(s3, steps) && s == After(s3, steps)
    ensures Quiescent(s) && s.queue == [1] && s.Accepted(1) && s.events[1] == [] && 1 !in s.closed
  {
    hide Feasible, After;
    s3 := Init(1).(running := false, phase := Ready, worker := Exiting, early := true);
    var s4 := s3.(worker := Draining, swapped := true);
    assert SetOf([]) == {};
    var s5 := s4.(queue := [1], events := map[1 := []], nextId := 2);
    assert s4.queue + [1] == [1];
    s := s5.(phase := Stopping, worker := Done);
    NoSteps(s);
    steps := OneMore(s5, StoreStopping, s, []);
    steps := OneMore(s4, Submit, s5, steps);
    steps := OneMore(s3, FinalSwap, s4, steps);
  }

  lemma NoSteps(s: State)
    ensures Feasible(s, []) && After(s, []) == s
  {
  }

  lemma OneMore(s: State, step: Step, next: State, rest: seq<Step>) returns (steps: seq<Step>)
    requires Enabled(s, step) && Apply(s, step) == next && Feasible(next, rest)
    ensures Feasible(s, steps) && After(s, steps) == After(next, rest)
  {
    hide Apply, Enabled;
    steps := [step] + rest;
    assert steps[1..] == rest;
  }
}
