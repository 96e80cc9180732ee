/** The service object: each method is one locked section (or one stream operation) of the
    source, proved to be the protocol step it stands for. */
module ConversationService {
  import opened Wrappers
  import opened ServiceProtocol

  datatype SubmitResult = Accepted(job: JobId) | NotReady | QueueFull

  class Service {
    const maxQueue: nat
    var phase: Phase
    var running: bool
    var queue: seq<JobId>
    var nextId: JobId
    var liveJob: Option<JobId>
    var cancelled: set<JobId>
    var events: map<JobId, seq<Event>>
    var closed: set<JobId>
    // The threads' own places, and history.
    ghost var worker: Worker
    ghost var doomed: set<JobId>
    ghost var dying: set<JobId>
    ghost var leftover: set<JobId>
    ghost var started: seq<JobId>
    ghost var engineRuns: seq<JobId>
    ghost var skipped: set<JobId>
    ghost var swapped: bool
    ghost var early: bool

    ghost function View(): State
      reads this
    {
      State(maxQueue, phase, running, queue, nextId, liveJob, cancelled, events, closed, worker,
            doomed, dying, leftover, started, engineRuns, skipped, swapped, early)
    }

    constructor (maxQueue: nat)
      ensures View() == Init(maxQueue)
    {
      this.maxQueue := maxQueue;
      phase, running, queue, nextId, liveJob := Loading, true, [], 1, None;
      cancelled, events, closed := {}, map[], {};
      worker, doomed, dying, leftover, started, engineRuns := Starting, {}, {}, {}, [], [];
      skipped, swapped, early := {}, false, false;
    }

    /** Refused unless the worker published Ready and the queue has room. */
    method Submit() returns (r: SubmitResult)
      modifies this`nextId, this`events, this`queue
      ensures r.NotReady? <==> old(phase) != Ready
      ensures r.QueueFull? <==> old(phase) == Ready && maxQueue <= old(|queue|)
      ensures if r.Accepted? then
                && r.job == old(nextId) && Enabled(old(View()), Step.Submit)
                && View() == Apply(old(View()), Step.Submit)
              else View() == old(View())
    {
      if phase != Ready {
        return NotReady;
      }
      if |queue| >= maxQueue {
        return QueueFull;
      }
      var job := nextId;
      nextId := nextId + 1;
      events := events[job := []];
      queue := queue + [job];
      r := Accepted(job);
    }

    method Cancel(job: JobId)
      requires View().Accepted(job)
      modifies this`cancelled
      ensures View() == Apply(old(View()), Step.Cancel(job))
    {
      cancelled := cancelled + {job};
    }

    /** 0 when the job is live or unknown; its 1-based place when it waits. */
    method Position(job: JobId) returns (place: nat)
      requires Inv(View())
      ensures place == 0 <==> job !in queue
      ensures 0 < place ==> place <= |queue| && queue[place - 1] == job
    {
      hide Jobs, Runs, Lifecycle, Drains;
      if liveJob == Some(job) {
        LiveIsNotQueued(View(), job);
        return 0;
      }
      var index := 1;
      for k := 0 to |queue|
        invariant index == k + 1 && job !in queue[..k]
      {
        if queue[k] == job {
          return index;
        }
        index := index + 1;
      }
      assert queue[..|queue|] == queue;
      place := 0;
    }

    method PublishReady()
      requires Enabled(View(), Publish)
      modifies this`phase, this`worker
      ensures View() == Apply(old(View()), Publish)
    {
      phase := Ready;
      worker := Idle;
    }

    /** The worker's wait: leave the loop when stopped, else take the oldest job. */
    method TakeNext() returns (job: Option<JobId>)
      requires worker == Idle && (!running || queue != [])
      modifies this`queue, this`liveJob, this`worker, this`started
      ensures job.None? <==> !old(running)
      ensures View() == Apply(old(View()), if job.None? then Break else Take)
      ensures job.Some? ==> worker == Taken(job.value)
    {
      if !running {
        worker := Exiting;
        return None;
      }
      var front := queue[0];
      queue := queue[1..];
      liveJob := Some(front);
      worker, started := Taken(front), started + [front];
      job := Some(front);
    }

    /** Reads the cancel flag once, before the engine. */
    method CheckCancelled(job: JobId) returns (skip: bool)
      requires worker == Taken(job)
      modifies this`worker, this`skipped, this`engineRuns
      ensures View() == Apply(old(View()), CheckCancel) && (skip <==> job in cancelled)
    {
      skip := job in cancelled;
      if skip {
        worker, skipped := Skipping(job), skipped + {job};
      } else {
        worker, engineRuns := Running(job), engineRuns + [job];
      }
    }

    method PushDelta(job: JobId)
      requires worker == Running(job) && View().Accepted(job)
      modifies this`events
      ensures View() == Apply(old(View()), Step.PushDelta)
    {
      events := events[job := events[job] + [Delta]];
    }

    /** The worker's one terminal event: cancelled, finished or failed. */
    method PushTerminal(job: JobId, failed: bool)
      requires worker == Skipping(job) || worker == Running(job)
      requires View().Accepted(job) && (worker.Skipping? ==> !failed)
      modifies this`events, this`worker
      ensures View() == Apply(old(View()), if old(worker).Skipping? then PushSkipped else PushResult(failed))
    {
      events := events[job := events[job] + [if failed then Failed else Finished]];
      worker := Closing(job);
    }

    method Close(job: JobId)
      requires worker == Closing(job)
      modifies this`closed, this`worker
      ensures View() == Apply(old(View()), CloseStream)
    {
      closed := closed + {job};
      worker := Recording(job);
    }

    method RecordRun(job: JobId)
      requires worker == Recording(job)
      modifies this`liveJob, this`worker
      ensures View() == Apply(old(View()), Record)
    {
      liveJob := None;
      worker := Idle;
    }

    /** The worker's last section: whatever is still queued is taken out to be failed. */
    method SwapPending() returns (pending: seq<JobId>)
      requires worker == Exiting
      modifies this`queue, this`doomed, this`leftover, this`worker, this`swapped
      ensures View() == Apply(old(View()), FinalSwap) && pending == old(queue)
    {
      hide SetOf;
      ghost var emptied := Apply(View(), FinalSwap);
      pending := queue;
      queue := [];
      doomed, leftover, worker, swapped := emptied.doomed, emptied.leftover, Draining, true;
    }

    method StoreStopping()
      requires worker == Draining && leftover <= closed
      modifies this`phase, this`worker
      ensures View() == Apply(old(View()), Step.StoreStopping)
    {
      phase := Stopping;
      worker := Done;
    }

    /** Refuse new work, cancel the live job, take the queue out to be failed. */
    method Shutdown() returns (pending: seq<JobId>)
      modifies this`running, this`phase, this`cancelled, this`queue, this`doomed, this`early
      ensures View() == Stop(old(View())) && pending == old(queue)
    {
      hide SetOf;
      ghost var stopped := Stop(View());
      running := false;
      phase := Stopping;
      cancelled := if liveJob.Some? then cancelled + {liveJob.value} else cancelled;
      pending := queue;
      queue := [];
      doomed, early := stopped.doomed, stopped.early;
    }

    /** Fails one job taken out of the queue, then closes its stream. */
    method FailPending(job: JobId)
      requires job in doomed && View().Accepted(job)
      modifies this`events, this`doomed, this`dying
      ensures View() == Apply(old(View()), DrainPush(job))
    {
      events := events[job := events[job] + [Finished]];
      doomed, dying := doomed - {job}, dying + {job};
    }

    method ClosePending(job: JobId)
      requires job in dying
      modifies this`closed, this`dying
      ensures View() == Apply(old(View()), DrainClose(job))
    {
      closed, dying := closed + {job}, dying - {job};
    }
  }

  lemma LiveIsNotQueued(s: State, job: JobId)
    requires Inv(s) && s.live == Some(job)
    ensures job !in s.queue
  {
    hide Runs, Lifecycle, EndsOnce, NoTerminal, Drains;
    assert Held(s.worker, job) && Mentions(s, job);
    assert Placed(s, job);
  }
}
