/**
 * The background queue processor: one job per step, with a hard attempt
 * ceiling, a pause for jobs whose session is not running, and exponential
 * back-off between failed attempts.
 */
module RetryQueue {
  import opened Wrappers
  import opened Documents
  import opened WorkerState
  import opened Powers

  /** What one step did with the job at the head of the queue. */
  datatype QueueEvent = Idle | Dropped(job: RetryJob) | Parked(job: RetryJob) | Completed(job: RetryJob) | Retried(job: RetryJob)

  datatype QueueStep = QueueStep(store: Store, event: QueueEvent, calls: nat, copies: nat, sleeps: seq<Sleep>)

  /**
   * One iteration of `_process_queue`. `outcome` is what the single
   * `copy_message` call would return; an empty queue is a blocked `get()`,
   * which changes nothing.
   */
  function ProcessQueueStep(st: Store, running: map<string, Conn>, outcome: Outcome): (r: QueueStep)
    ensures |st.queue| == 0 ==> r == QueueStep(st, Idle, 0, 0, [])
    ensures |st.queue| > 0 && st.queue[0].attempts >= MaxRetries ==>
              && r.event == Dropped(st.queue[0])
              && r.store == st.(queue := st.queue[1..])
              && r.calls == 0 && r.sleeps == []
    ensures |st.queue| > 0 && st.queue[0].attempts < MaxRetries && st.queue[0].clientName !in LiveNames(running) ==>
              && r.event == Parked(st.queue[0])
              && r.store == st.(queue := st.queue[1..] + [st.queue[0]])
              && r.calls == 0 && r.sleeps == [Pause(MissingClientPause)]
    ensures |st.queue| > 0 && st.queue[0].attempts < MaxRetries && st.queue[0].clientName in LiveNames(running) ==>
              var job := st.queue[0];
              && r.calls == 1
              && r.copies == (if outcome.Copied? then 1 else 0)
              && (r.event.Completed? <==> outcome.Copied? && job.key !in st.ledger)
              && (r.event.Completed? ==>
                    && r.event == Completed(job)
                    && r.store.ledger == st.ledger[job.key := ForwardedRecord(job.chatId, job.messageId)]
                    && r.store.queue == st.queue[1..]
                    && LogsShift(st.logs, r.store.logs, job.clientName, 1, 0)
                    && r.sleeps == [])
              && (!r.event.Completed? ==>
                    && r.event == Retried(job.(attempts := job.attempts + 1))
                    && r.store.ledger == st.ledger
                    && r.store.queue == st.queue[1..] + [job.(attempts := job.attempts + 1)]
                    && LogsShift(st.logs, r.store.logs, job.clientName, 0, 1)
                    && r.sleeps == [Backoff(Pow2(job.attempts))])
  {
    if |st.queue| == 0 then QueueStep(st, Idle, 0, 0, [])
    else
      var job := st.queue[0];
      var rest := st.queue[1..];
      if job.attempts >= MaxRetries then QueueStep(st.(queue := rest), Dropped(job), 0, 0, [])
      else if job.clientName !in LiveNames(running) then
        QueueStep(st.(queue := rest + [job]), Parked(job), 0, 0, [Pause(MissingClientPause)])
      else
        var copies := if outcome.Copied? then 1 else 0;
        if outcome.Copied? && job.key !in st.ledger then
          var written := Record(st.(queue := rest), job.key, job.chatId, job.messageId);
          QueueStep(CountSuccess(written, job.clientName), Completed(job), 1, copies, [])
        else
          var again := job.(attempts := job.attempts + 1);
          QueueStep(Enqueue(CountErrors(st.(queue := rest), job.clientName, 1), again), Retried(again), 1, copies, [Backoff(Pow2(job.attempts))])
  }

  /**
   * Several iterations of `_process_queue` with the running clients fixed,
   * one outcome per iteration; the result is the final store and the number
   * of `copy_message` calls made.
   */
  function Run(st: Store, running: map<string, Conn>, outcomes: seq<Outcome>): (r: (Store, nat))
    decreases |outcomes|
  {
    if |outcomes| == 0 then (st, 0)
    else
      var step := ProcessQueueStep(st, running, outcomes[0]);
      var rest := Run(step.store, running, outcomes[1..]);
      (rest.0, step.calls + rest.1)
  }

  /**
   * However the calls turn out, a single queued job costs at most
   * `MaxRetries - attempts` further `copy_message` calls: every call either
   * completes it or raises its attempt count, and the ceiling drops it.
   */
  lemma {:induction false} SingleJobCallBudget(st: Store, running: map<string, Conn>, outcomes: seq<Outcome>)
    requires |st.queue| == 1 && st.queue[0].attempts <= MaxRetries
    ensures Run(st, running, outcomes).1 <= MaxRetries - st.queue[0].attempts
    ensures |Run(st, running, outcomes).0.queue| <= 1
    decreases |outcomes|
  {
    if |outcomes| > 0 {
      var step := ProcessQueueStep(st, running, outcomes[0]);
      if |step.store.queue| == 1 {
        SingleJobCallBudget(step.store, running, outcomes[1..]);
      } else {
        EmptyQueueIdles(step.store, running, outcomes[1..]);
      }
    }
  }

  /** With nothing queued, the processor only waits. */
  lemma {:induction false} EmptyQueueIdles(st: Store, running: map<string, Conn>, outcomes: seq<Outcome>)
    requires |st.queue| == 0
    ensures Run(st, running, outcomes) == (st, 0)
    decreases |outcomes|
  {
    if |outcomes| > 0 {
      EmptyQueueIdles(st, running, outcomes[1..]);
    }
  }

  /**
   * A job whose session is no longer running is put back unchanged, step after
   * step, and costs no call: it is never dropped while its session is gone.
   */
  lemma {:induction false} OrphanJobIsKept(st: Store, running: map<string, Conn>, outcomes: seq<Outcome>)
    requires |st.queue| == 1 && st.queue[0].attempts < MaxRetries
    requires st.queue[0].clientName !in LiveNames(running)
    ensures Run(st, running, outcomes) == (st, 0)
    decreases |outcomes|
  {
    if |outcomes| > 0 {
      var step := ProcessQueueStep(st, running, outcomes[0]);
      assert step.store == st;
      OrphanJobIsKept(st, running, outcomes[1..]);
    }
  }

  /**
   * A live job that keeps failing is retried until its attempt count reaches
   * the ceiling and then dropped, after exactly `MaxRetries - attempts` calls,
   * with nothing written to the ledger.
   */
  lemma {:induction false} FailingJobIsDropped(st: Store, running: map<string, Conn>, outcomes: seq<Outcome>)
    requires |st.queue| == 1 && st.queue[0].attempts <= MaxRetries
    requires st.queue[0].clientName in LiveNames(running)
    requires |outcomes| == MaxRetries - st.queue[0].attempts + 1
    requires forall i :: 0 <= i < |outcomes| ==> !outcomes[i].Copied?
    ensures Run(st, running, outcomes).0.queue == []
    ensures Run(st, running, outcomes).0.ledger == st.ledger
    ensures Run(st, running, outcomes).1 == MaxRetries - st.queue[0].attempts
    decreases |outcomes|
  {
    var step := ProcessQueueStep(st, running, outcomes[0]);
    if st.queue[0].attempts < MaxRetries {
      FailingJobIsDropped(step.store, running, outcomes[1..]);
    } else {
      EmptyQueueIdles(step.store, running, outcomes[1..]);
    }
  }
}
