/**
 * The inbound-message handler of a live session: the dispatch filter, then the
 * inline forward-with-retry loop that ends in one ledger write or one queued
 * job. Network calls are replaced by a sequence of classified outcomes, one
 * per `copy_message` call, and sleeps are recorded instead of taken.
 */
module Delivery {
  import opened Wrappers
  import opened Documents
  import opened WorkerState
  import opened Powers
  import DedupKey

  /** Why the handler ignored a message. */
  datatype Discard = NoTarget | NotASource | AlreadyForwarded

  /** How one handler invocation ended. */
  datatype Final = Discarded(reason: Discard) | Delivered | Deferred(job: RetryJob)

  /**
   * The effect of one invocation: the new store, how it ended, how many
   * `copy_message` calls were made, how many of them actually posted the
   * message, and the sleeps taken, in order.
   */
  datatype Attempt = Attempt(store: Store, final: Final, calls: nat, copies: nat, sleeps: seq<Sleep>)

  /** What one forward is about: the session name, the message, the target and the dedup key. */
  datatype Delivery = Delivery(clientName: string, message: Message, target: ChannelRef, key: string)

  /** The loop variables of the inline retry loop. */
  datatype LoopState = LoopState(store: Store, attempt: nat, backoff: nat, copies: nat, sleeps: seq<Sleep>)

  function JobFor(d: Delivery, attempts: nat): RetryJob {
    RetryJob(d.clientName, d.message.chatId, d.message.messageId, d.target, d.key, attempts)
  }

  // ------------------------------------------------------------- dispatch

  /**
   * The filter in front of the retry loop: a target must be set, the message's
   * chat must be one of the sources, and its key must not be in the ledger.
   */
  function Dispatch(conf: Config, ledger: map<string, ForwardedRecord>, m: Message): (r: Result<(ChannelRef, string), Discard>)
    ensures r == Failure(NoTarget) <==> conf.target.None?
    ensures r == Failure(NotASource) <==> conf.target.Some? && Numeric(m.chatId) !in SourceChannels(conf.sources)
    ensures r == Failure(AlreadyForwarded) <==>
              conf.target.Some? && Numeric(m.chatId) in SourceChannels(conf.sources) && MessageKey(m) in ledger
    ensures r.Success? ==> r.value == (conf.target.value, MessageKey(m)) && MessageKey(m) !in ledger
  {
    if conf.target.None? then Failure(NoTarget)
    else if Numeric(m.chatId) !in SourceChannels(conf.sources) then Failure(NotASource)
    else
      var key := MessageKey(m);
      if key in ledger then Failure(AlreadyForwarded) else Success((conf.target.value, key))
  }

  // ----------------------------------------------------------- retry loop

  /** An outcome that leaves the loop at once: a copy whose record can be written, or an unclassified RPC error. */
  predicate Ends(o: Outcome, recorded: bool) {
    (o.Copied? && !recorded) || o.OtherRpc?
  }

  function CountBackoffs(sleeps: seq<Sleep>): nat
  {
    if |sleeps| == 0 then 0
    else CountBackoffs(sleeps[..|sleeps| - 1]) + (if sleeps[|sleeps| - 1].Backoff? then 1 else 0)
  }

  function CountCopied(os: seq<Outcome>): nat
  {
    if |os| == 0 then 0
    else CountCopied(os[..|os| - 1]) + (if os[|os| - 1].Copied? then 1 else 0)
  }

  /**
   * The sleep after a failed call: a FloodWait waits what the platform asked
   * for; every other retried failure waits 2^k seconds, k being the back-off
   * sleeps already taken.
   */
  predicate SleepFits(o: Outcome, s: Sleep, backoffsBefore: nat) {
    if o.FloodWait? then s == FloodPause(FloodWaitSeconds(o.value)) else s == Backoff(Pow2(backoffsBefore))
  }

  /** What the inline loop promises about a run that started from `s0`. */
  ghost predicate AttemptSpec(s0: Store, d: Delivery, outcomes: seq<Outcome>, r: Attempt)
  {
    var n := r.calls;
    var recorded := d.key in s0.ledger;
    && 1 <= n <= MaxRetries <= |outcomes|
    && (forall j :: 0 <= j < n - 1 ==> !Ends(outcomes[j], recorded))
    && (r.final.Delivered? <==> outcomes[n - 1].Copied? && !recorded)
    && (r.final.Deferred? <==> !r.final.Delivered?)
    && (r.final.Deferred? ==> r.final.job == JobFor(d, n) && (n == MaxRetries || outcomes[n - 1].OtherRpc?))
    && |r.sleeps| == (if Ends(outcomes[n - 1], recorded) then n - 1 else n)
    && (forall j :: 0 <= j < |r.sleeps| ==> SleepFits(outcomes[j], r.sleeps[j], CountBackoffs(r.sleeps[..j])))
    && r.copies == (if recorded then CountCopied(outcomes[..n]) else if r.final.Delivered? then 1 else 0)
    && (r.final.Delivered? ==>
          && r.store.ledger == s0.ledger[d.key := ForwardedRecord(d.message.chatId, d.message.messageId)]
          && r.store.queue == s0.queue
          && LogsShift(s0.logs, r.store.logs, d.clientName, 1, n - 1))
    && (r.final.Deferred? ==>
          && r.store.ledger == s0.ledger
          && r.store.queue == s0.queue + [r.final.job]
          && LogsShift(s0.logs, r.store.logs, d.clientName, 0, n))
  }

  /** The loop invariant of the inline retry loop, after `ls.attempt` failed calls. */
  ghost predicate LoopInv(s0: Store, d: Delivery, outcomes: seq<Outcome>, ls: LoopState)
  {
    var recorded := d.key in s0.ledger;
    && MaxRetries <= |outcomes|
    && ls.attempt <= MaxRetries
    && |ls.sleeps| == ls.attempt
    && (forall j :: 0 <= j < ls.attempt ==> !Ends(outcomes[j], recorded))
    && (forall j :: 0 <= j < ls.attempt ==> SleepFits(outcomes[j], ls.sleeps[j], CountBackoffs(ls.sleeps[..j])))
    && ls.backoff == Pow2(CountBackoffs(ls.sleeps))
    && ls.store.ledger == s0.ledger
    && ls.store.queue == s0.queue
    && LogsShift(s0.logs, ls.store.logs, d.clientName, 0, ls.attempt)
    && ls.copies == (if recorded then CountCopied(outcomes[..ls.attempt]) else 0)
  }

  lemma AppendSleep(sleeps: seq<Sleep>, s: Sleep)
    ensures CountBackoffs(sleeps + [s]) == CountBackoffs(sleeps) + (if s.Backoff? then 1 else 0)
    ensures forall j :: 0 <= j <= |sleeps| ==> (sleeps + [s])[..j] == sleeps[..j]
  {
    assert (sleeps + [s])[..|sleeps|] == sleeps;
  }

  lemma CopiedPrefix(outcomes: seq<Outcome>, n: nat)
    requires n < |outcomes|
    ensures CountCopied(outcomes[..n + 1]) == CountCopied(outcomes[..n]) + (if outcomes[n].Copied? then 1 else 0)
  {
    assert outcomes[..n + 1][..n] == outcomes[..n];
  }

  /** The sleep taken after a retried failure, given the back-off in force. */
  function SleepAfter(o: Outcome, backoff: nat): Sleep {
    if o.FloodWait? then FloodPause(FloodWaitSeconds(o.value)) else Backoff(backoff)
  }

  /** The loop state after a failed call that is retried. */
  function Retried(ls: LoopState, d: Delivery, o: Outcome): LoopState
  {
    LoopState(CountErrors(ls.store, d.clientName, 1), ls.attempt + 1,
              if o.FloodWait? then ls.backoff else ls.backoff * 2,
              ls.copies + (if o.Copied? then 1 else 0),
              ls.sleeps + [SleepAfter(o, ls.backoff)])
  }

  /** Appending the sleep the current back-off dictates keeps the sleep schedule. */
  lemma SleepsStep(outcomes: seq<Outcome>, sleeps: seq<Sleep>, backoff: nat, s: Sleep)
    requires |sleeps| < |outcomes|
    requires forall j :: 0 <= j < |sleeps| ==> SleepFits(outcomes[j], sleeps[j], CountBackoffs(sleeps[..j]))
    requires backoff == Pow2(CountBackoffs(sleeps))
    requires SleepFits(outcomes[|sleeps|], s, CountBackoffs(sleeps))
    ensures forall j :: 0 <= j < |sleeps| + 1 ==>
              SleepFits(outcomes[j], (sleeps + [s])[j], CountBackoffs((sleeps + [s])[..j]))
  {
    AppendSleep(sleeps, s);
  }

  lemma LogsStep(before: map<string, SessionLog>, mid: map<string, SessionLog>, id: string, n: nat, st: Store)
    requires LogsShift(before, mid, id, 0, n) && st.logs == mid
    ensures LogsShift(before, CountErrors(st, id, 1).logs, id, 0, n + 1)
  {
  }

  lemma RetriedSleeps(outcomes: seq<Outcome>, ls: LoopState, d: Delivery)
    requires ls.attempt == |ls.sleeps| < |outcomes|
    requires forall j :: 0 <= j < |ls.sleeps| ==> SleepFits(outcomes[j], ls.sleeps[j], CountBackoffs(ls.sleeps[..j]))
    requires ls.backoff == Pow2(CountBackoffs(ls.sleeps))
    ensures var next := Retried(ls, d, outcomes[ls.attempt]);
            && (forall j :: 0 <= j < next.attempt ==>
                  SleepFits(outcomes[j], next.sleeps[j], CountBackoffs(next.sleeps[..j])))
            && next.backoff == Pow2(CountBackoffs(next.sleeps))
  {
    var s := SleepAfter(outcomes[ls.attempt], ls.backoff);
    SleepsStep(outcomes, ls.sleeps, ls.backoff, s);
    AppendSleep(ls.sleeps, s);
  }

  lemma RetriedCounters(s0: Store, d: Delivery, outcomes: seq<Outcome>, ls: LoopState)
    requires ls.attempt < |outcomes|
    requires LogsShift(s0.logs, ls.store.logs, d.clientName, 0, ls.attempt)
    requires ls.copies == (if d.key in s0.ledger then CountCopied(outcomes[..ls.attempt]) else 0)
    requires !Ends(outcomes[ls.attempt], d.key in s0.ledger)
    ensures var next := Retried(ls, d, outcomes[ls.attempt]);
            && LogsShift(s0.logs, next.store.logs, d.clientName, 0, next.attempt)
            && next.copies == (if d.key in s0.ledger then CountCopied(outcomes[..next.attempt]) else 0)
  {
    LogsStep(s0.logs, ls.store.logs, d.clientName, ls.attempt, ls.store);
    CopiedPrefix(outcomes, ls.attempt);
  }

  lemma RetriedKeepsInv(s0: Store, d: Delivery, outcomes: seq<Outcome>, ls: LoopState)
    requires LoopInv(s0, d, outcomes, ls) && ls.attempt < MaxRetries
    requires !Ends(outcomes[ls.attempt], d.key in s0.ledger)
    ensures LoopInv(s0, d, outcomes, Retried(ls, d, outcomes[ls.attempt]))
  {
    RetriedSleeps(outcomes, ls, d);
    RetriedCounters(s0, d, outcomes, ls);
  }

  lemma ExhaustedMeetsSpec(s0: Store, d: Delivery, outcomes: seq<Outcome>, ls: LoopState)
    requires LoopInv(s0, d, outcomes, ls) && ls.attempt >= MaxRetries
    ensures AttemptSpec(s0, d, outcomes,
                        Attempt(Enqueue(ls.store, JobFor(d, ls.attempt)), Deferred(JobFor(d, ls.attempt)), ls.attempt, ls.copies, ls.sleeps))
  {
  }

  lemma DeliveredMeetsSpec(s0: Store, d: Delivery, outcomes: seq<Outcome>, ls: LoopState)
    requires LoopInv(s0, d, outcomes, ls) && ls.attempt < MaxRetries
    requires outcomes[ls.attempt].Copied? && d.key !in s0.ledger
    ensures AttemptSpec(s0, d, outcomes,
                        Attempt(CountSuccess(Record(ls.store, d.key, d.message.chatId, d.message.messageId), d.clientName),
                                Delivered, ls.attempt + 1, ls.copies + 1, ls.sleeps))
  {
  }

  lemma OtherRpcMeetsSpec(s0: Store, d: Delivery, outcomes: seq<Outcome>, ls: LoopState)
    requires LoopInv(s0, d, outcomes, ls) && ls.attempt < MaxRetries
    requires outcomes[ls.attempt].OtherRpc?
    ensures AttemptSpec(s0, d, outcomes,
                        Attempt(Enqueue(CountErrors(ls.store, d.clientName, 1), JobFor(d, ls.attempt + 1)),
                                Deferred(JobFor(d, ls.attempt + 1)), ls.attempt + 1, ls.copies, ls.sleeps))
  {
    CopiedPrefix(outcomes, ls.attempt);
  }

  /** One pass of `while attempt < MAX_RETRIES`, then the rest of the loop. */
  function Loop(s0: Store, d: Delivery, outcomes: seq<Outcome>, ls: LoopState): (r: Attempt)
    requires LoopInv(s0, d, outcomes, ls)
    ensures AttemptSpec(s0, d, outcomes, r)
    decreases MaxRetries - ls.attempt
  {
    if ls.attempt >= MaxRetries then
      var job := JobFor(d, ls.attempt);
      ExhaustedMeetsSpec(s0, d, outcomes, ls);
      Attempt(Enqueue(ls.store, job), Deferred(job), ls.attempt, ls.copies, ls.sleeps)
    else
      var o := outcomes[ls.attempt];
      if o.Copied? && d.key !in s0.ledger then
        DeliveredMeetsSpec(s0, d, outcomes, ls);
        var written := Record(ls.store, d.key, d.message.chatId, d.message.messageId);
        Attempt(CountSuccess(written, d.clientName), Delivered, ls.attempt + 1, ls.copies + 1, ls.sleeps)
      else if o.OtherRpc? then
        OtherRpcMeetsSpec(s0, d, outcomes, ls);
        var job := JobFor(d, ls.attempt + 1);
        Attempt(Enqueue(CountErrors(ls.store, d.clientName, 1), job), Deferred(job), ls.attempt + 1, ls.copies, ls.sleeps)
      else
        RetriedKeepsInv(s0, d, outcomes, ls);
        Loop(s0, d, outcomes, Retried(ls, d, o))
  }

  /**
   * `_attempt_forward`: at most `MaxRetries` copy calls, ending in exactly one
   * ledger write or exactly one queued job whose `attempts` is the number of
   * calls made. `outcomes[i]` is what the i-th call would return; the loop
   * never looks past the first `MaxRetries` of them.
   */
  function AttemptForward(st: Store, d: Delivery, outcomes: seq<Outcome>): (r: Attempt)
    requires |outcomes| >= MaxRetries
    ensures AttemptSpec(st, d, outcomes, r)
  {
    Loop(st, d, outcomes, LoopState(st, 0, InitialBackoff, 0, []))
  }

  /** The `on_message` handler: the dispatch filter, then the retry loop. */
  function OnMessage(st: Store, conf: Config, clientName: string, m: Message, outcomes: seq<Outcome>): (r: Attempt)
    requires |outcomes| >= MaxRetries
    ensures r.final.Discarded? <==> Dispatch(conf, st.ledger, m).Failure?
    ensures r.final.Discarded? ==> r.store == st && r.calls == 0 && r.copies == 0 && r.sleeps == []
    ensures !r.final.Discarded? ==>
              AttemptSpec(st, Delivery(clientName, m, conf.target.value, MessageKey(m)), outcomes, r)
  {
    match Dispatch(conf, st.ledger, m)
    case Failure(why) => Attempt(st, Discarded(why), 0, 0, [])
    case Success((target, key)) => AttemptForward(st, Delivery(clientName, m, target, key), outcomes)
  }
}
