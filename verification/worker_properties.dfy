/**
 * Properties of the forward worker that relate several operations: the inline
 * loop and the background queue together, dispatch repeated on the same
 * message, reconciliation followed by queue processing, and worked examples
 * of the retry schedule (FirstTrySuccess, TwoFloodWaitsThenSuccess,
 * BoundedFailuresSchedule).
 */
module WorkerProperties {
  import opened Wrappers
  import opened Documents
  import opened WorkerState
  import opened Powers
  import opened Delivery
  import opened RetryQueue
  import opened SessionSync

  // -------------------------------------------------------- back-off schedule

  lemma {:induction false} Pow2Grows(a: nat, b: nat)
    requires a < b
    ensures Pow2(b) >= 2 * Pow2(a)
    decreases b
  {
    if b > a + 1 {
      Pow2Grows(a, b - 1);
    }
  }

  /** A back-off sleep at `i` is counted among those before any later index. */
  lemma {:induction false} CountBackoffsAfter(s: seq<Sleep>, i: nat, j: nat)
    requires i < j <= |s| && s[i].Backoff?
    ensures CountBackoffs(s[..j]) >= CountBackoffs(s[..i]) + 1
    decreases j
  {
    assert s[..j][..j - 1] == s[..j - 1];
    if j - 1 > i {
      CountBackoffsAfter(s, i, j - 1);
    } else {
      assert s[..j][j - 1] == s[i];
    }
  }

  /** Each back-off sleep of the inline loop is at least twice every earlier one. */
  lemma BackoffsAtLeastDouble(st: Store, d: Delivery, outcomes: seq<Outcome>, i: nat, j: nat)
    requires |outcomes| >= MaxRetries
    requires var r := AttemptForward(st, d, outcomes);
             i < j < |r.sleeps| && r.sleeps[i].Backoff? && r.sleeps[j].Backoff?
    ensures var r := AttemptForward(st, d, outcomes);
            r.sleeps[j].seconds >= 2 * r.sleeps[i].seconds
  {
    var r := AttemptForward(st, d, outcomes);
    CountBackoffsAfter(r.sleeps, i, j);
    Pow2Grows(CountBackoffs(r.sleeps[..i]), CountBackoffs(r.sleeps[..j]));
  }

  predicate BoundedFailure(o: Outcome) {
    o.RetryAfter? || o.MessageTooLong? || o.Generic?
  }

  lemma {:induction false} AllBackoffsCount(s: seq<Sleep>, j: nat)
    requires j <= |s|
    requires forall k :: 0 <= k < j ==> s[k].Backoff?
    ensures CountBackoffs(s[..j]) == j
    decreases j
  {
    if j > 0 {
      assert s[..j][..j - 1] == s[..j - 1];
      AllBackoffsCount(s, j - 1);
    }
  }

  /**
   * Five bounded failures in a row: the loop sleeps 1, 2, 4, 8 and 16 seconds
   * and queues the message with five attempts, writing nothing to the ledger.
   */
  lemma BoundedFailuresSchedule(st: Store, d: Delivery, outcomes: seq<Outcome>)
    requires |outcomes| >= MaxRetries
    requires forall j :: 0 <= j < MaxRetries ==> BoundedFailure(outcomes[j])
    ensures var r := AttemptForward(st, d, outcomes);
            && r.final == Deferred(JobFor(d, MaxRetries))
            && r.calls == MaxRetries
            && r.sleeps == [Backoff(1), Backoff(2), Backoff(4), Backoff(8), Backoff(16)]
            && r.store.ledger == st.ledger
  {
    var r := AttemptForward(st, d, outcomes);
    var n := r.calls;
    assert !outcomes[n - 1].Copied? && !outcomes[n - 1].OtherRpc?;
    assert n == MaxRetries && |r.sleeps| == MaxRetries;
    DoublingSchedule(outcomes, r.sleeps);
    assert Pow2(1) == 2 && Pow2(2) == 4 && Pow2(3) == 8 && Pow2(4) == 16;
    assert r.sleeps[0] == Backoff(1) && r.sleeps[1] == Backoff(2) && r.sleeps[2] == Backoff(4);
    assert r.sleeps[3] == Backoff(8) && r.sleeps[4] == Backoff(16);
  }

  /** Sleeps that fit outcomes without a FloodWait among them are the doubling schedule 1, 2, 4, ... */
  lemma DoublingSchedule(outcomes: seq<Outcome>, sleeps: seq<Sleep>)
    requires |sleeps| <= |outcomes|
    requires forall j :: 0 <= j < |sleeps| ==> !outcomes[j].FloodWait?
    requires forall j :: 0 <= j < |sleeps| ==> SleepFits(outcomes[j], sleeps[j], CountBackoffs(sleeps[..j]))
    ensures forall k :: 0 <= k < |sleeps| ==> sleeps[k] == Backoff(Pow2(k))
  {
    forall k | 0 <= k < |sleeps| ensures sleeps[k] == Backoff(Pow2(k)) {
      forall m | 0 <= m < k ensures sleeps[m].Backoff? {
        assert SleepFits(outcomes[m], sleeps[m], CountBackoffs(sleeps[..m]));
      }
      AllBackoffsCount(sleeps, k);
    }
  }

  /**
   * Five FloodWait errors in a row also exhaust the loop: the wait is taken
   * but the attempt is still counted, so the message is queued with five
   * attempts after sleeping each platform-mandated wait.
   */
  lemma FloodWaitCountsAgainstBudget(st: Store, d: Delivery, outcomes: seq<Outcome>)
    requires |outcomes| >= MaxRetries
    requires forall j :: 0 <= j < MaxRetries ==> outcomes[j].FloodWait?
    ensures var r := AttemptForward(st, d, outcomes);
            && r.final == Deferred(JobFor(d, MaxRetries))
            && r.calls == MaxRetries
            && |r.sleeps| == MaxRetries
            && forall j :: 0 <= j < MaxRetries ==> r.sleeps[j] == FloodPause(FloodWaitSeconds(outcomes[j].value))
  {
    var r := AttemptForward(st, d, outcomes);
  }

  // -------------------------------------------- inline loop and queue together

  /**
   * The inline loop and the background queue share one budget: counting the
   * calls the loop made and every call the queue later makes for the job it
   * queued, a message is copied at most `MaxRetries` times.
   */
  lemma SharedCallBudget(st: Store, d: Delivery, outcomes: seq<Outcome>, running: map<string, Conn>, later: seq<Outcome>)
    requires |outcomes| >= MaxRetries && st.queue == []
    requires AttemptForward(st, d, outcomes).final.Deferred?
    ensures var r := AttemptForward(st, d, outcomes);
            r.calls + Run(r.store, running, later).1 <= MaxRetries
  {
    var r := AttemptForward(st, d, outcomes);
    assert r.store.queue == [r.final.job];
    SingleJobCallBudget(r.store, running, later);
  }

  /** A job queued after five failed inline calls is dropped on its first dequeue, with no further call. */
  lemma ExhaustedJobIsDropped(st: Store, d: Delivery, outcomes: seq<Outcome>, running: map<string, Conn>, next: Outcome)
    requires |outcomes| >= MaxRetries && st.queue == []
    requires forall j :: 0 <= j < MaxRetries ==> BoundedFailure(outcomes[j])
    ensures var r := AttemptForward(st, d, outcomes);
            var q := ProcessQueueStep(r.store, running, next);
            q.event == Dropped(JobFor(d, MaxRetries)) && q.calls == 0 && q.store.queue == [] && q.store.ledger == st.ledger
  {
    BoundedFailuresSchedule(st, d, outcomes);
  }

  // ----------------------------------------------------------- dispatch

  /** Handling a message only ever adds its own key to the ledger. */
  lemma OnMessageLedgerGrowth(st: Store, conf: Config, clientName: string, m: Message, outcomes: seq<Outcome>)
    requires |outcomes| >= MaxRetries
    ensures var r := OnMessage(st, conf, clientName, m, outcomes);
            && LedgerExtends(st, r.store)
            && r.store.ledger.Keys <= st.ledger.Keys + {MessageKey(m)}
            && (MessageKey(m) in r.store.ledger <==> MessageKey(m) in st.ledger || r.final.Delivered?)
  {
  }

  /**
   * Dispatch is idempotent once delivered: the same message seen again, by any
   * session and whatever the network would do, is discarded with no call.
   */
  lemma RepeatIsDiscarded(st: Store, conf: Config, c1: string, c2: string, m: Message, o1: seq<Outcome>, o2: seq<Outcome>)
    requires |o1| >= MaxRetries && |o2| >= MaxRetries
    requires OnMessage(st, conf, c1, m, o1).final.Delivered?
    ensures var r1 := OnMessage(st, conf, c1, m, o1);
            OnMessage(r1.store, conf, c2, m, o2) == Attempt(r1.store, Discarded(AlreadyForwarded), 0, 0, [])
  {
  }

  /** A fresh message is posted to the target at most once by one handler invocation, and exactly once iff it was delivered. */
  lemma FreshMessageCopiedAtMostOnce(st: Store, conf: Config, clientName: string, m: Message, outcomes: seq<Outcome>)
    requires |outcomes| >= MaxRetries
    ensures var r := OnMessage(st, conf, clientName, m, outcomes);
            r.copies <= 1 && (r.copies == 1 <==> r.final.Delivered?)
  {
  }

  // ------------------------------------------------- reconciliation and queue

  /** Every running client is named after its session id. */
  predicate WellNamed(running: map<string, Conn>) {
    forall k :: k in running ==> running[k].sessionName == SessionName(k)
  }

  /** Reconciliation keeps every client named after its session. */
  lemma SyncKeepsNames(running: map<string, Conn>, st: Store, docs: seq<SessionDoc>, failing: set<string>)
    requires WellNamed(running)
    ensures WellNamed(SyncSessions(running, st, docs, failing).running)
  {
  }

  /**
   * A session removed from the store while a job of its client is queued: once
   * a pass has stopped it (and no remaining session shares its name), the job
   * is put back unchanged at every step and never forwarded or dropped.
   */
  lemma RemovedSessionParksItsJobs(running: map<string, Conn>, st: Store, docs: seq<SessionDoc>,
                                   sid: string, job: RetryJob, outcomes: seq<Outcome>)
    requires WellNamed(running)
    requires SyncSessions(running, st, docs, {}).failed.None?
    requires forall k :: k in DesiredIds(docs) ==> Prefix8(k) != Prefix8(sid)
    requires job.clientName == SessionName(sid) && job.attempts < MaxRetries
    ensures var r := SyncSessions(running, st, docs, {});
            var parked := r.store.(queue := [job]);
            sid !in r.running && Run(parked, r.running, outcomes) == (parked, 0)
  {
    var r := SyncSessions(running, st, docs, {});
    SyncKeepsNames(running, st, docs, {});
    forall k | k in r.running ensures r.running[k].sessionName != SessionName(sid) {
      SessionNameIff(k, sid);
    }
    OrphanJobIsKept(r.store.(queue := [job]), r.running, outcomes);
  }

  // ------------------------------------------------------------ scenarios

  /** A first-try success writes one record, bumps the success counter once and sleeps never. */
  lemma FirstTrySuccess(st: Store, conf: Config, clientName: string, m: Message, outcomes: seq<Outcome>)
    requires |outcomes| >= MaxRetries && outcomes[0] == Copied
    requires Dispatch(conf, st.ledger, m).Success?
    ensures var r := OnMessage(st, conf, clientName, m, outcomes);
            && r.final == Delivered && r.calls == 1 && r.sleeps == []
            && r.store.ledger == st.ledger[MessageKey(m) := ForwardedRecord(m.chatId, m.messageId)]
            && r.store.queue == st.queue
            && LogsShift(st.logs, r.store.logs, clientName, 1, 0)
  {
  }

  /** Two ten-second FloodWaits, then success: twenty seconds of waiting, two errors logged, one record. */
  lemma TwoFloodWaitsThenSuccess(st: Store, conf: Config, clientName: string, m: Message, outcomes: seq<Outcome>)
    requires |outcomes| >= MaxRetries
    requires outcomes[0] == FloodWait(Some(10)) && outcomes[1] == FloodWait(Some(10)) && outcomes[2] == Copied
    requires Dispatch(conf, st.ledger, m).Success?
    ensures var r := OnMessage(st, conf, clientName, m, outcomes);
            && r.final == Delivered && r.calls == 3
            && r.sleeps == [FloodPause(10), FloodPause(10)]
            && r.store.ledger == st.ledger[MessageKey(m) := ForwardedRecord(m.chatId, m.messageId)]
            && LogsShift(st.logs, r.store.logs, clientName, 1, 2)
  {
    var r := OnMessage(st, conf, clientName, m, outcomes);
    assert MessageKey(m) !in st.ledger;
  }
}
