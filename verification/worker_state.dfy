/**
 * The state the forward worker shares between its loops: the ledger of relayed
 * messages, the per-session log counters and the in-memory retry queue, plus
 * the classified outcomes of a `copy_message` call.
 */
module WorkerState {
  import opened Wrappers
  import opened Documents
  import DedupKey

  /** Attempts allowed per delivery, both inline and in the background queue. */
  const MaxRetries: nat := 5
  /** First inline back-off, in seconds; it doubles after each bounded failure. */
  const InitialBackoff: nat := 1
  /** Wait used when a FloodWait error carries no (or a zero) wait value. */
  const FloodWaitDefault: int := 30
  /** Pause before a job whose session is not running is put back. */
  const MissingClientPause: nat := 5

  /**
   * The classified result of one `copy_message` call: it returned, or it raised
   * FloodWait (with its optional `value`), RetryAfter, MessageTooLong, another
   * RPC error, or a non-RPC exception.
   */
  datatype Outcome = Copied | FloodWait(value: Option<int>) | RetryAfter | MessageTooLong | OtherRpc | Generic

  datatype Message = Message(chatId: int, messageId: int)

  datatype ForwardedRecord = ForwardedRecord(sourceChat: int, sourceMessage: int)

  /** A queued delivery; `clientName` is the session name of the client that first tried it. */
  datatype RetryJob = RetryJob(clientName: string, chatId: int, messageId: int, target: ChannelRef, key: string, attempts: nat)

  datatype SessionLog = SessionLog(success: nat, errors: nat)

  /** Ledger (by dedup key), session logs (by document id) and the FIFO retry queue. */
  datatype Store = Store(ledger: map<string, ForwardedRecord>, logs: map<string, SessionLog>, queue: seq<RetryJob>)

  /** A running client: the session name it was built with and the credential kind it uses. */
  datatype Conn = Conn(sessionName: string, kind: SessionKind)

  /** The session names of the running clients, as the queue processor searches them. */
  function LiveNames(running: map<string, Conn>): (names: set<string>)
    ensures forall sid :: sid in running ==> running[sid].sessionName in names
    ensures forall n :: n in names ==> exists sid :: sid in running && running[sid].sessionName == n
  {
    set sid | sid in running :: running[sid].sessionName
  }

  /** A timed wait the worker performs, in seconds. */
  datatype Sleep = FloodPause(seconds: int) | Backoff(seconds: int) | Pause(seconds: int)

  function MessageKey(m: Message): string {
    DedupKey.Key(m.chatId, m.messageId)
  }

  /** `getattr(e, 'value', None) or 30`: a missing or zero value means thirty seconds. */
  function FloodWaitSeconds(value: Option<int>): (w: int)
    ensures value.Some? && value.value != 0 ==> w == value.value
    ensures value.None? || value.value == 0 ==> w == FloodWaitDefault
  {
    match value
    case Some(v) => if v != 0 then v else FloodWaitDefault
    case None => FloodWaitDefault
  }

  /** A session's log document; an upsert on a missing document starts from zero. */
  function LogOf(logs: map<string, SessionLog>, id: string): SessionLog {
    if id in logs then logs[id] else SessionLog(0, 0)
  }

  /** `$inc {success: 1}` with upsert. */
  function CountSuccess(st: Store, id: string): (r: Store)
    ensures r.ledger == st.ledger && r.queue == st.queue
    ensures LogOf(r.logs, id) == SessionLog(LogOf(st.logs, id).success + 1, LogOf(st.logs, id).errors)
    ensures forall other :: other != id ==> LogOf(r.logs, other) == LogOf(st.logs, other)
  {
    var l := LogOf(st.logs, id);
    st.(logs := st.logs[id := SessionLog(l.success + 1, l.errors)])
  }

  /** `$inc {errors: n}` with upsert (the model folds n single increments into one). */
  function CountErrors(st: Store, id: string, n: nat): (r: Store)
    ensures r.ledger == st.ledger && r.queue == st.queue
    ensures LogOf(r.logs, id) == SessionLog(LogOf(st.logs, id).success, LogOf(st.logs, id).errors + n)
    ensures forall other :: other != id ==> LogOf(r.logs, other) == LogOf(st.logs, other)
  {
    var l := LogOf(st.logs, id);
    st.(logs := st.logs[id := SessionLog(l.success, l.errors + n)])
  }

  /** `forwarded.insert_one(...)` on a key known to be absent. */
  function Record(st: Store, key: string, chatId: int, messageId: int): (r: Store)
    requires key !in st.ledger
    ensures r.ledger == st.ledger[key := ForwardedRecord(chatId, messageId)]
    ensures r.logs == st.logs && r.queue == st.queue
  {
    st.(ledger := st.ledger[key := ForwardedRecord(chatId, messageId)])
  }

  /** `queue.put(job)`. */
  function Enqueue(st: Store, job: RetryJob): (r: Store)
    ensures r.queue == st.queue + [job]
    ensures r.ledger == st.ledger && r.logs == st.logs
  {
    st.(queue := st.queue + [job])
  }

  /**
   * `after` is `before` with `success` raised by `ds` and `errors` by `de` on
   * session `id`, and every other session's log as it was.
   */
  ghost predicate LogsShift(before: map<string, SessionLog>, after: map<string, SessionLog>, id: string, ds: nat, de: nat) {
    && LogOf(after, id) == SessionLog(LogOf(before, id).success + ds, LogOf(before, id).errors + de)
    && forall other :: other != id ==> LogOf(after, other) == LogOf(before, other)
  }

  /** The ledger only ever gains entries; no entry is changed or removed. */
  predicate LedgerExtends(before: Store, after: Store) {
    && before.ledger.Keys <= after.ledger.Keys
    && forall k :: k in before.ledger ==> after.ledger[k] == before.ledger[k]
  }
}
