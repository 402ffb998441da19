/**
 * The reconciliation pass of the forward worker: start a client for every
 * stored session that is not running, then stop every running client whose
 * session is gone. Starting a client (decrypting its credential and
 * connecting) is abstracted by `failing`, the ids whose start would raise;
 * such a raise leaves `_sync_sessions` at once.
 */
module SessionSync {
  import opened Wrappers
  import opened Documents
  import opened WorkerState

  /** At most this many session documents are read per pass (`to_list(length=500)`). */
  const SyncPageLimit: nat := 500
  /** Seconds between passes of the refresh loop. */
  const RefreshInterval: nat := 20

  /** `f'sess-{sid[:8]}'`: the client name, and so the key of its forward counters. */
  function SessionName(sid: string): string {
    "sess-" + sid[..if |sid| < 8 then |sid| else 8]
  }

  /** The first eight characters of an id (all of it when shorter). */
  function Prefix8(sid: string): string {
    sid[..if |sid| < 8 then |sid| else 8]
  }

  /** Two sessions get the same client name exactly when their ids share the first eight characters. */
  lemma SessionNameIff(a: string, b: string)
    ensures SessionName(a) == SessionName(b) <==> Prefix8(a) == Prefix8(b)
  {
    if SessionName(a) == SessionName(b) {
      assert SessionName(a)[5..] == Prefix8(a);
      assert SessionName(b)[5..] == Prefix8(b);
    }
  }

  /** The documents one pass reads. */
  function Page(docs: seq<SessionDoc>): (page: seq<SessionDoc>)
    ensures |page| == if |docs| < SyncPageLimit then |docs| else SyncPageLimit
    ensures page == docs[..|page|]
  {
    if |docs| < SyncPageLimit then docs else docs[..SyncPageLimit]
  }

  function Ids(docs: seq<SessionDoc>): set<string> {
    set i | 0 <= i < |docs| :: docs[i].id
  }

  /** The ids the pass wants running. */
  function DesiredIds(docs: seq<SessionDoc>): set<string> {
    Ids(Page(docs))
  }

  /**
   * The outcome of a pass: the running clients and store after it, the ids
   * started (in order), the ids stopped, and the id whose start raised, if any.
   */
  datatype SyncResult = SyncResult(running: map<string, Conn>, store: Store, started: seq<string>, stopped: set<string>, failed: Option<string>)

  /** The log reset done once a client has started (`$set errors 0, success 0` under the session id). */
  function StartLog(st: Store, sid: string): (r: Store)
    ensures r.ledger == st.ledger && r.queue == st.queue
    ensures LogOf(r.logs, sid) == SessionLog(0, 0)
    ensures forall k :: k != sid ==> LogOf(r.logs, k) == LogOf(st.logs, k)
  {
    st.(logs := st.logs[sid := SessionLog(0, 0)])
  }

  /** The start phase stops nothing, keeps the ledger and queue, and leaves running clients alone. */
  ghost predicate StartFrame(running: map<string, Conn>, st: Store, r: SyncResult)
  {
    && r.stopped == {}
    && r.store.ledger == st.ledger && r.store.queue == st.queue
    && running.Keys <= r.running.Keys
    && (forall k :: k in running ==> r.running[k] == running[k])
  }

  /** Every client it adds comes from a document, is not failing, was started and had its log reset. */
  ghost predicate StartNew(running: map<string, Conn>, docs: seq<SessionDoc>, failing: set<string>, r: SyncResult)
  {
    forall k :: k in r.running && k !in running ==>
      && k !in failing
      && k in r.started
      && LogOf(r.store.logs, k) == SessionLog(0, 0)
      && exists i :: 0 <= i < |docs| && docs[i].id == k && r.running[k] == Conn(SessionName(k), docs[i].kind)
  }

  /** Only started ids are new, and only their logs change. */
  ghost predicate StartedOnly(running: map<string, Conn>, st: Store, r: SyncResult)
  {
    && (forall j :: 0 <= j < |r.started| ==> r.started[j] in r.running && r.started[j] !in running)
    && (forall k :: k !in r.started ==> LogOf(r.store.logs, k) == LogOf(st.logs, k))
  }

  /** Either every document's client runs, or the phase stopped at a failing id. */
  ghost predicate StartOutcome(running: map<string, Conn>, docs: seq<SessionDoc>, failing: set<string>, r: SyncResult)
  {
    && (r.failed.None? ==> r.running.Keys == running.Keys + Ids(docs))
    && (r.failed.Some? ==>
          && r.failed.value in failing && r.failed.value in Ids(docs)
          && r.failed.value !in r.running
          && r.running.Keys <= running.Keys + Ids(docs))
  }

  /** What the start phase promises about a run over `docs` from `running`. */
  ghost predicate StartSpec(running: map<string, Conn>, st: Store, docs: seq<SessionDoc>, failing: set<string>, r: SyncResult)
  {
    && StartFrame(running, st, r)
    && StartNew(running, docs, failing, r)
    && StartedOnly(running, st, r)
    && StartOutcome(running, docs, failing, r)
  }

  lemma IdsCons(docs: seq<SessionDoc>)
    requires |docs| > 0
    ensures Ids(docs) == {docs[0].id} + Ids(docs[1..])
  {
    forall k | k in Ids(docs) ensures k in {docs[0].id} + Ids(docs[1..]) {
      var i :| 0 <= i < |docs| && docs[i].id == k;
      if i > 0 { assert docs[1..][i - 1].id == k; }
    }
  }

  /** Skipping a document whose client already runs keeps the start-phase promise. */
  lemma SkipKeepsSpec(running: map<string, Conn>, st: Store, docs: seq<SessionDoc>, failing: set<string>, r: SyncResult)
    requires |docs| > 0 && docs[0].id in running
    requires StartSpec(running, st, docs[1..], failing, r)
    ensures StartSpec(running, st, docs, failing, r)
  {
    IdsCons(docs);
    forall k | k in r.running && k !in running
      ensures exists i :: 0 <= i < |docs| && docs[i].id == k && r.running[k] == Conn(SessionName(k), docs[i].kind)
    {
      var i :| 0 <= i < |docs[1..]| && docs[1..][i].id == k && r.running[k] == Conn(SessionName(k), docs[1..][i].kind);
      assert docs[i + 1] == docs[1..][i];
    }
  }

  /** The running map with the first document's client added. */
  function StartFirst(running: map<string, Conn>, docs: seq<SessionDoc>): map<string, Conn>
    requires |docs| > 0
  {
    running[docs[0].id := Conn(SessionName(docs[0].id), docs[0].kind)]
  }

  lemma StartKeepsFrame(running: map<string, Conn>, st: Store, docs: seq<SessionDoc>, rest: SyncResult)
    requires |docs| > 0 && docs[0].id !in running
    requires StartFrame(StartFirst(running, docs), StartLog(st, docs[0].id), rest)
    ensures StartFrame(running, st, rest.(started := [docs[0].id] + rest.started))
  {
  }

  lemma StartKeepsNew(running: map<string, Conn>, st: Store, docs: seq<SessionDoc>, failing: set<string>, rest: SyncResult)
    requires |docs| > 0 && docs[0].id !in running && docs[0].id !in failing
    requires StartFrame(StartFirst(running, docs), StartLog(st, docs[0].id), rest)
    requires StartNew(StartFirst(running, docs), docs[1..], failing, rest)
    requires StartedOnly(StartFirst(running, docs), StartLog(st, docs[0].id), rest)
    ensures StartNew(running, docs, failing, rest.(started := [docs[0].id] + rest.started))
  {
    var d := docs[0];
    var r := rest.(started := [d.id] + rest.started);
    forall k | k in r.running && k !in running
      ensures && k !in failing && k in r.started && LogOf(r.store.logs, k) == SessionLog(0, 0)
              && exists i :: 0 <= i < |docs| && docs[i].id == k && r.running[k] == Conn(SessionName(k), docs[i].kind)
    {
      if k != d.id {
        var i :| 0 <= i < |docs[1..]| && docs[1..][i].id == k && r.running[k] == Conn(SessionName(k), docs[1..][i].kind);
        assert docs[i + 1] == docs[1..][i];
      } else {
        assert r.running[k] == StartFirst(running, docs)[k];
        assert docs[0].id == k;
        if k !in rest.started {
          assert LogOf(rest.store.logs, k) == LogOf(StartLog(st, d.id).logs, k);
        }
      }
    }
  }

  lemma StartKeepsStarted(running: map<string, Conn>, st: Store, docs: seq<SessionDoc>, rest: SyncResult)
    requires |docs| > 0 && docs[0].id !in running
    requires StartFrame(StartFirst(running, docs), StartLog(st, docs[0].id), rest)
    requires StartedOnly(StartFirst(running, docs), StartLog(st, docs[0].id), rest)
    ensures StartedOnly(running, st, rest.(started := [docs[0].id] + rest.started))
  {
    var r := rest.(started := [docs[0].id] + rest.started);
    forall j | 0 <= j < |r.started| ensures r.started[j] in r.running && r.started[j] !in running {
      if j > 0 { assert r.started[j] == rest.started[j - 1]; }
    }
  }

  lemma StartKeepsOutcome(running: map<string, Conn>, docs: seq<SessionDoc>, failing: set<string>, rest: SyncResult)
    requires |docs| > 0
    requires StartOutcome(StartFirst(running, docs), docs[1..], failing, rest)
    ensures StartOutcome(running, docs, failing, rest.(started := [docs[0].id] + rest.started))
  {
    IdsCons(docs);
  }

  /**
   * A failed start phase stopped at document `j`: that document's client was
   * missing and its start raised, no missing document before it fails to
   * start, and exactly the documents before it were added.
   */
  ghost predicate StopsAt(running: map<string, Conn>, docs: seq<SessionDoc>, failing: set<string>, r: SyncResult, j: int)
  {
    && 0 <= j < |docs|
    && r.failed == Some(docs[j].id)
    && docs[j].id !in running
    && (forall k :: 0 <= k < j && docs[k].id !in running ==> docs[k].id !in failing)
    && r.running.Keys == running.Keys + Ids(docs[..j])
  }

  /** A raise ends the phase at the first missing document whose start fails. */
  ghost predicate StartStop(running: map<string, Conn>, docs: seq<SessionDoc>, failing: set<string>, r: SyncResult)
  {
    r.failed.Some? ==> exists j :: StopsAt(running, docs, failing, r, j)
  }

  lemma IdsPrefixCons(docs: seq<SessionDoc>, j: nat)
    requires j < |docs|
    ensures Ids(docs[..j + 1]) == {docs[0].id} + Ids(docs[1..][..j])
  {
    IdsCons(docs[..j + 1]);
    assert docs[..j + 1][1..] == docs[1..][..j];
  }

  lemma FailStops(running: map<string, Conn>, st: Store, docs: seq<SessionDoc>, failing: set<string>)
    requires |docs| > 0 && docs[0].id !in running
    ensures StartStop(running, docs, failing, SyncResult(running, st, [], {}, Some(docs[0].id)))
  {
    assert docs[..0] == [];
    assert StopsAt(running, docs, failing, SyncResult(running, st, [], {}, Some(docs[0].id)), 0);
  }

  lemma SkipKeepsStop(running: map<string, Conn>, docs: seq<SessionDoc>, failing: set<string>, r: SyncResult)
    requires |docs| > 0 && docs[0].id in running
    requires StartStop(running, docs[1..], failing, r)
    ensures StartStop(running, docs, failing, r)
  {
    if r.failed.Some? {
      var j :| StopsAt(running, docs[1..], failing, r, j);
      IdsPrefixCons(docs, j);
      assert docs[j + 1] == docs[1..][j];
      forall k | 0 <= k < j + 1 && docs[k].id !in running ensures docs[k].id !in failing {
        assert docs[k] == docs[1..][k - 1];
      }
      assert StopsAt(running, docs, failing, r, j + 1);
    }
  }

  lemma StartKeepsStop(running: map<string, Conn>, docs: seq<SessionDoc>, failing: set<string>, rest: SyncResult)
    requires |docs| > 0 && docs[0].id !in running && docs[0].id !in failing
    requires StartStop(StartFirst(running, docs), docs[1..], failing, rest)
    ensures StartStop(running, docs, failing, rest.(started := [docs[0].id] + rest.started))
  {
    var r := rest.(started := [docs[0].id] + rest.started);
    if r.failed.Some? {
      var j :| StopsAt(StartFirst(running, docs), docs[1..], failing, rest, j);
      IdsPrefixCons(docs, j);
      assert docs[j + 1] == docs[1..][j];
      forall k | 0 <= k < j + 1 && docs[k].id !in running ensures docs[k].id !in failing {
        if k > 0 && docs[k].id != docs[0].id {
          assert docs[k] == docs[1..][k - 1];
        }
      }
      assert StopsAt(running, docs, failing, r, j + 1);
    }
  }

  /** A start that succeeds, followed by the rest of the phase, keeps the start-phase promise. */
  lemma StartKeepsSpec(running: map<string, Conn>, st: Store, docs: seq<SessionDoc>, failing: set<string>, rest: SyncResult)
    requires |docs| > 0 && docs[0].id !in running && docs[0].id !in failing
    requires StartSpec(StartFirst(running, docs), StartLog(st, docs[0].id), docs[1..], failing, rest)
    ensures StartSpec(running, st, docs, failing, rest.(started := [docs[0].id] + rest.started))
  {
    StartKeepsFrame(running, st, docs, rest);
    StartKeepsNew(running, st, docs, failing, rest);
    StartKeepsStarted(running, st, docs, rest);
    StartKeepsOutcome(running, docs, failing, rest);
  }

  /** The first loop of `_sync_sessions`, over the documents in order. */
  function StartAll(running: map<string, Conn>, st: Store, docs: seq<SessionDoc>, failing: set<string>): (r: SyncResult)
    ensures StartSpec(running, st, docs, failing, r)
    ensures StartStop(running, docs, failing, r)
    decreases |docs|
  {
    if |docs| == 0 then SyncResult(running, st, [], {}, None)
    else
      var d := docs[0];
      IdsCons(docs);
      if d.id in running then
        var rest := StartAll(running, st, docs[1..], failing);
        SkipKeepsSpec(running, st, docs, failing, rest);
        SkipKeepsStop(running, docs, failing, rest);
        rest
      else if d.id in failing then
        FailStops(running, st, docs, failing);
        SyncResult(running, st, [], {}, Some(d.id))
      else
        var rest := StartAll(StartFirst(running, docs), StartLog(st, d.id), docs[1..], failing);
        StartKeepsSpec(running, st, docs, failing, rest);
        StartKeepsStop(running, docs, failing, rest);
        rest.(started := [d.id] + rest.started)
  }

  /**
   * The phase ends at the first missing document whose start fails, having
   * added exactly the documents before it.
   */
  lemma StartStopsAtFirstFailure(running: map<string, Conn>, st: Store, docs: seq<SessionDoc>, failing: set<string>, j: nat)
    requires j < |docs| && docs[j].id !in running && docs[j].id in failing
    requires forall k :: 0 <= k < j ==> docs[k].id in running || docs[k].id !in failing
    ensures StartAll(running, st, docs, failing).failed == Some(docs[j].id)
    ensures StartAll(running, st, docs, failing).running.Keys == running.Keys + Ids(docs[..j])
  {
    var r := StartAll(running, st, docs, failing);
    assert docs[j].id in Ids(docs);
    if r.failed.None? {
      assert false;
    }
    var j' :| StopsAt(running, docs, failing, r, j');
    if j' != j {
      assert false;
    }
  }

  /** The start-phase facts `_sync_sessions` relies on, read off `StartSpec`. */
  lemma StartFacts(running: map<string, Conn>, st: Store, page: seq<SessionDoc>, failing: set<string>)
    ensures var s := StartAll(running, st, page, failing);
            && (forall k :: k in s.running && k !in running ==>
                  && k !in failing && k in Ids(page) && k in s.started
                  && s.running[k].sessionName == SessionName(k)
                  && LogOf(s.store.logs, k) == SessionLog(0, 0))
            && ((forall k :: k in Ids(page) && k !in running ==> k !in failing) ==> s.failed.None?)
            && (forall k :: k !in s.started ==> LogOf(s.store.logs, k) == LogOf(st.logs, k))
  {
    var s := StartAll(running, st, page, failing);
    forall k | k in s.running && k !in running
      ensures k in Ids(page) && s.running[k].sessionName == SessionName(k)
    {
      var i :| 0 <= i < |page| && page[i].id == k && s.running[k] == Conn(SessionName(k), page[i].kind);
    }
  }

  /**
   * `_sync_sessions`. Without a start failure the running ids become exactly
   * the desired ids; with one, nothing is stopped and the pass ends at the
   * first missing document whose start fails, every missing document before it
   * having been started. Only the logs of started ids change. Clients present before and still desired are never touched,
   * and a client enters the map only once its start has succeeded.
   */
  function SyncSessions(running: map<string, Conn>, st: Store, docs: seq<SessionDoc>, failing: set<string>): (r: SyncResult)
    ensures r.store.ledger == st.ledger && r.store.queue == st.queue
    ensures forall k :: k in running && k in DesiredIds(docs) ==> k in r.running && r.running[k] == running[k]
    ensures forall k :: k in r.running && k !in running ==>
              && k !in failing && k in DesiredIds(docs)
              && r.running[k].sessionName == SessionName(k)
              && LogOf(r.store.logs, k) == SessionLog(0, 0)
    ensures forall k :: k in r.running ==> k in running || k in r.started
    ensures r.failed.None? ==> r.running.Keys == DesiredIds(docs) && r.stopped == running.Keys - DesiredIds(docs)
    ensures r.failed.Some? ==>
              && r.failed.value in failing && r.failed.value in DesiredIds(docs) && r.failed.value !in r.running
              && r.stopped == {} && running.Keys <= r.running.Keys
    ensures r.failed.Some? ==> StartStop(running, Page(docs), failing, r)
    ensures (forall k :: k in DesiredIds(docs) && k !in running ==> k !in failing) ==> r.failed.None?
    ensures forall k :: k !in r.started ==> LogOf(r.store.logs, k) == LogOf(st.logs, k)
  {
    var page := Page(docs);
    var s := StartAll(running, st, page, failing);
    StartFacts(running, st, page, failing);
    if s.failed.Some? then s
    else
      var desired := Ids(page);
      SyncResult(map k | k in s.running && k in desired :: s.running[k], s.store, s.started, running.Keys - desired, None)
  }

  /** A pass with no start failure reaches a fixed point: the next pass over the same documents starts and stops nothing. */
  lemma SyncIsIdempotent(running: map<string, Conn>, st: Store, docs: seq<SessionDoc>, failing: set<string>, failing': set<string>)
    requires SyncSessions(running, st, docs, failing).failed.None?
    ensures var r := SyncSessions(running, st, docs, failing);
            var r' := SyncSessions(r.running, r.store, docs, failing');
            r'.running == r.running && r'.started == [] && r'.stopped == {} && r'.failed.None?
  {
    var r := SyncSessions(running, st, docs, failing);
    var page := Page(docs);
    assert r.running.Keys == Ids(page);
    assert forall i :: 0 <= i < |page| ==> page[i].id in r.running by {
      forall i | 0 <= i < |page| ensures page[i].id in Ids(page) { }
    }
    NothingToStart(r.running, r.store, page, failing');
    KeepDesired(r.running, Ids(page));
  }

  /** Keeping the desired entries of a map whose keys are exactly the desired ids keeps the whole map. */
  lemma KeepDesired(m: map<string, Conn>, desired: set<string>)
    requires m.Keys == desired
    ensures (map k | k in m && k in desired :: m[k]) == m
    ensures m.Keys - desired == {}
  {
  }

  /** When every document is already running, the start phase changes nothing. */
  lemma {:induction false} NothingToStart(running: map<string, Conn>, st: Store, docs: seq<SessionDoc>, failing: set<string>)
    requires forall i :: 0 <= i < |docs| ==> docs[i].id in running
    ensures StartAll(running, st, docs, failing) == SyncResult(running, st, [], {}, None)
    decreases |docs|
  {
    if |docs| > 0 {
      NothingToStart(running, st, docs[1..], failing);
    }
  }
}
