# AFB1 forwarder and admin panel, modelled in Dafny

AFB1 is a Telegram relay. The forward worker (`forwarder.py`) runs one client per
stored session. It copies every new post of a configured source channel to the
target channel, records each delivery in a ledger so that a message is posted only
once, retries failed copies inline with back-off, and hands what is still failing
to a background retry queue. A reconciliation pass keeps the set of running clients
equal to the stored sessions. The admin panel (`config_ui.py`) is a tree of inline
keyboards that edits the configuration: list, view and remove sources and sessions,
and arm a reply mode in which the next private message sets a source, the target or
a new session. A start-up patch (`patch_time_sync.py`) replaces the MTProto
message-id generator with one based on the wall clock.

The model is purely functional. The database collections become a `Store`: the
ledger, the per-session counters and the retry queue. The admin panel's state
becomes a `Panel`: the configuration, the stored sessions and the per-user reply
modes. Every Telegram call that can fail is an explicit parameter. For the copies,
this is a sequence of `Outcome`s, one per call. For a session start, it is the set
of session ids whose start would raise. For `get_chat`, it is an `Option<Chat>`.

Modules, in dependency order:

- `Wrappers`: `Option` and `Result`.
- `Text`:
  - Python's `int()` on sign-and-digits text and `str()` of an integer;
  - `split(':')` with its `':'.join` inverse;
  - `strip`, `lstrip`, `rstrip`, `split(None, 1)`, `lower()` and `lstrip('-')`.
- `Documents`: the configuration and session documents.
- `Powers`: powers of two.
- `DedupKey`: the ledger key `chat:message`.
- `WorkerState`: the store, the attempt outcomes and the sleeps.
- `Delivery`: the `on_message` filter and `_attempt_forward`.
- `RetryQueue`: one step of `_process_queue` and runs of steps.
- `SessionSync`: `_sync_sessions` and the registration order of a started client.
- `WorkerProperties`: cross-cutting properties of the worker.
- `Pagination`: `paginated_kb`.
- `SessionReply`: parsing of the `bot <TOKEN>` / `user <SESSION>` reply.
- `TypedId`: the typed channel id fallback.
- `AdminPanel`: the `cfg:`, `flow:`, `src:` and `sess:` callback handlers.
- `MsgId`: the msg_id bit packing.

## Model

| member | source | states |
|---|---|---|
| DedupKey.Key | forwarder.py:93 | the ledger key holds exactly one colon, between the chat id and the message id |
| DedupKey.KeyRoundTrip | forwarder.py:93 | parsing a key gives back both ids, so the key identifies the message |
| DedupKey.KeyInjective | forwarder.py:93 | two messages share a ledger key only if they have the same chat id and message id |
| WorkerState.FloodWaitSeconds | forwarder.py:123 | the FloodWait pause is the error's value, or 30 seconds when the value is missing or zero |
| WorkerState.LiveNames | forwarder.py:153-156 | the names the queue searches are exactly the session names of the running clients |
| Delivery.Dispatch | forwarder.py:84-97 | a message is discarded iff no target is set, its chat is not a source, or its key is already in the ledger, with the first failing test named; otherwise it goes on to the target under its key |
| Delivery.AttemptForward | forwarder.py:109-141 | 1 to 5 copy calls; every call before the last was retried; delivery iff the last call copied a not-yet-recorded message; otherwise exactly one job queued, carrying the number of calls as its attempts; the sleeps follow the back-off schedule; the ledger gains only this message's key; one success or one error is counted per call |
| Delivery.Loop | forwarder.py:112-139 | each pass of the retry loop, from any state meeting the loop invariant, ends in the outcome `AttemptForward` promises |
| Delivery.OnMessage | forwarder.py:84-97 | a discarded message changes nothing and makes no call; any other message gets exactly the retry-loop behaviour under its own key |
| RetryQueue.ProcessQueueStep | forwarder.py:146-170 | an empty queue waits; a job with five or more attempts is dropped; a job whose client is not running goes back to the tail unchanged after a 5 s pause; otherwise one call either records the message and counts a success, or re-queues the job with one more attempt after sleeping 2^attempts s and counts an error |
| RetryQueue.SingleJobCallBudget | forwarder.py:147-170 | whatever the calls return, a job with k attempts alone in the queue costs at most 5 - k further copy calls, and the queue never grows |
| RetryQueue.EmptyQueueIdles | forwarder.py:146 | with nothing queued, any number of steps changes nothing and makes no call |
| RetryQueue.OrphanJobIsKept | forwarder.py:152-160 | a job alone in the queue whose session is not running is kept unchanged and costs no call, step after step |
| RetryQueue.FailingJobIsDropped | forwarder.py:148-170 | a live job alone in the queue that keeps failing is dropped after exactly 5 - attempts calls, and the ledger is unchanged |
| SessionSync.SessionNameIff | forwarder.py:76 | two sessions get the same client name iff their ids agree in the first eight characters |
| SessionSync.StartLog | forwarder.py:107 | a started session's counters restart at zero and no other log changes |
| SessionSync.StartKeepsSpec | forwarder.py:104-107 | starting one client (registering it, then zeroing its log) followed by the rest of the loop keeps the start-phase promise: only started ids enter the map, and only their logs are reset |
| SessionSync.StartAll | forwarder.py:58-60 | the start loop leaves running clients alone and starts each missing one from its own document, with its session name and stored kind; a raise ends it at the first missing document whose start fails, after exactly the missing documents before it were started, with that id neither registered nor its log reset; otherwise every desired id ends up running |
| SessionSync.StartStopsAtFirstFailure | forwarder.py:58-60 | whenever a missing document fails to start and no missing document before it does, the loop fails at that id having added exactly the documents before it |
| SessionSync.SyncSessions | forwarder.py:55-70 | with no start failure, the running ids become exactly the first 500 stored ids and exactly the others are stopped; a failing start stops nothing and ends the pass at the first missing document whose start fails, the missing documents before it started; a client still desired is never replaced; new clients are named after their session and start from zeroed counters; no other session's counters change |
| SessionSync.SyncIsIdempotent | forwarder.py:55-70 | after a pass with no start failure, the next pass over the same documents starts and stops nothing |
| SessionSync.NothingToStart | forwarder.py:58-60 | when every document's client already runs, the start loop changes nothing |
| WorkerProperties.BackoffsAtLeastDouble | forwarder.py:127-139 | each back-off sleep of the inline loop is at least twice every earlier one |
| WorkerProperties.BoundedFailuresSchedule | forwarder.py:111-141 | five bounded failures sleep 1, 2, 4, 8 and 16 s and queue the message with five attempts, with no ledger write |
| WorkerProperties.DoublingSchedule | forwarder.py:127-139 | while no flood wait intervenes, the k-th sleep of an attempt run is a backoff of 2^k seconds, the backoff doubling after every bounded failure |
| WorkerProperties.FloodWaitCountsAgainstBudget | forwarder.py:118-126 | five FloodWaits each sleep the mandated wait, use up the budget, and queue the message with five attempts |
| WorkerProperties.SharedCallBudget | forwarder.py:141-170 | when nothing else was queued, the inline calls plus the queue's later calls for the job it queued never exceed five |
| WorkerProperties.ExhaustedJobIsDropped | forwarder.py:141-150 | a job queued after five failed inline calls is dropped on its first dequeue without another call |
| WorkerProperties.OnMessageLedgerGrowth | forwarder.py:93-115 | handling a message never removes or changes a ledger entry, and adds at most its own key |
| WorkerProperties.RepeatIsDiscarded | forwarder.py:93-96 | once delivered, the same message seen again by any session is discarded with no call |
| WorkerProperties.FreshMessageCopiedAtMostOnce | forwarder.py:109-117 | a message not yet in the ledger is posted at most once per handler run, and exactly once iff it was delivered |
| WorkerProperties.SyncKeepsNames | forwarder.py:76 | reconciliation keeps every running client named after its own session |
| WorkerProperties.RemovedSessionParksItsJobs | forwarder.py:153-160 | once a pass has stopped a removed session, and no remaining session shares its client name, a queued job of that client is put back unchanged at every step, never sent and never dropped |
| WorkerProperties.FirstTrySuccess | forwarder.py:113-117 | a first-try copy writes one record and one success, with no sleep |
| WorkerProperties.TwoFloodWaitsThenSuccess | forwarder.py:118-126 | two 10 s FloodWaits and then a copy: two 10 s sleeps, two errors counted, one record |
| Pagination.PySlice | config_ui.py:41 | for non-negative bounds the slice holds the items from i up to j or the end of the list, whichever comes first, in order, and is empty when i is past either |
| Pagination.PageRow | config_ui.py:40-42 | row k of page p shows item p * 6 + k with a callback naming that index |
| Pagination.NavRow | config_ui.py:43-47 | Prev appears iff the page is past the first; Next appears iff items remain after this page; there are no other buttons |
| Pagination.PaginatedKb | config_ui.py:38-51 | one row per item of the page slice, each carrying its absolute index; then the navigation row when it is not empty; then Back |
| Pagination.ViewDataInjective | config_ui.py:42 | different indices give different `view` callbacks |
| Pagination.EveryItemHasAPage | config_ui.py:38-51 | item i is shown on page i / 6, in row i % 6, with a callback naming i |
| Pagination.OnlyOnePage | config_ui.py:38-51 | a row of page p that views index i has p = i / 6, so no item appears on two pages |
| Pagination.NextPageIsNotEmpty | config_ui.py:46-47 | a Next button never leads to an empty page |
| Text.IntRoundTrip | config_ui.py:146 | `int()` of the decimal text of any integer gives that integer back |
| Text.SplitJoin | config_ui.py:61 | splitting fields that hold no colon, joined with colons, gives back the fields |
| Text.SplitSnoc | config_ui.py:114 | appending a separator and a separator-free field to a string adds exactly that field as the last part of its split |
| Text.LStripDropsSpaces | config_ui.py:265 | what the left strip removes is all whitespace |
| Text.RStripDropsSpaces | config_ui.py:265 | what the right strip removes is all whitespace |
| Text.SplitWordOnce | config_ui.py:266 | `split(None, 1)` gives at most two non-empty parts: a whitespace-free word, then a remainder that starts with a non-space |
| Text.SplitWordOnceParts | config_ui.py:266 | no parts iff the text is all whitespace; otherwise the first part is the left-stripped text up to its first whitespace, and a second part exists iff something other than whitespace follows, and is that rest with leading whitespace removed |
| SessionReply.ParseSessionReply | config_ui.py:265-271 | invalid format iff the stripped reply has no whitespace; bad type iff the lower-cased first word is neither `bot` nor `user`; otherwise the kind that word names, and a non-empty value that is a proper tail of the stripped reply, with no whitespace at either end |
| SessionReply.ReplyRoundTrip | config_ui.py:265-271 | any reply `<kind word in any case> <spaces> <value>`, with any surrounding whitespace, parses back to that kind and exactly that value |
| TypedId.ParseOfNumericLooking | config_ui.py:245 | text that passes `lstrip('-').isdigit()` converts iff at most one minus sign leads it |
| TypedId.TypedIdAsWritten | config_ui.py:243-245 | as written, for ASCII text: raises ValueError iff the text passes the digit test with two or more leading minus signs; the raw text iff it fails the test; otherwise the integer `int()` reads |
| TypedId.DoubleDashRaises | config_ui.py:245 | `--` followed by digits passes the test and then raises |
| TypedId.TypedId | config_ui.py:259 | corrected: a number iff the text is an integer literal with at most one leading minus sign, the raw text otherwise; never raises; agrees with the code as written wherever that does not raise |
| TypedId.TypedIdRoundTrip | config_ui.py:259 | any id the bot prints back is read as that same number, by both versions |
| TypedId.ChatTitle | config_ui.py:241 | the title is the chat title when it has one; otherwise the username when there is one; otherwise the typed text |
| TypedId.ResolveTypedAsWritten | config_ui.py:237-245 | a resolved chat gives its id and title; otherwise the stored id is the typed fallback (`int()` of the text or the raw text), titled by the text, and the handler raises exactly in the double-minus case |
| TypedId.ResolveTyped | config_ui.py:251-259 | corrected resolution: never raises; matches the code as written wherever that succeeds; when the lookup fails the id is the corrected typed fallback |
| AdminPanel.FieldInt | config_ui.py:146 | `int(parts[k])`: IndexError iff the field is missing; otherwise a value iff `int()` accepts the field |
| AdminPanel.RemoveAt | config_ui.py:169-172 | no removal iff the index is out of range; otherwise the rest with the removed item put back at its index is the original list |
| AdminPanel.RemoveAtMultiset | config_ui.py:172 | removal takes out exactly one occurrence of the removed item |
| AdminPanel.RemoveAtKeepsOrder | config_ui.py:172 | the remaining items keep their order, skipping one position |
| AdminPanel.CfgCallback | config_ui.py:60-98 | refused iff the user is not an admin; an exception is only a ValueError; a sources list is always a page of the configured sources |
| AdminPanel.MenuRoute | config_ui.py:68-98 | every main-menu action except `list`, pressed by an admin, opens the screen it names |
| AdminPanel.ListRoute | config_ui.py:88-92 | `cfg:list:<n>` shows page n of the sources |
| AdminPanel.FlowCallbackAsWritten | config_ui.py:101-133 | as written: raises ValueError iff the data has other than three fields, before any state changes; otherwise never raises, and changes at most the caller's reply mode |
| AdminPanel.SessionsPanelListButton | config_ui.py:82-87 | the Sessions panel an admin opens carries the List Sessions button `flow:session:list:0`; as written pressing it raises, corrected it shows page 0 of the stored sessions |
| AdminPanel.SessionListButtonRaises | config_ui.py:102 | as written, every List Sessions button raises and changes nothing |
| AdminPanel.FlowCallback | config_ui.py:101-133 | corrected (`[:3]`): raises iff there are fewer than three fields; agrees with the code as written on three-field data; changes at most the caller's reply mode |
| AdminPanel.FlowListPage | config_ui.py:114 | with fewer than three colons the page is 0; otherwise the page is the integer `int()` reads from the last field, and a ValueError iff `int()` rejects that field |
| AdminPanel.FlowListPageReadsLastField | config_ui.py:114 | data with at least two colons followed by the decimal text of n asks for page n |
| AdminPanel.SessionListing | config_ui.py:115-118 | the no-sessions screen appears iff nothing is stored |
| AdminPanel.FlowStep | config_ui.py:104-133 | a state change is only the caller's reply mode, shown as its prompt; an exception changes nothing |
| AdminPanel.FlowButtonArmsMode | config_ui.py:104-112 | `forward`, `type` and `session:add` arm the reply modes `<kind>_await_forward`, `<kind>_await_type` and `session_await_value` |
| AdminPanel.SessionListButtonWorks | config_ui.py:113-131 | corrected, a List Sessions button shows the page it names of the stored sessions |
| AdminPanel.SourceAction | config_ui.py:144-175 | only a `remove` changes anything, and only the sources; reply modes, target and sessions stay as they were |
| AdminPanel.SessionAction | config_ui.py:176-211 | only a `remove` changes anything: one session, among the first 500, leaves the stored list |
| AdminPanel.ListCallback | config_ui.py:136-143 | refused iff the user is not an admin, and a refusal changes nothing; an invalid index, an exception or an unknown action changes nothing; sources change only through `src:`, sessions only through `sess:` |
| AdminPanel.SourceViewButton | config_ui.py:151-164 | pressing a source's row opens that source, with a Remove button naming the same index |
| AdminPanel.SourceRemoveButton | config_ui.py:165-175 | that Remove button deletes exactly that source, keeps the others in order, and reports the removed source |
| AdminPanel.StaleSourceRemove | config_ui.py:169-171 | a Remove index out of range answers "Invalid index" and changes nothing |
| AdminPanel.SourcePageButton | config_ui.py:145-150 | a Prev or Next button of the sources list shows the page it names |
| AdminPanel.ListedSourceOpens | config_ui.py:41-42 | every source appears on the sources list, and its row opens it |
| AdminPanel.SessionViewButton | config_ui.py:191-202 | pressing a session's row opens that session |
| AdminPanel.SessionRemoveButton | config_ui.py:203-211 | its Remove button deletes exactly that session |
| AdminPanel.SessionBeyondLimit | config_ui.py:193-195 | sessions past the first 500 can be neither viewed nor removed |
| MsgId.AndLowMask | patch_time_sync.py:13 | `x & (2^k - 1)` is `x mod 2^k` |
| MsgId.OrDisjoint | patch_time_sync.py:13 | or-ing a value below 2^k into a multiple of 2^k is addition |
| MsgId.OrKeepsLowZeros | patch_time_sync.py:13 | or of two multiples of 2^k is a multiple of 2^k |
| MsgId.Below63Bits | patch_time_sync.py:13 | the id is below 2^63 and equals the packed value modulo 2^63 |
| MsgId.PackedDivisibleByFour | patch_time_sync.py:13 | before the 63-bit mask the packed value is already a multiple of four |
| MsgId.DivisibleByFour | patch_time_sync.py:11-13 | the two low bits of the id are clear, as MTProto requires of client message ids |
| MsgId.Layout | patch_time_sync.py:11-13 | for a real clock reading the fields do not overlap: the id is seconds * 2^32 + 4 * nanoseconds |
| MsgId.LowWordIsNanos | patch_time_sync.py:11-13 | the low 32 bits carry four times the nanoseconds |
| MsgId.HighWordIsSeconds | patch_time_sync.py:11-13 | the high bits carry the Unix time in seconds |
| MsgId.Monotone | patch_time_sync.py:11-13 | a later clock reading gives a larger id |

## Left out

- MongoDB, Fernet encryption, the pyrogram client and the Telegram network are not modelled. Each call's result is a parameter:
  - the outcome of each copy call;
  - the set of session ids whose start raises;
  - the result of `get_chat`.
- Log lines, timestamps (`started_at`, `last_seen`, `last_error`, `forwarded_at`) and the error texts written to the session logs are not modelled. Only the success and error counters are.
- Concurrency is left out. Each handler runs to completion on its own, so the window between the ledger lookup (forwarder.py:94) and the insert (forwarder.py:115) is not modelled. Two clients handling the same post at once could both copy it.
- `start`, `stop` and `_refresh_loop` are not modelled. Only one reconciliation pass is. Its 20-second interval is a named constant.
- Stopping a removed client is modelled as its id entering `stopped`. Errors raised by `client.stop()` are swallowed in the source, so they change nothing.
- A start failure is modelled as ending the pass at that id. In the source, the refresh loop (forwarder.py:48-52) catches the exception and tries again on the next pass.
- The float arithmetic on `time.time()` (patch_time_sync.py:10-12) is left out. Whole seconds and nanoseconds are inputs. The layout lemmas require what a real clock gives: seconds below 2^31 and nanoseconds below 10^9.
- The inline back-off (forwarder.py:21, :111, :138-139) is a float in the source (`1.0`, doubled each time). WorkerState.InitialBackoff models it as a whole number of seconds. The values reached, 1.0 to 16.0, are exact in floating point, so no sleep duration differs.
- `_start_session_client` is modelled by its effect on the worker. The decrypted credential and the pyrogram `Client` it builds are left out.
- `client_tasks` is never filled anywhere in the worker. The task cancellation in forwarder.py:68-70 therefore never runs, and the model has no tasks.
- Forward counters and start counters use different keys. The success and error counters are kept under the client's session name (`sess-` plus eight characters). The reset at start is written under the document id. The model keeps this split as written.
- FloodWait: the code counts a FloodWait against the five-attempt budget, because `attempt += 1` comes first. The model follows the code, not a reading in which FloodWaits are free.
- A copy that succeeds for a message whose key is already in the ledger makes the insert raise. It is then handled as a generic failure and retried. The model follows this.
- Delivery.AttemptForward: the outcomes must number at least five, because the loop makes at most five calls. Outcomes past those the loop reads are ignored.
- `admin_response` is not modelled beyond its parsing and its typed-id fallback:
  - the `$push` of a source;
  - the `$set` of the target;
  - the validation of a new session with a temporary client;
  - its storage.
  These are database writes and network calls.
- `cmd_config` and the text of every edited message are left out. A screen is modelled by what it shows.
- The `flow:` handler has no admin check in the source, and the model has none either.
- AdminPanel.SessionAction: `sess:remove` is modelled as removing the session at that position in the stored list. The code deletes by `_id` among the first 500 documents. The two agree when ids are unique.
- Text.ParseInt: Python's `int()` is modelled for an optional sign followed by ASCII digits. Other accepted forms are treated as errors:
  - surrounding whitespace;
  - underscores;
  - non-ASCII digits.
  Likewise `isdigit` is modelled on ASCII digits only. Python's `isdigit` also accepts characters such as `²` or `①`, which `int()` rejects, so typed text `²` or `-²` is a second way to make config_ui.py:245 and :259 raise. TypedId.TypedIdAsWritten therefore states the raise condition for ASCII text only.
- Text.Lower: `lower()` is modelled on ASCII letters only. This is exact for the comparisons against `bot` and `user`.

## Findings

| source | as written | input that shows it | evidently intended | confidence | as-written member | corrected member |
|---|---|---|---|---|---|---|
| config_ui.py:102 | `_, kind, method = cq.data.split(':')` demands exactly three fields, but the Sessions panel's List Sessions button (config_ui.py:85) and the page branch (config_ui.py:114) use four | pressing "List Sessions", data `flow:session:list:0`: the unpack raises ValueError and the list is never shown | read the first three fields and let the page field reach the page expression on config_ui.py:114 | high (not executed) | AdminPanel.SessionListButtonRaises | AdminPanel.SessionListButtonWorks |
| config_ui.py:245 | `int(txt) if txt.lstrip('-').isdigit() else txt` lets through text with several leading minus signs, which `int` rejects (same on config_ui.py:259) | typed text `--5` when `get_chat` fails: `lstrip('-')` gives `5`, which passes, and `int('--5')` raises ValueError out of the handler; typed text `²` raises the same way, because `'²'.isdigit()` is true and `int('²')` fails (the model shows the ASCII case only) | convert only integer literals, otherwise keep the raw text | high (not executed) | TypedId.DoubleDashRaises | TypedId.TypedId |
