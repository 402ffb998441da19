/**
 * The admin panel's callback handlers (`config_ui.py`): the `cfg:` menu, the
 * `flow:` buttons that arm a reply mode, and the `src:`/`sess:` list actions.
 * Telegram edits, alerts and database writes become a `Reply` and a new
 * `Panel` state.
 */
module AdminPanel {
  import opened Wrappers
  import opened Text
  import opened Documents
  import opened Pagination

  /** The collections the handlers read and write; `modes` is `tmp_states` keyed by user id. */
  datatype Panel = Panel(conf: Config, sessions: seq<SessionDoc>, modes: map<int, string>)

  /** What the edited message shows. */
  datatype Screen =
    | MainMenu
    | Cancelled
    | SourceMenu
    | TargetMenu
    | SessionsMenu(rows: seq<seq<Button>>)
    | SourcesList(rows: seq<seq<Button>>)
    | SessionsList(rows: seq<seq<Button>>)
    | NoSessions
    | SourceDetail(source: Source, remove: Button)
    | SessionDetail(doc: SessionDoc, remove: Button)
    | SourceRemoved(source: Source)
    | SessionRemoved
    | Prompt(mode: string)

  /** The handler's visible effect. */
  datatype Reply =
    | Refused                 // the "admins only" alert
    | Answered                // a bare `cq.answer()`
    | Shown(screen: Screen)   // the message is edited to a screen
    | InvalidIndex            // the "Invalid index" alert
    | Raised(error: PyError)  // an exception escapes the handler
    | Ignored                 // the handler returns without answering

  /** How many session documents the `flow:session:list` screen and the `sess:` actions read. */
  const FlowListLimit: nat := 200
  const SessionActionLimit: nat := 500

  /** `to_list(length=n)`: the first `n` documents. */
  function Take<T>(s: seq<T>, n: nat): (r: seq<T>)
    ensures |r| == if |s| < n then |s| else n
    ensures r == s[..|r|]
  {
    if |s| < n then s else s[..n]
  }

  function Titles(sources: seq<Source>): (ts: seq<string>)
    ensures |ts| == |sources|
    ensures forall i :: 0 <= i < |sources| ==> ts[i] == sources[i].title
  {
    seq(|sources|, i requires 0 <= i < |sources| => sources[i].title)
  }

  /** `d.get('name') or f'session-{i}'`. */
  function SessionTitle(d: SessionDoc, i: int): string {
    if d.name != "" then d.name else "session-" + IntToString(i)
  }

  /** Labels of the `sess:page` screen. */
  function SessionTitles(docs: seq<SessionDoc>): (ts: seq<string>)
    ensures |ts| == |docs|
    ensures forall i :: 0 <= i < |docs| ==> ts[i] == SessionTitle(docs[i], i)
  {
    seq(|docs|, i requires 0 <= i < |docs| => SessionTitle(docs[i], i))
  }

  /** Labels of the `flow:session:list` screen: the title and the stored type. */
  function SessionEntries(docs: seq<SessionDoc>): (ts: seq<string>)
    ensures |ts| == |docs|
    ensures forall i :: 0 <= i < |docs| ==> ts[i] == SessionTitle(docs[i], i) + " (" + KindWord(docs[i].kind) + ")"
  {
    seq(|docs|, i requires 0 <= i < |docs| => SessionTitle(docs[i], i) + " (" + KindWord(docs[i].kind) + ")")
  }

  function RemoveData(prefix: string, i: int): string {
    prefix + ":remove:" + IntToString(i)
  }

  function RemoveButton(prefix: string, i: int): Button {
    Button("Remove", RemoveData(prefix, i))
  }

  // ------------------------------------------------------------ removal

  /**
   * `lst.pop(index)` behind the handlers' range check: nothing for an index
   * outside `0 <= index < |s|`, otherwise the rest of the list and the item.
   */
  function RemoveAt<T>(s: seq<T>, index: int): (r: Option<(seq<T>, T)>)
    ensures r.None? <==> index < 0 || index >= |s|
    ensures r.Some? ==> |r.value.0| == |s| - 1 && r.value.0[..index] + [r.value.1] + r.value.0[index..] == s
  {
    if index < 0 || index >= |s| then None
    else
      var rest := s[..index] + s[index + 1..];
      assert rest[..index] + [s[index]] + rest[index..] == s by {
        assert rest[..index] == s[..index];
        assert rest[index..] == s[index + 1..];
      }
      Some((rest, s[index]))
  }

  /** Removal takes out exactly one occurrence of the removed item. */
  lemma RemoveAtMultiset<T>(s: seq<T>, index: int)
    requires RemoveAt(s, index).Some?
    ensures var (rest, x) := RemoveAt(s, index).value; multiset(rest) + multiset{x} == multiset(s)
  {
    var (rest, x) := RemoveAt(s, index).value;
    calc {
      multiset(s);
      multiset(rest[..index] + [x] + rest[index..]);
      multiset(rest[..index]) + multiset{x} + multiset(rest[index..]);
      { assert rest == rest[..index] + rest[index..]; }
      multiset(rest) + multiset{x};
    }
  }

  /** Removal keeps the order of the other items: they are the original list with one position skipped. */
  lemma RemoveAtKeepsOrder<T>(s: seq<T>, index: int)
    requires RemoveAt(s, index).Some?
    ensures var rest := RemoveAt(s, index).value.0;
            forall k :: 0 <= k < |rest| ==> rest[k] == if k < index then s[k] else s[k + 1]
  {
    var (rest, x) := RemoveAt(s, index).value;
    forall k | 0 <= k < |rest|
      ensures rest[k] == if k < index then s[k] else s[k + 1]
    {
      if k < index {
        assert s[k] == (rest[..index] + [x] + rest[index..])[k];
      } else {
        assert s[k + 1] == (rest[..index] + [x] + rest[index..])[k + 1];
      }
    }
  }

  // ------------------------------------------------------------ parsing

  /** `int(parts[k])`: `IndexError` past the end, `ValueError` on non-integer text. */
  function FieldInt(parts: seq<string>, k: nat): (r: Result<int, PyError>)
    ensures r == Failure(IndexError) <==> k >= |parts|
    ensures k < |parts| ==> (r.Success? <==> ParseInt(parts[k]).Some?)
    ensures r.Success? ==> ParseInt(parts[k]) == Some(r.value)
  {
    if k >= |parts| then Failure(IndexError)
    else
      match ParseInt(parts[k])
      case Some(n) => Success(n)
      case None => Failure(ValueError)
  }

  /** Data of the shape `head:rest` splits into `head` and the split of `rest`. */
  lemma SplitAfterHead(data: string, head: string)
    requires StartsWith(data, head + ":") && ':' !in head
    ensures Split(data, ':') == [head] + Split(data[|head| + 1..], ':')
  {
    assert data == head + [':'] + data[|head| + 1..];
    SplitCons(head, ':', data[|head| + 1..]);
  }

  lemma NoColonInInt(i: int)
    ensures ':' !in IntToString(i)
  {
  }

  /** Callback data of three colon-free fields splits back into them. */
  lemma SplitThree(a: string, b: string, c: string)
    requires ':' !in a && ':' !in b && ':' !in c
    ensures Split(a + ":" + b + ":" + c, ':') == [a, b, c]
  {
    SplitJoin([a, b, c], ':');
    assert [a, b, c][1..] == [b, c] && [b, c][1..] == [c];
    assert Join([b, c], ':') == b + [':'] + c;
    assert Join([a, b, c], ':') == a + [':'] + (b + [':'] + c);
    assert a + ":" + b + ":" + c == a + [':'] + (b + [':'] + c);
  }

  /** The `view`, `page` and `remove` callback data of a list carry their index back. */
  lemma ListDataSplits(prefix: string, act: string, i: int)
    requires ':' !in prefix && ':' !in act
    ensures Split(prefix + ":" + act + ":" + IntToString(i), ':') == [prefix, act, IntToString(i)]
    ensures ParseInt(IntToString(i)) == Some(i)
  {
    NoColonInInt(i);
    SplitThree(prefix, act, IntToString(i));
    IntRoundTrip(i);
  }

  // ------------------------------------------------------------ cfg:

  /** The keyboard of the Sessions panel: Add Session, List Sessions (page 0), Back. */
  const SessionsPanelKb: seq<seq<Button>> := [
    [Button("\U{2795} Add Session", "flow:session:add")],
    [Button("\U{1F4CB} List Sessions", "flow:session:list:0")],
    [BackButton]
  ]

  /** The page of the sources list that `cfg:list` and `src:page` show. */
  function SourcesPage(p: Panel, page: int): Screen {
    SourcesList(PaginatedKb(Titles(p.conf.sources), "src", page))
  }

  /** `cfg_callbacks`: the main menu. Nothing is written; a non-admin gets the alert and nothing else. */
  function CfgCallback(p: Panel, data: string, user: int, admins: set<int>): (r: Reply)
    requires StartsWith(data, "cfg:")
    ensures r == Refused <==> user !in admins
    ensures r.Raised? ==> r.error == ValueError
    ensures r.Shown? && r.screen.SourcesList? ==> exists page :: r.screen == SourcesPage(p, page)
  {
    SplitAfterHead(data, "cfg");
    var parts := Split(data, ':');
    var action := parts[1];
    if user !in admins then Refused
    else if action == "add_source" then Shown(SourceMenu)
    else if action == "set_target" then Shown(TargetMenu)
    else if action == "sessions" then Shown(SessionsMenu(SessionsPanelKb))
    else if action == "list" then
      var page := if |parts| > 2 then FieldInt(parts, 2) else Success(0);
      match page
      case Success(n) => Shown(SourcesPage(p, n))
      case Failure(e) => Raised(e)
    else if action == "back" then Shown(MainMenu)
    else if action == "cancel" then Shown(Cancelled)
    else Answered
  }

  /** Data of the shape `cfg:<action>` with a colon-free action reaches that action. */
  lemma CfgActionSplits(action: string)
    requires ':' !in action
    ensures Split("cfg:" + action, ':') == ["cfg", action]
  {
    assert "cfg:" + action == "cfg" + [':'] + action;
    SplitCons("cfg", ':', action);
    SplitNoSeparator(action, ':');
  }

  /** The menu screen an admin's `cfg:<action>` press opens, for the actions without a page field. */
  function MenuScreen(action: string): Reply {
    if action == "add_source" then Shown(SourceMenu)
    else if action == "set_target" then Shown(TargetMenu)
    else if action == "sessions" then Shown(SessionsMenu(SessionsPanelKb))
    else if action == "back" then Shown(MainMenu)
    else if action == "cancel" then Shown(Cancelled)
    else Answered
  }

  /** Every main-menu button but the list, pressed by an admin, opens the screen it names. */
  lemma MenuRoute(p: Panel, action: string, user: int, admins: set<int>)
    requires user in admins && ':' !in action && action != "list"
    ensures CfgCallback(p, "cfg:" + action, user, admins) == MenuScreen(action)
  {
    CfgActionSplits(action);
  }

  /** The "View Config" button `cfg:list:<n>` shows page `n` of the sources. */
  lemma ListRoute(p: Panel, page: int, user: int, admins: set<int>)
    requires user in admins
    ensures CfgCallback(p, "cfg:list:" + IntToString(page), user, admins) == Shown(SourcesPage(p, page))
  {
    ListDataSplits("cfg", "list", page);
    assert "cfg:list:" + IntToString(page) == "cfg" + ":" + "list" + ":" + IntToString(page);
  }

  // ------------------------------------------------------------ flow:

  /** The mode a `flow:` button arms for the pressing user. */
  function ArmMode(p: Panel, user: int, mode: string): (r: (Panel, Reply))
    ensures r.0 == p.(modes := p.modes[user := mode])
  {
    (p.(modes := p.modes[user := mode]), Shown(Prompt(mode)))
  }

  /** `data.split(':')[-1]`. */
  function LastField(data: string): string {
    var parts := Split(data, ':');
    parts[|parts| - 1]
  }

  /** The page a `flow:session:list` button asks for: the last field when there are four or more. */
  function FlowListPage(data: string): (r: Result<int, PyError>)
    ensures Count(data, ':') < 3 ==> r == Success(0)
    ensures Count(data, ':') >= 3 ==> (r.Success? <==> ParseInt(LastField(data)).Some?)
    ensures Count(data, ':') >= 3 && r.Success? ==> ParseInt(LastField(data)) == Some(r.value)
    ensures r.Failure? ==> r.error == ValueError
  {
    if Count(data, ':') >= 3 then
      var parts := Split(data, ':');
      match ParseInt(parts[|parts| - 1])
      case Some(n) => Success(n)
      case None => Failure(ValueError)
    else Success(0)
  }

  /** Data with at least two colons followed by a rendered integer asks for that page. */
  lemma FlowListPageReadsLastField(prefix: string, n: int)
    requires Count(prefix, ':') >= 2
    ensures FlowListPage(prefix + ":" + IntToString(n)) == Success(n)
  {
    var data := prefix + ":" + IntToString(n);
    NoColonInInt(n);
    assert data == prefix + [':'] + IntToString(n);
    SplitSnoc(prefix, ':', IntToString(n));
    assert LastField(data) == IntToString(n);
    IntRoundTrip(n);
  }

  /** The stored-sessions screen of `flow:session:list`: the first 200 documents, titled with their type. */
  function SessionListing(sessions: seq<SessionDoc>, page: int): (s: Screen)
    ensures s == NoSessions <==> |sessions| == 0
  {
    var docs := Take(sessions, FlowListLimit);
    if |docs| == 0 then NoSessions else SessionsList(PaginatedKb(SessionEntries(docs), "sess", page))
  }

  /** The branches of `flow_start` once `kind` and the method field `how` are known. */
  function FlowStep(p: Panel, data: string, kind: string, how: string, user: int): (r: (Panel, Reply))
    ensures r.0.conf == p.conf && r.0.sessions == p.sessions
    ensures r.0 == p || (user in r.0.modes && r.0 == p.(modes := p.modes[user := r.0.modes[user]]))
    ensures r.0 != p ==> user in r.0.modes && r.1 == Shown(Prompt(r.0.modes[user]))
    ensures r.1.Raised? ==> r.0 == p && r.1.error == ValueError
  {
    if how == "forward" then ArmMode(p, user, kind + "_await_forward")
    else if how == "type" then ArmMode(p, user, kind + "_await_type")
    else if kind == "session" && how == "add" then ArmMode(p, user, "session_await_value")
    else if kind == "session" && how == "list" then
      match FlowListPage(data)
      case Success(page) => (p, Shown(SessionListing(p.sessions, page)))
      case Failure(e) => (p, Raised(e))
    else (p, Answered)
  }

  /**
   * `flow_start` as written: `_, kind, method = cq.data.split(':')` demands
   * exactly three fields and raises `ValueError` on any other count, before any
   * state is touched. There is no admin check in this handler.
   */
  function FlowCallbackAsWritten(p: Panel, data: string, user: int): (r: (Panel, Reply))
    requires StartsWith(data, "flow:")
    ensures Count(data, ':') != 2 ==> r == (p, Raised(ValueError))
    ensures Count(data, ':') == 2 ==> !r.1.Raised?
    ensures r.0.conf == p.conf && r.0.sessions == p.sessions
    ensures r.0 == p || (user in r.0.modes && r.0 == p.(modes := p.modes[user := r.0.modes[user]]))
  {
    var parts := Split(data, ':');
    if |parts| != 3 then (p, Raised(ValueError))
    else FlowStep(p, data, parts[1], parts[2], user)
  }

  /** Callback data of four colon-free fields splits back into them. */
  lemma SplitFour(a: string, b: string, c: string, d: string)
    requires ':' !in a && ':' !in b && ':' !in c && ':' !in d
    ensures Split(a + ":" + b + ":" + c + ":" + d, ':') == [a, b, c, d]
  {
    SplitThree(b, c, d);
    assert a + ":" + b + ":" + c + ":" + d == a + [':'] + (b + ":" + c + ":" + d);
    SplitCons(a, ':', b + ":" + c + ":" + d);
  }

  /** The data of a "List Sessions" button for page `page`; the Sessions panel's own button is page 0. */
  function SessionListData(page: int): string {
    "flow:session:list:" + IntToString(page)
  }

  lemma SessionListDataSplits(page: int)
    ensures Split(SessionListData(page), ':') == ["flow", "session", "list", IntToString(page)]
    ensures Count(SessionListData(page), ':') == 3
  {
    NoColonInInt(page);
    assert SessionListData(page) == "flow" + ":" + "session" + ":" + "list" + ":" + IntToString(page);
    SplitFour("flow", "session", "list", IntToString(page));
  }

  /** A "List Sessions" button carries four fields and so always raises, leaving everything as it was. */
  lemma SessionListButtonRaises(p: Panel, page: int, user: int)
    ensures FlowCallbackAsWritten(p, SessionListData(page), user) == (p, Raised(ValueError))
  {
    SessionListDataSplits(page);
  }

  /**
   * `flow_start` as evidently intended: the first three fields name the kind
   * and the method (`split(':')[:3]`), so the page field of the list button
   * reaches the page expression already written for it.
   */
  function FlowCallback(p: Panel, data: string, user: int): (r: (Panel, Reply))
    requires StartsWith(data, "flow:")
    ensures Count(data, ':') < 2 ==> r == (p, Raised(ValueError))
    ensures r.1.Raised? ==> r.0 == p && r.1.error == ValueError
    ensures Count(data, ':') == 2 ==> r == FlowCallbackAsWritten(p, data, user)
    ensures r.0.conf == p.conf && r.0.sessions == p.sessions
    ensures r.0 == p || (user in r.0.modes && r.0 == p.(modes := p.modes[user := r.0.modes[user]]))
  {
    var parts := Split(data, ':');
    if |parts| < 3 then (p, Raised(ValueError))
    else FlowStep(p, data, parts[1], parts[2], user)
  }

  lemma SessionListDataPage(page: int)
    ensures FlowListPage(SessionListData(page)) == Success(page)
  {
    SessionListDataSplits(page);
    IntRoundTrip(page);
  }

  /** The `session`/`list` branch of `flow_start` shows the page the data names. */
  lemma ListStep(p: Panel, data: string, page: int, user: int)
    requires FlowListPage(data) == Success(page)
    ensures FlowStep(p, data, "session", "list", user) == (p, Shown(SessionListing(p.sessions, page)))
  {
    assert "list" != "type" by { assert "list"[0] != "type"[0]; }
  }

  /** With the correction a "List Sessions" button shows the page it names of the stored sessions. */
  lemma SessionListButtonWorks(p: Panel, page: int, user: int)
    ensures FlowCallback(p, SessionListData(page), user) == (p, Shown(SessionListing(p.sessions, page)))
  {
    var parts := Split(SessionListData(page), ':');
    SessionListDataSplits(page);
    assert parts[1] == "session" && parts[2] == "list";
    SessionListDataPage(page);
    ListStep(p, SessionListData(page), page, user);
  }

  /**
   * The Sessions panel an admin opens carries the List Sessions button for
   * page 0; as written, pressing it raises, and with the correction it shows
   * the first page of the stored sessions.
   */
  lemma SessionsPanelListButton(p: Panel, user: int, admins: set<int>)
    requires user in admins
    ensures CfgCallback(p, "cfg:" + "sessions", user, admins) == Shown(SessionsMenu(SessionsPanelKb))
    ensures SessionsPanelKb[1][0].data == SessionListData(0)
    ensures FlowCallbackAsWritten(p, SessionListData(0), user) == (p, Raised(ValueError))
    ensures FlowCallback(p, SessionListData(0), user) == (p, Shown(SessionListing(p.sessions, 0)))
  {
    MenuRoute(p, "sessions", user, admins);
    assert IntToString(0) == "0";
    SessionListButtonRaises(p, 0, user);
    SessionListButtonWorks(p, 0, user);
  }

  /** A `flow:<kind>:<how>` button arms the mode the message handler waits for. */
  lemma FlowButtonArmsMode(p: Panel, kind: string, how: string, user: int)
    requires ':' !in kind && ':' !in how
    requires how == "forward" || how == "type" || (kind == "session" && how == "add")
    ensures var mode := if how == "forward" then kind + "_await_forward"
                        else if how == "type" then kind + "_await_type"
                        else "session_await_value";
            FlowCallback(p, "flow:" + kind + ":" + how, user) == (p.(modes := p.modes[user := mode]), Shown(Prompt(mode)))
  {
    SplitThree("flow", kind, how);
    assert "flow:" + kind + ":" + how == "flow" + ":" + kind + ":" + how;
  }

  // ------------------------------------------------------------ src: and sess:

  /** `src:<act>:<n>` on the configured sources, by an admin. */
  function SourceAction(p: Panel, act: string, parts: seq<string>): (r: (Panel, Reply))
    ensures r.0.sessions == p.sessions && r.0.modes == p.modes && r.0.conf.target == p.conf.target
    ensures r.0 != p ==> act == "remove" && r.1.Shown? && r.1.screen.SourceRemoved?
    ensures r.1.Shown? && r.1.screen.SourceRemoved? ==>
              |r.0.conf.sources| == |p.conf.sources| - 1
              && multiset(r.0.conf.sources) + multiset{r.1.screen.source} == multiset(p.conf.sources)
  {
    var sources := p.conf.sources;
    if act == "page" then
      match FieldInt(parts, 2)
      case Success(page) => (p, Shown(SourcesPage(p, page)))
      case Failure(e) => (p, Raised(e))
    else if act == "view" then
      match FieldInt(parts, 2)
      case Failure(e) => (p, Raised(e))
      case Success(index) =>
        if index < 0 || index >= |sources| then (p, InvalidIndex)
        else (p, Shown(SourceDetail(sources[index], RemoveButton("src", index))))
    else if act == "remove" then
      match FieldInt(parts, 2)
      case Failure(e) => (p, Raised(e))
      case Success(index) =>
        match RemoveAt(sources, index)
        case None => (p, InvalidIndex)
        case Some((rest, removed)) =>
          RemoveAtMultiset(sources, index);
          (p.(conf := p.conf.(sources := rest)), Shown(SourceRemoved(removed)))
    else (p, Ignored)
  }

  /** `sess:<act>:<n>` on the first 500 stored sessions, by an admin. */
  function SessionAction(p: Panel, act: string, parts: seq<string>): (r: (Panel, Reply))
    ensures r.0.conf == p.conf && r.0.modes == p.modes
    ensures r.0 != p ==> act == "remove" && r.1 == Shown(SessionRemoved)
    ensures r.1 == Shown(SessionRemoved) ==>
              |r.0.sessions| == |p.sessions| - 1
              && exists index :: 0 <= index < |p.sessions| && index < SessionActionLimit
                                 && r.0.sessions == p.sessions[..index] + p.sessions[index + 1..]
  {
    var docs := Take(p.sessions, SessionActionLimit);
    if act == "page" then
      match FieldInt(parts, 2)
      case Success(page) => (p, Shown(SessionsList(PaginatedKb(SessionTitles(docs), "sess", page))))
      case Failure(e) => (p, Raised(e))
    else if act == "view" then
      match FieldInt(parts, 2)
      case Failure(e) => (p, Raised(e))
      case Success(index) =>
        if index < 0 || index >= |docs| then (p, InvalidIndex)
        else (p, Shown(SessionDetail(docs[index], RemoveButton("sess", index))))
    else if act == "remove" then
      match FieldInt(parts, 2)
      case Failure(e) => (p, Raised(e))
      case Success(index) =>
        if index < 0 || index >= |docs| then (p, InvalidIndex)
        else
          var rest := RemoveAt(p.sessions, index).value.0;
          assert rest == p.sessions[..index] + p.sessions[index + 1..] by {
            RemoveAtKeepsOrder(p.sessions, index);
          }
          (p.(sessions := rest), Shown(SessionRemoved))
    else (p, Ignored)
  }

  lemma ListPrefixSplits(data: string)
    requires StartsWith(data, "src:") || StartsWith(data, "sess:")
    ensures |Split(data, ':')| >= 2
  {
    if StartsWith(data, "src:") {
      SplitAfterHead(data, "src");
    } else {
      SplitAfterHead(data, "sess");
    }
  }

  /**
   * `list_actions`: callbacks starting `src:` or `sess:`. A non-admin gets the
   * alert and nothing changes; only a `remove` changes the stored lists, by
   * exactly one entry; a malformed or out-of-range index changes nothing.
   */
  function ListCallback(p: Panel, data: string, user: int, admins: set<int>): (r: (Panel, Reply))
    requires StartsWith(data, "src:") || StartsWith(data, "sess:")
    ensures r.1 == Refused <==> user !in admins
    ensures user !in admins ==> r.0 == p
    ensures r.1 == InvalidIndex || r.1.Raised? || r.1 == Ignored ==> r.0 == p
    ensures r.0.modes == p.modes && r.0.conf.target == p.conf.target
    ensures r.0.conf.sources != p.conf.sources ==> StartsWith(data, "src:") && r.1.Shown? && r.1.screen.SourceRemoved?
    ensures r.0.sessions != p.sessions ==> StartsWith(data, "sess:") && r.1 == Shown(SessionRemoved)
  {
    var isSrc := StartsWith(data, "src:");
    ListPrefixSplits(data);
    var parts := Split(data, ':');
    var act := parts[1];
    if user !in admins then (p, Refused)
    else if isSrc then SourceAction(p, act, parts)
    else SessionAction(p, act, parts)
  }

  lemma ListDataShapes(prefix: string, i: int)
    ensures ViewData(prefix, i) == prefix + ":" + "view" + ":" + IntToString(i)
    ensures PageData(prefix, i) == prefix + ":" + "page" + ":" + IntToString(i)
    ensures RemoveData(prefix, i) == prefix + ":" + "remove" + ":" + IntToString(i)
  {
  }

  lemma ListDataPrefix(prefix: string, act: string, i: int)
    ensures StartsWith(prefix + ":" + act + ":" + IntToString(i), prefix + ":")
  {
    var data := prefix + ":" + act + ":" + IntToString(i);
    assert data[..|prefix + ":"|] == prefix + ":";
  }

  /** A list button's data: its prefix, its action and its index as three fields. */
  lemma ListButtonData(prefix: string, act: string, i: int)
    requires prefix == "src" || prefix == "sess"
    requires act == "view" || act == "page" || act == "remove"
    ensures var data := prefix + ":" + act + ":" + IntToString(i);
            && StartsWith(data, prefix + ":")
            && Split(data, ':') == [prefix, act, IntToString(i)]
            && FieldInt(Split(data, ':'), 2) == Success(i)
    ensures ViewData(prefix, i) == prefix + ":" + "view" + ":" + IntToString(i)
    ensures PageData(prefix, i) == prefix + ":" + "page" + ":" + IntToString(i)
    ensures RemoveData(prefix, i) == prefix + ":" + "remove" + ":" + IntToString(i)
  {
    ListDataSplits(prefix, act, i);
    ListDataPrefix(prefix, act, i);
    ListDataShapes(prefix, i);
  }

  /** Pressing a source's row opens that source, with a Remove button naming the same index. */
  lemma SourceViewButton(p: Panel, i: int, user: int, admins: set<int>)
    requires user in admins && 0 <= i < |p.conf.sources|
    ensures ListCallback(p, ViewData("src", i), user, admins)
            == (p, Shown(SourceDetail(p.conf.sources[i], RemoveButton("src", i))))
  {
    ListButtonData("src", "view", i);
  }

  /** Its Remove button deletes exactly that source and keeps the others in order. */
  lemma SourceRemoveButton(p: Panel, i: int, user: int, admins: set<int>)
    requires user in admins && 0 <= i < |p.conf.sources|
    ensures var s := p.conf.sources;
            ListCallback(p, RemoveData("src", i), user, admins)
            == (p.(conf := p.conf.(sources := s[..i] + s[i + 1..])), Shown(SourceRemoved(s[i])))
  {
    ListButtonData("src", "remove", i);
    RemoveAtKeepsOrder(p.conf.sources, i);
  }

  /** A Remove button whose index no longer exists (the list shrank) only raises the alert. */
  lemma StaleSourceRemove(p: Panel, i: int, user: int, admins: set<int>)
    requires user in admins && (i < 0 || i >= |p.conf.sources|)
    ensures ListCallback(p, RemoveData("src", i), user, admins) == (p, InvalidIndex)
  {
    ListButtonData("src", "remove", i);
  }

  /** A Prev or Next button of the sources list shows the page it names. */
  lemma SourcePageButton(p: Panel, page: int, user: int, admins: set<int>)
    requires user in admins
    ensures ListCallback(p, PageData("src", page), user, admins) == (p, Shown(SourcesPage(p, page)))
  {
    ListButtonData("src", "page", page);
  }

  /** Pressing a session's row opens that session. */
  lemma SessionViewButton(p: Panel, i: int, user: int, admins: set<int>)
    requires user in admins && 0 <= i < |p.sessions| && i < SessionActionLimit
    ensures ListCallback(p, ViewData("sess", i), user, admins)
            == (p, Shown(SessionDetail(p.sessions[i], RemoveButton("sess", i))))
  {
    ListButtonData("sess", "view", i);
  }

  /** The `view` and `remove` branches of the `sess:` handler once the index field has been read. */
  lemma SessionIndexStep(p: Panel, act: string, parts: seq<string>, i: int)
    requires act == "view" || act == "remove"
    requires FieldInt(parts, 2) == Success(i)
    ensures (i < 0 || i >= |Take(p.sessions, SessionActionLimit)|) ==> SessionAction(p, act, parts) == (p, InvalidIndex)
    ensures act == "remove" && 0 <= i < |Take(p.sessions, SessionActionLimit)| ==>
              SessionAction(p, act, parts) == (p.(sessions := p.sessions[..i] + p.sessions[i + 1..]), Shown(SessionRemoved))
  {
    assert act != "page" by { assert act[0] != "page"[0]; }
  }

  /** A `sess:` button reaches the `sess:` handler with its action and fields. */
  lemma SessionButtonRoutes(p: Panel, act: string, i: int, user: int, admins: set<int>)
    requires user in admins
    requires act == "view" || act == "page" || act == "remove"
    ensures var data := "sess" + ":" + act + ":" + IntToString(i);
            && (StartsWith(data, "src:") || StartsWith(data, "sess:"))
            && ListCallback(p, data, user, admins) == SessionAction(p, act, Split(data, ':'))
  {
    var data := "sess" + ":" + act + ":" + IntToString(i);
    ListButtonData("sess", act, i);
    assert !StartsWith(data, "src:") by { assert data[1] != "src:"[1]; }
  }

  /** Its Remove button deletes exactly that session. */
  lemma SessionRemoveButton(p: Panel, i: int, user: int, admins: set<int>)
    requires user in admins && 0 <= i < |p.sessions| && i < SessionActionLimit
    ensures ListCallback(p, RemoveData("sess", i), user, admins)
            == (p.(sessions := p.sessions[..i] + p.sessions[i + 1..]), Shown(SessionRemoved))
  {
    ListButtonData("sess", "remove", i);
    SessionButtonRoutes(p, "remove", i, user, admins);
    SessionIndexStep(p, "remove", Split(RemoveData("sess", i), ':'), i);
  }

  /** Sessions past the first 500 cannot be viewed or removed from the panel. */
  lemma SessionBeyondLimit(p: Panel, i: int, user: int, admins: set<int>)
    requires user in admins && i >= SessionActionLimit
    ensures ListCallback(p, ViewData("sess", i), user, admins) == (p, InvalidIndex)
    ensures ListCallback(p, RemoveData("sess", i), user, admins) == (p, InvalidIndex)
  {
    ListButtonData("sess", "view", i);
    ListButtonData("sess", "remove", i);
    SessionButtonRoutes(p, "view", i, user, admins);
    SessionButtonRoutes(p, "remove", i, user, admins);
    SessionIndexStep(p, "view", Split(ViewData("sess", i), ':'), i);
    SessionIndexStep(p, "remove", Split(RemoveData("sess", i), ':'), i);
  }

  /** Every source appears on the sources list, and its row, pressed, opens it. */
  lemma ListedSourceOpens(p: Panel, i: nat, user: int, admins: set<int>)
    requires user in admins && i < |p.conf.sources|
    ensures var rows := SourcesPage(p, i / PageSize).rows;
            && i % PageSize < |rows|
            && rows[i % PageSize] == [Button(p.conf.sources[i].title, ViewData("src", i))]
            && ListCallback(p, rows[i % PageSize][0].data, user, admins)
               == (p, Shown(SourceDetail(p.conf.sources[i], RemoveButton("src", i))))
  {
    EveryItemHasAPage(Titles(p.conf.sources), "src", i);
    SourceViewButton(p, i, user, admins);
  }
}
