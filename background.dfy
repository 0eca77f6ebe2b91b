/**
 * The background worker of the timer: the stored state (one record holding
 * the active task id and the tasks by id), the task-id parser, and the three
 * handlers that change the state (add, toggle, delete). Each handler is a
 * specification function from the old state to a response and a new state,
 * and a method of `TimerData` that updates the loaded state step by step as
 * the worker does and is proved to agree with that function.
 */
module Background {
  import opened Wrappers
  import opened JsStrings

  /** Only URLs whose text contains this are Basecamp pages. */
  const BasecampHost := "3.basecamp.com"

  /** The suffix Basecamp appends to every page title. */
  const TitleSuffix := " on Basecamp"

  const NotBasecampMessage := "This is not a Basecamp page."
  const NoTaskIdMessage := "Could not find a valid Task/Card ID in this URL."

  // ---------------------------------------------------------------------------
  // Data model
  // ---------------------------------------------------------------------------

  datatype Status = Running | Paused

  /**
   * One tracked item. Times are milliseconds since the epoch;
   * `lastStartTime` is `None` for JavaScript's `null`.
   */
  datatype Task = Task(
    id: string,
    title: string,
    url: string,
    status: Status,
    accumulatedTime: int,
    lastStartTime: Option<int>)

  /** The whole stored record. */
  datatype TimerState = TimerState(activeTaskId: Option<string>, tasks: map<string, Task>)

  /** The parts of a parsed URL that the worker reads. */
  datatype UrlParts = UrlParts(origin: string, pathname: string, search: string, hash: string)

  /**
   * The active browser tab: its URL text, its title, and the outcome of
   * parsing the URL text (`None` when the parser throws).
   */
  datatype Tab = Tab(url: string, title: string, location: Option<UrlParts>)

  datatype AddError = NotBasecampPage | NoTaskId

  datatype AddResponse = AddSucceeded | AddFailed(error: AddError)

  /** A handler's reply together with the state it leaves behind. */
  datatype Step<R> = Step(response: R, state: TimerState)

  /** The text the worker sends back with each add error; the two differ. */
  function ErrorMessage(e: AddError): (m: string)
    ensures m == NotBasecampMessage <==> e == NotBasecampPage
    ensures m == NoTaskIdMessage <==> e == NoTaskId
  {
    match e
    case NotBasecampPage => NotBasecampMessage
    case NoTaskId => NoTaskIdMessage
  }

  /** The object `handleAddTask` passes to `sendResponse`. */
  datatype Reply = Reply(success: bool, error: Option<string>)

  /** `{success: true}`, or `{success: false, error}` with the error's text. */
  function ReplyOf(r: AddResponse): (m: Reply)
    ensures m.success <==> r.AddSucceeded?
    ensures m.error.Some? <==> !m.success
    ensures m.error == Some(NotBasecampMessage) <==> r == AddFailed(NotBasecampPage)
    ensures m.error == Some(NoTaskIdMessage) <==> r == AddFailed(NoTaskId)
  {
    match r
    case AddSucceeded => Reply(true, None)
    case AddFailed(e) => Reply(false, Some(ErrorMessage(e)))
  }

  // ---------------------------------------------------------------------------
  // Invariants
  // ---------------------------------------------------------------------------

  /** The ids of the tasks whose timer is running. */
  ghost function RunningIds(s: TimerState): set<string> {
    set k | k in s.tasks && s.tasks[k].status == Running
  }

  /**
   * The state invariant: every task is stored under its own id, which is a
   * run of digits; a paused task has no start time and a running one has
   * one; every running task is the active task, and the active task, when
   * there is one, exists and is running.
   */
  ghost predicate Valid(s: TimerState) {
    && (forall k :: k in s.tasks ==> s.tasks[k].id == k && IsDigitRun(k))
    && (forall k :: k in s.tasks ==>
          (s.tasks[k].status == Paused <==> s.tasks[k].lastStartTime.None?))
    && (forall k :: k in s.tasks && s.tasks[k].status == Running ==> s.activeTaskId == Some(k))
    && (s.activeTaskId.Some? ==>
          s.activeTaskId.value in s.tasks && s.tasks[s.activeTaskId.value].status == Running)
  }

  /** Every running task was started no later than `now`. */
  ghost predicate StartedBy(s: TimerState, now: int) {
    forall k :: k in s.tasks && s.tasks[k].lastStartTime.Some? ==> s.tasks[k].lastStartTime.value <= now
  }

  /**
   * In a valid state at most one task is running, and `activeTaskId` is set
   * exactly when one is, naming it.
   */
  lemma ValidHasOneActiveTimer(s: TimerState)
    requires Valid(s)
    ensures RunningIds(s) == if s.activeTaskId.Some? then {s.activeTaskId.value} else {}
    ensures |RunningIds(s)| <= 1
  {
  }

  // ---------------------------------------------------------------------------
  // getData
  // ---------------------------------------------------------------------------

  /** The state of a first run: no active task and no tasks. */
  function DefaultState(): (s: TimerState)
    ensures Valid(s) && s.activeTaskId.None? && |s.tasks| == 0
  {
    TimerState(None, map[])
  }

  /** The stored record, or the default state when nothing is stored. */
  function GetData(stored: Option<TimerState>): (s: TimerState)
    ensures stored.None? ==> Valid(s) && s.activeTaskId.None? && s.tasks == map[]
    ensures stored.Some? ==> s == stored.value
  {
    stored.GetOr(DefaultState())
  }

  // ---------------------------------------------------------------------------
  // The task-id parser
  // ---------------------------------------------------------------------------

  /** The path with one trailing `/` removed, if it has one. */
  function DropTrailingSlash(path: string): (p: string)
    ensures EndsWith(path, "/") ==> p + "/" == path
    ensures !EndsWith(path, "/") ==> p == path
  {
    if EndsWith(path, "/") then path[..|path| - 1] else path
  }

  /** `seg` is the last `/`-separated segment of `path`. */
  predicate IsFinalSegment(path: string, seg: string) {
    && '/' !in seg
    && EndsWith(path, seg)
    && (|seg| == |path| || path[|path| - |seg| - 1] == '/')
  }

  /**
   * The task id of a page: the last segment of the URL's path, after one
   * trailing slash is dropped, when that segment is a run of digits. A URL
   * that does not parse has no id.
   */
  function GetBasecampId(location: Option<UrlParts>): (id: Option<string>)
    ensures id.Some? ==>
      (&& location.Some?
       && IsDigitRun(id.value)
       && IsFinalSegment(DropTrailingSlash(location.value.pathname), id.value))
  {
    match location
    case None => None
    case Some(u) =>
      var path := DropTrailingSlash(u.pathname);
      var lastSegment := LastPiece(path, '/');
      LastPieceIsFinalSegment(path, '/');
      if IsDigitRun(lastSegment) then Some(lastSegment) else None
  }

  /**
   * The parser returns `d` exactly when the URL parses and `d` is a run of
   * digits forming the last segment of the path (one trailing slash aside).
   */
  lemma GetBasecampIdExact(location: Option<UrlParts>, d: string)
    ensures GetBasecampId(location) == Some(d) <==>
      (&& location.Some?
       && IsDigitRun(d)
       && IsFinalSegment(DropTrailingSlash(location.value.pathname), d))
  {
    if location.Some? && IsDigitRun(d) && IsFinalSegment(DropTrailingSlash(location.value.pathname), d) {
      var path := DropTrailingSlash(location.value.pathname);
      if |d| == |path| {
        assert path == d;
        SplitWithoutSeparator(path, '/');
      } else {
        var prefix := path[..|path| - |d| - 1];
        assert path == prefix + "/" + d;
        LastPieceAfterSeparator(prefix, d, '/');
      }
    }
  }

  /**
   * The query and the fragment of a URL never affect its task id. This rests
   * on the URL record: the parser splits `?` and `#` parts off into `search`
   * and `hash`, and only `pathname` is read.
   */
  lemma GetBasecampIdIgnoresQueryAndHash(u: UrlParts, search: string, hash: string)
    ensures GetBasecampId(Some(u.(search := search, hash := hash))) == GetBasecampId(Some(u))
  {
  }

  /**
   * The rule takes any numeric last segment, whatever resource type precedes
   * it: a comment URL yields the comment's number.
   */
  lemma CommentUrlYieldsItsNumber(origin: string, search: string, hash: string)
    ensures GetBasecampId(Some(UrlParts(origin, "/buckets/1/comments/42", search, hash))) == Some("42")
  {
    var path := "/buckets/1/comments/42";
    assert !EndsWith(path, "/") by { assert path[|path| - 1] == '2'; }
    assert IsDigitRun("42");
    assert IsFinalSegment(path, "42") by {
      assert path[|path| - 2..] == "42";
      assert path[|path| - 3] == '/';
    }
    GetBasecampIdExact(Some(UrlParts(origin, path, search, hash)), "42");
  }

  // ---------------------------------------------------------------------------
  // handleAddTask
  // ---------------------------------------------------------------------------

  /** The page title without Basecamp's suffix and surrounding whitespace. */
  function CleanTitle(title: string): string {
    Trim(RemoveSuffix(title, TitleSuffix))
  }

  /** The link stored for a task: origin and path, without query or fragment. */
  function CleanUrl(u: UrlParts): string {
    u.origin + u.pathname
  }

  /** The record created for a newly added page; its timer is not started. */
  function NewTask(id: string, title: string, u: UrlParts): Task {
    Task(id, CleanTitle(title), CleanUrl(u), Paused, 0, None)
  }

  /**
   * Adding the active tab: it must be a Basecamp page with a task id; a new
   * id gets a paused record, an id already tracked leaves the state as it is.
   */
  function AddTask(s: TimerState, tab: Option<Tab>): (r: Step<AddResponse>)
    ensures r.response.AddFailed? ==> r.state == s
    ensures r.state.activeTaskId == s.activeTaskId
    ensures s.tasks.Keys <= r.state.tasks.Keys && |r.state.tasks| <= |s.tasks| + 1
    ensures forall k :: k in s.tasks ==> r.state.tasks[k] == s.tasks[k]
  {
    if tab.None? || !Contains(tab.value.url, BasecampHost) then
      Step(AddFailed(NotBasecampPage), s)
    else
      match GetBasecampId(tab.value.location)
      case None => Step(AddFailed(NoTaskId), s)
      case Some(id) =>
        if id in s.tasks then Step(AddSucceeded, s)
        else Step(AddSucceeded, s.(tasks := s.tasks[id := NewTask(id, tab.value.title, tab.value.location.value)]))
  }

  /**
   * Adding fails on a tab outside Basecamp or without a task id, and a failed
   * add leaves the state unchanged.
   */
  lemma AddTaskErrors(s: TimerState, tab: Option<Tab>)
    ensures AddTask(s, tab).response == AddFailed(NotBasecampPage) <==>
      tab.None? || !Contains(tab.value.url, BasecampHost)
    ensures AddTask(s, tab).response == AddFailed(NoTaskId) <==>
      tab.Some? && Contains(tab.value.url, BasecampHost) && GetBasecampId(tab.value.location).None?
    ensures AddTask(s, tab).response.AddFailed? ==> AddTask(s, tab).state == s
  {
  }

  /**
   * Adding a page with a new id adds exactly one record, paused with no time,
   * holding the cleaned title and the stripped link; nothing else changes.
   */
  lemma AddTaskCreatesPausedTask(s: TimerState, tab: Option<Tab>, id: string)
    requires tab.Some? && Contains(tab.value.url, BasecampHost)
    requires GetBasecampId(tab.value.location) == Some(id)
    requires id !in s.tasks
    ensures var r := AddTask(s, tab);
      && r.response == AddSucceeded
      && r.state.activeTaskId == s.activeTaskId
      && r.state.tasks.Keys == s.tasks.Keys + {id}
      && |r.state.tasks| == |s.tasks| + 1
      && r.state.tasks[id] == Task(id, Trim(RemoveSuffix(tab.value.title, TitleSuffix)),
           tab.value.location.value.origin + tab.value.location.value.pathname, Paused, 0, None)
      && (forall k :: k in s.tasks ==> r.state.tasks[k] == s.tasks[k])
  {
  }

  /** Adding a page whose id is already tracked changes nothing, not even the title. */
  lemma AddTaskKeepsExistingTask(s: TimerState, tab: Option<Tab>, id: string)
    requires tab.Some? && Contains(tab.value.url, BasecampHost)
    requires GetBasecampId(tab.value.location) == Some(id)
    requires id in s.tasks
    ensures AddTask(s, tab) == Step(AddSucceeded, s)
  {
  }

  /**
   * The reply of an add: `success: false` with the page error exactly when
   * the tab is not a Basecamp page, with the id error exactly when no id is
   * found, and `success: true` with no error otherwise.
   */
  lemma AddTaskReplies(s: TimerState, tab: Option<Tab>)
    ensures var m := ReplyOf(AddTask(s, tab).response);
      && (m == Reply(false, Some(NotBasecampMessage)) <==> tab.None? || !Contains(tab.value.url, BasecampHost))
      && (m == Reply(false, Some(NoTaskIdMessage)) <==>
            tab.Some? && Contains(tab.value.url, BasecampHost) && GetBasecampId(tab.value.location).None?)
      && (m == Reply(true, None) <==>
            tab.Some? && Contains(tab.value.url, BasecampHost) && GetBasecampId(tab.value.location).Some?)
  {
  }

  /** Storing a new paused record under its own digit id keeps the state valid. */
  lemma InsertPausedKeepsValid(s: TimerState, t: Task)
    requires Valid(s) && t.id !in s.tasks && IsDigitRun(t.id)
    requires t.status == Paused && t.lastStartTime.None?
    ensures Valid(s.(tasks := s.tasks[t.id := t]))
  {
  }

  /** Adding preserves the state invariant. */
  lemma AddTaskKeepsValid(s: TimerState, tab: Option<Tab>)
    requires Valid(s)
    ensures Valid(AddTask(s, tab).state)
  {
    if tab.Some? && Contains(tab.value.url, BasecampHost) {
      var id := GetBasecampId(tab.value.location);
      if id.Some? && id.value !in s.tasks {
        InsertPausedKeepsValid(s, NewTask(id.value, tab.value.title, tab.value.location.value));
      }
    }
  }

  // ---------------------------------------------------------------------------
  // handleToggleTask
  // ---------------------------------------------------------------------------

  /**
   * Closing a running interval: the time since the start is banked (a
   * missing start reads as 0, as `null` does in JavaScript arithmetic), the
   * start is cleared and the task is paused. Explicit pause and auto-pause
   * both use it.
   */
  function Pause(t: Task, now: int): (p: Task)
    ensures p.status == Paused && p.lastStartTime.None?
    ensures p.accumulatedTime - t.accumulatedTime == now - t.lastStartTime.GetOr(0)
    ensures p.(accumulatedTime := t.accumulatedTime, status := t.status, lastStartTime := t.lastStartTime) == t
  {
    t.(accumulatedTime := t.accumulatedTime + (now - t.lastStartTime.GetOr(0)),
       lastStartTime := None,
       status := Paused)
  }

  /** Opening a running interval at `now`; banked time is kept. */
  function Start(t: Task, now: int): (r: Task)
    ensures r.status == Running && r.lastStartTime == Some(now)
    ensures r.(status := t.status, lastStartTime := t.lastStartTime) == t
  {
    t.(status := Running, lastStartTime := Some(now))
  }

  /**
   * Starting `taskId` auto-pauses the active task: only when `activeTaskId`
   * is set (a non-empty string), names another task, and that task exists.
   */
  predicate AutoPauses(s: TimerState, taskId: string) {
    && s.activeTaskId.Some? && s.activeTaskId.value != ""
    && s.activeTaskId.value != taskId
    && s.activeTaskId.value in s.tasks
  }

  /**
   * Toggling a task at time `now`: an unknown id fails; a running task is
   * paused and the active id cleared; a paused task is started, after the
   * other active task (if any) is paused, and becomes the active task.
   */
  function Toggle(s: TimerState, taskId: string, now: int): (r: Step<bool>)
    ensures r.response <==> taskId in s.tasks
    ensures !r.response ==> r.state == s
    ensures r.state.tasks.Keys == s.tasks.Keys
    ensures r.response ==> (r.state.activeTaskId == Some(taskId) <==> s.tasks[taskId].status == Paused)
  {
    if taskId !in s.tasks then Step(false, s)
    else
      var target := s.tasks[taskId];
      if target.status == Running then
        Step(true, TimerState(None, s.tasks[taskId := Pause(target, now)]))
      else
        var tasks :=
          if AutoPauses(s, taskId) then
            var activeId := s.activeTaskId.value;
            s.tasks[activeId := Pause(s.tasks[activeId], now)]
          else s.tasks;
        Step(true, TimerState(Some(taskId), tasks[taskId := Start(target, now)]))
  }

  /** Toggling an unknown id fails and changes nothing. */
  lemma ToggleUnknownTask(s: TimerState, taskId: string, now: int)
    requires taskId !in s.tasks
    ensures Toggle(s, taskId, now) == Step(false, s)
  {
  }

  /**
   * Toggling a running task banks the open interval into it, pauses it,
   * clears the active id and touches no other task; the banked time does not
   * shrink when the task started no later than `now`.
   */
  lemma TogglePausesRunningTask(s: TimerState, taskId: string, now: int)
    requires taskId in s.tasks && s.tasks[taskId].status == Running
    ensures var r := Toggle(s, taskId, now); var old_t := s.tasks[taskId];
      && r.response
      && r.state.activeTaskId.None?
      && r.state.tasks.Keys == s.tasks.Keys
      && r.state.tasks[taskId] == Pause(old_t, now)
      && r.state.tasks[taskId].status == Paused
      && r.state.tasks[taskId].lastStartTime.None?
      && r.state.tasks[taskId].accumulatedTime == old_t.accumulatedTime + (now - old_t.lastStartTime.GetOr(0))
      && (old_t.lastStartTime.GetOr(0) <= now ==>
            r.state.tasks[taskId].accumulatedTime >= old_t.accumulatedTime)
      && (forall k :: k in s.tasks && k != taskId ==> r.state.tasks[k] == s.tasks[k])
  {
  }

  /**
   * Toggling a paused task starts it at `now` with its banked time kept and
   * makes it the active task. A different active task that exists is paused
   * with the same accounting as an explicit pause; a dangling active id is
   * ignored. No other task changes.
   */
  lemma ToggleStartsPausedTask(s: TimerState, taskId: string, now: int)
    requires taskId in s.tasks && s.tasks[taskId].status == Paused
    ensures var r := Toggle(s, taskId, now);
      && r.response
      && r.state.activeTaskId == Some(taskId)
      && r.state.tasks.Keys == s.tasks.Keys
      && r.state.tasks[taskId] == Start(s.tasks[taskId], now)
      && r.state.tasks[taskId].accumulatedTime == s.tasks[taskId].accumulatedTime
      && (AutoPauses(s, taskId) ==>
            r.state.tasks[s.activeTaskId.value] == Pause(s.tasks[s.activeTaskId.value], now))
      && (forall k :: k in s.tasks && k != taskId && !(AutoPauses(s, taskId) && k == s.activeTaskId.value) ==>
            r.state.tasks[k] == s.tasks[k])
  {
  }

  /** Toggling preserves the state invariant. */
  lemma ToggleKeepsValid(s: TimerState, taskId: string, now: int)
    requires Valid(s)
    ensures Valid(Toggle(s, taskId, now).state)
  {
  }

  /**
   * In a valid state whose running task started no later than `now`,
   * toggling never decreases any task's banked time.
   */
  lemma ToggleNeverLosesTime(s: TimerState, taskId: string, now: int)
    requires Valid(s) && StartedBy(s, now)
    ensures var r := Toggle(s, taskId, now).state;
      && r.tasks.Keys == s.tasks.Keys
      && forall k :: k in s.tasks ==> r.tasks[k].accumulatedTime >= s.tasks[k].accumulatedTime
  {
  }

  /**
   * Switching between two tasks: A started at 1000 and B started at 6000
   * leaves A paused with 5000 banked; pausing B at 9000 banks 3000 into B
   * and clears the active id.
   */
  lemma SwitchingScenario(a: Task, b: Task)
    requires a == Task("1", a.title, a.url, Paused, 0, None)
    requires b == Task("2", b.title, b.url, Paused, 0, None)
    ensures var s0 := TimerState(None, map["1" := a, "2" := b]);
      var s1 := Toggle(s0, "1", 1000).state;
      var s2 := Toggle(s1, "2", 6000).state;
      var s3 := Toggle(s2, "2", 9000).state;
      && s2.activeTaskId == Some("2")
      && s2.tasks["1"] == a.(accumulatedTime := 5000)
      && s2.tasks["2"] == b.(status := Running, lastStartTime := Some(6000))
      && s3.activeTaskId.None?
      && s3.tasks["2"] == b.(accumulatedTime := 3000)
      && s3.tasks["1"] == s2.tasks["1"]
  {
  }

  // ---------------------------------------------------------------------------
  // handleDeleteTask
  // ---------------------------------------------------------------------------

  /**
   * Deleting a task: the record goes away, with its unbanked time, and the
   * active id is cleared when it named that task. It always succeeds.
   */
  function Delete(s: TimerState, taskId: string): (r: Step<bool>)
    ensures r.response
    ensures r.state.tasks.Keys == s.tasks.Keys - {taskId}
    ensures r.state.activeTaskId != Some(taskId)
  {
    var activeTaskId := if s.activeTaskId == Some(taskId) then None else s.activeTaskId;
    Step(true, TimerState(activeTaskId, s.tasks - {taskId}))
  }

  /**
   * Deleting removes exactly the given id, clears the active id if and only
   * if it named that id, and leaves every other task as it was.
   */
  lemma DeleteRemovesOnlyThatTask(s: TimerState, taskId: string)
    ensures var r := Delete(s, taskId);
      && r.response
      && r.state.tasks.Keys == s.tasks.Keys - {taskId}
      && (forall k :: k in r.state.tasks ==> r.state.tasks[k] == s.tasks[k])
      && (r.state.activeTaskId.None? <==> s.activeTaskId.None? || s.activeTaskId == Some(taskId))
      && (r.state.activeTaskId.Some? ==> r.state.activeTaskId == s.activeTaskId)
      && (taskId !in s.tasks ==> r.state.tasks == s.tasks)
  {
  }

  /** Deleting preserves the state invariant. */
  lemma DeleteKeepsValid(s: TimerState, taskId: string)
    requires Valid(s)
    ensures Valid(Delete(s, taskId).state)
  {
  }

  // ---------------------------------------------------------------------------
  // The loaded state, updated in place by the handlers
  // ---------------------------------------------------------------------------

  /**
   * The `data` object a handler loads, mutates field by field and saves.
   * Task records are values: each load yields fresh records that share
   * nothing, so writing a changed record back is the same as changing it.
   */
  class TimerData {
    var activeTaskId: Option<string>
    var tasks: map<string, Task>

    function State(): TimerState
      reads this
    {
      TimerState(activeTaskId, tasks)
    }

    /** `getData()`: the stored record, or the default state. */
    constructor Load(stored: Option<TimerState>)
      ensures State() == GetData(stored)
      ensures stored.None? ==> Valid(State())
    {
      var data := GetData(stored);
      activeTaskId := data.activeTaskId;
      tasks := data.tasks;
    }

    /** `handleAddTask` on the active tab. */
    method HandleAddTask(tab: Option<Tab>) returns (response: AddResponse)
      modifies this
      ensures Step(response, State()) == AddTask(old(State()), tab)
      ensures Valid(old(State())) ==> Valid(State())
    {
      if Valid(State()) {
        AddTaskKeepsValid(State(), tab);
      }
      if tab.None? || !Contains(tab.value.url, BasecampHost) {
        return AddFailed(NotBasecampPage);
      }
      var id := GetBasecampId(tab.value.location);
      if id.None? {
        return AddFailed(NoTaskId);
      }
      if id.value !in tasks {
        var cleanTitle := CleanTitle(tab.value.title);
        var cleanUrl := CleanUrl(tab.value.location.value);
        tasks := tasks[id.value := Task(id.value, cleanTitle, cleanUrl, Paused, 0, None)];
      }
      return AddSucceeded;
    }

    /** `handleToggleTask` at time `now`. */
    method HandleToggleTask(taskId: string, now: int) returns (success: bool)
      modifies this
      ensures Step(success, State()) == Toggle(old(State()), taskId, now)
      ensures Valid(old(State())) ==> Valid(State())
    {
      if Valid(State()) {
        ToggleKeepsValid(State(), taskId, now);
      }
      if taskId !in tasks {
        return false;
      }
      var target := tasks[taskId];
      if target.status == Running {
        target := target.(accumulatedTime := target.accumulatedTime + (now - target.lastStartTime.GetOr(0)));
        target := target.(lastStartTime := None);
        target := target.(status := Paused);
        tasks := tasks[taskId := target];
        activeTaskId := None;
      } else {
        if activeTaskId.Some? && activeTaskId.value != "" && activeTaskId.value != taskId {
          var activeId := activeTaskId.value;
          if activeId in tasks {
            var active := tasks[activeId];
            active := active.(accumulatedTime := active.accumulatedTime + (now - active.lastStartTime.GetOr(0)));
            active := active.(lastStartTime := None);
            active := active.(status := Paused);
            tasks := tasks[activeId := active];
          }
        }
        target := target.(status := Running);
        target := target.(lastStartTime := Some(now));
        tasks := tasks[taskId := target];
        activeTaskId := Some(taskId);
      }
      return true;
    }

    /** `handleDeleteTask`. */
    method HandleDeleteTask(taskId: string) returns (success: bool)
      modifies this
      ensures Step(success, State()) == Delete(old(State()), taskId)
      ensures Valid(old(State())) ==> Valid(State())
    {
      if Valid(State()) {
        DeleteKeepsValid(State(), taskId);
      }
      if activeTaskId == Some(taskId) {
        activeTaskId := None;
      }
      tasks := tasks - {taskId};
      return true;
    }
  }
}
