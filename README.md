# Basecamp timer: the timer state machine in Dafny

A model of the core of a browser extension that tracks time against
Basecamp to-dos and cards. The extension has two parts:

- The background worker (`background.js`) keeps one stored record, `{activeTaskId, tasks}`.
  - It derives a task id from a page URL.
  - It handles three commands: add the current page, toggle a task's timer, delete a task.
- The popup (`popup.js`) shows each task's elapsed time as `HH:MM:SS`, with the running task first.

The project has four modules:

- `Wrappers` (`wrappers.dfy`): `Option`, which stands for JavaScript's `null`.
- `JsStrings` (`strings.dfy`): the JavaScript string built-ins the code relies on.
  - `includes`, `split` on one character, `trim`, `padStart` and the `/^\d+$/` test.
  - `Number.prototype.toString` on integers, with a decimal reader to read its output back.
- `Background` (`background.dfy`): the stored state and the worker's operations.
  - `GetData` supplies the default empty state.
  - `GetBasecampId` is the task-id parser.
  - `AddTask`, `Toggle` and `Delete` are the three handlers as functions from the old state to a response and a new state.
  - The `TimerData` class holds the loaded `data` object. Its `HandleAddTask`, `HandleToggleTask` and `HandleDeleteTask` methods change its `activeTaskId` and `tasks` fields step by step, as the worker does. Each is proved equal to the matching function.
  - `Valid` is the state invariant:
    - every task is stored under its own digit id;
    - a paused task has no start time and a running task has one;
    - every running task is the active task, and the active task exists and is running.
- `Popup` (`popup.dfy`): the popup's pure helpers.
  - `CalculateTime` is the elapsed time shown for a task.
  - `FormatTime` is the `HH:MM:SS` text.
  - `Compare` and `ActiveFirst` give the row order of `render`.

Time is an explicit `now` parameter, in milliseconds. It replaces the
worker's and the popup's reads of `Date.now()`.

Three behaviours of the code are easy to miss:

- The id is the last path segment when it is all digits (`background.js:58-66`). There is no list of accepted resource types, so `/buckets/1/comments/42` yields `"42"` (lemma `CommentUrlYieldsItsNumber`).
- Adding a page creates the task paused (`background.js:105`). It does not start the task, does not pause the active one, and does not refresh the title of a task that already exists (`background.js:93`).
- Deleting the active task discards its open interval (`background.js:150-158`).

## Model

| member | source | states |
|---|---|---|
| `JsStrings.Contains` | background.js:77 | `url.includes(pat)` holds exactly when `pat` occurs in `url` at some index |
| `JsStrings.Split` | background.js:59 | `split('/')` yields at least one piece; no piece holds the separator; joining the pieces with it gives back the input |
| `JsStrings.SplitJoin` | background.js:59 | `split` inverts `join` when no piece contains the separator |
| `JsStrings.LastPieceIsFinalSegment` | background.js:59-60 | `segments[segments.length - 1]` is a suffix of the path with no `/`; it is the whole path or follows a `/` |
| `JsStrings.NatToString` | popup.js:136 | `n.toString()` for `n >= 0` is a digit run with no leading zero; it reads back as `n`; one digit exactly below 10, at most two below 100 |
| `JsStrings.IntToString` | popup.js:136 | `n.toString()` for `n >= 0` is a digit run with no leading zero that reads back as `n`; for `n < 0` it is `-` followed by such a run that reads back as `-n` |
| `JsStrings.IsDigitRun` | background.js:63 | `/^\d+$/.test(s)` holds exactly when `s` is one or more ASCII digits; such a string holds no `/`, `:` or `-` |
| `JsStrings.PadStart` | popup.js:136 | `padStart(2, '0')` keeps a string of 2 or more characters as it is; a shorter one gets leading `0`s up to length 2, and the input stays as the tail |
| `JsStrings.TrimStart` | background.js:95 | the result is a suffix of the input; what was dropped is all whitespace; the result does not start with whitespace |
| `JsStrings.TrimEnd` | background.js:95 | the result is a prefix of the input; what was dropped is all whitespace; the result does not end with whitespace |
| `JsStrings.Trim` | background.js:95 | `trim()` returns a window of the input with only whitespace outside it, and the result neither starts nor ends with whitespace |
| `JsStrings.RemoveSuffix` | background.js:95 | `replace(/ on Basecamp$/, '')` removes one copy of the suffix, only when it ends the title; otherwise the title is unchanged |
| `Background.ValidHasOneActiveTimer` | background.js:122-143 | in a valid state at most one task is running; `activeTaskId` is set exactly when one is, and it names that task |
| `Background.DefaultState` | background.js:38 | the default state is valid, with no active task and no tasks |
| `Background.GetData` | background.js:36-39 | the stored record when there is one; with nothing stored, a valid state with no active task and no tasks |
| `Background.ErrorMessage` | background.js:76-88 | each add error has its own text: "This is not a Basecamp page." for a page outside Basecamp, the id message for a missing id |
| `Background.ReplyOf` | background.js:76-112 | the reply object has `success: true` and no error exactly for a successful add; a failed add carries its error's text |
| `Background.AddTaskReplies` | background.js:76-112 | the reply carries the page error exactly when the tab is not a Basecamp page, the id error exactly when no id is found, and `{success: true}` otherwise |
| `Background.DropTrailingSlash` | background.js:53-56 | removes one trailing `/` if there is one, otherwise keeps the path |
| `Background.GetBasecampId` | background.js:47-71 | a returned id comes from a URL that parses; it is a digit run and the last segment of the path after one trailing `/` is dropped |
| `Background.GetBasecampIdExact` | background.js:47-71 | the parser returns `d` if and only if the URL parses and `d` is a digit run forming that last segment; a URL that does not parse yields no id |
| `Background.GetBasecampIdIgnoresQueryAndHash` | background.js:49-51 | the query and the fragment never change the id |
| `Background.CommentUrlYieldsItsNumber` | background.js:58-66 | any numeric last segment is taken whatever precedes it: `/buckets/1/comments/42` gives `"42"` |
| `Background.AddTask` | background.js:73-113 | a failed add leaves the state unchanged; the active id is never changed; every existing task is kept as it was, and at most one is added |
| `Background.AddTaskErrors` | background.js:76-88 | add fails with "not a Basecamp page" exactly when there is no tab or its URL lacks `3.basecamp.com`; it fails with "no id" exactly when the domain passes and the parser finds no id; a failure leaves the state unchanged |
| `Background.AddTaskCreatesPausedTask` | background.js:92-110 | a new id adds exactly one task: paused, 0 ms, no start, title with one trailing " on Basecamp" removed then trimmed, URL = origin + pathname; the active id and all other tasks are unchanged |
| `Background.AddTaskKeepsExistingTask` | background.js:92-112 | a known id succeeds and leaves the whole state unchanged, title included |
| `Background.AddTaskKeepsValid` | background.js:92-110 | adding keeps the state invariant |
| `Background.Pause` | background.js:124-126 | pausing banks `now - lastStartTime` (a `null` start counts as 0), clears the start and sets `paused`; no other field changes |
| `Background.Start` | background.js:141-142 | starting sets `running` and the start to `now`; no other field changes |
| `Background.Toggle` | background.js:115-148 | toggle succeeds exactly when the id is a task; a failure changes nothing; the task ids are kept; on success the toggled task becomes the active one exactly when it was paused |
| `Background.ToggleUnknownTask` | background.js:118-120 | toggling an absent id returns failure and changes nothing |
| `Background.TogglePausesRunningTask` | background.js:122-127 | toggling a running task banks its open interval, pauses it and clears `activeTaskId`; the record becomes `Pause` of the old one, so `id`, `title` and `url` are kept; no other task changes; banked time does not shrink when the start is no later than `now` |
| `Background.ToggleStartsPausedTask` | background.js:128-144 | toggling a paused task starts it at `now` and keeps its banked time; it becomes the active task; another active task that exists is paused with the same accounting as `Pause`; a dangling active id is ignored; no other task changes |
| `Background.ToggleKeepsValid` | background.js:115-148 | toggling keeps the state invariant, so one running task named by `activeTaskId` stays one |
| `Background.ToggleNeverLosesTime` | background.js:124-136 | in a valid state whose running task started by `now`, toggling never decreases any task's banked time |
| `Background.SwitchingScenario` | background.js:128-144 | start A at 1000, start B at 6000: A is paused with 5000 banked and B runs; pausing B at 9000 banks 3000 and clears the active id |
| `Background.Delete` | background.js:150-159 | delete always succeeds, removes exactly the given id, and never leaves that id active |
| `Background.DeleteRemovesOnlyThatTask` | background.js:150-158 | delete removes exactly that id and always succeeds; it clears `activeTaskId` if and only if that id was active; other tasks are unchanged, so no time is banked; an absent id leaves `tasks` unchanged |
| `Background.DeleteKeepsValid` | background.js:150-158 | deleting keeps the state invariant |
| `Background.TimerData.Load` | background.js:36-39 | the loaded `data` is the stored record or the default state |
| `Background.TimerData.HandleAddTask` | background.js:73-113 | the in-place add gives the response and the new fields `AddTask` gives, and keeps the invariant |
| `Background.TimerData.HandleToggleTask` | background.js:115-148 | the field-by-field toggle gives the result and the new fields `Toggle` gives, and keeps the invariant |
| `Background.TimerData.HandleDeleteTask` | background.js:150-159 | the in-place delete gives the result and the new fields `Delete` gives, and keeps the invariant |
| `Popup.CalculateTime` | popup.js:122-128 | a running task with a truthy start shows its banked time plus `now - lastStartTime`; a paused task, a task without a start and a task whose start is 0 show only the banked time; a task started no later than `now` never shows less than its banked time |
| `Popup.ShownTimeNonNegative` | popup.js:122-128 | when every banked time is non-negative and every start is no later than `now`, every task's shown time is non-negative |
| `Popup.PauseKeepsShownTime` | popup.js:122-128 | pausing a running task at `now` leaves the time shown at `now` unchanged |
| `Popup.StartKeepsShownTime` | popup.js:122-128 | starting a paused task at `now` leaves the time shown at `now` unchanged |
| `Popup.ToggleKeepsShownTimes` | popup.js:122-128 | one toggle at `now` in a valid state leaves every task's shown time at `now` unchanged: the paused, the auto-paused and the started task |
| `Popup.FloorDiv` | popup.js:132-133 | `Math.floor(a / b)` is the `q` with `b*q <= a < b*q + b` |
| `Popup.JsRem` | popup.js:134-135 | JavaScript `%` by a positive divisor lies strictly between `-b` and `b`; it equals the true remainder for `a >= 0` and is not positive for `a < 0` |
| `Popup.ClockOf` | popup.js:132-135 | minutes lie in `[-60, 60)` and seconds strictly between -60 and 60 for any duration; for `ms >= 0` all three numbers are non-negative (`ClockOfDecomposes` gives their values) |
| `Popup.ClockOfDecomposes` | popup.js:132-135 | for `ms >= 0`, `h >= 0`, `0 <= m < 60`, `0 <= s < 60` and `h*3600 + m*60 + s = floor(ms / 1000)` |
| `Popup.Field` | popup.js:136 | a padded field is at least two characters long, and exactly two for `0 <= n < 100` |
| `Popup.FieldReadsBack` | popup.js:136 | a padded field of `n >= 0` is a digit run of length 2 or more that reads back as `n`; it is exactly two long when `n < 100` |
| `Popup.FormatTime` | popup.js:131-137 | the text is at least 8 characters long, the length of `HH:MM:SS`, and exactly 8 for a duration from 0 up to 100 hours; `FormatTimeReadsBack` gives its three fields and their values |
| `Popup.FormatTimeReadsBack` | popup.js:131-137 | for `ms >= 0` the text splits on `:` into three digit fields. Hours are at least two long and never cut at 99. Minutes and seconds are exactly two long and below 60. Read back, the fields give `floor(ms / 1000)` |
| `Popup.Compare` | popup.js:36-40 | the comparator is negative exactly when `a` is the active id; it is positive exactly when `b` is the active id and differs from `a` |
| `Popup.CompareAntisymmetric` | popup.js:36-40 | on distinct ids, swapping the arguments negates the result |
| `Popup.ActiveFirst` | popup.js:36-40 | the sorted ids are exactly the given ids (`ActiveFirstIsStableSort` gives the order) |
| `Popup.ActiveFirstIsStableSort` | popup.js:36-40 | on distinct ids the row order is a permutation ordered by `Compare` and stable among ties; the active id comes first when it is a key; otherwise the order is unchanged |
| `Popup.RenderOrder` | popup.js:36-40 | the rows list exactly the task ids, and the active id comes first whenever it is a task id |

## Left out

- Browser host calls are not modelled.
  - Storage get and set: each handler works on a state that is already loaded, and saving it is the caller's business.
  - The active-tab query: the tab is a parameter.
  - `chrome.tabs.create` for `OPEN_LINK`, the badge updates, the message router and the `onInstalled` initialisation (it writes the same default state as `GetData`).
- Async interleaving of the load, modify and save round trip is not modelled. Each handler is one atomic step.
- WHATWG URL parsing is not modelled. A `Tab` carries the parse result (`origin`, `pathname`, `search`, `hash`), with `None` when the parser throws. The model does not tie that result to the URL text.
- A tab whose `url` the browser withholds is not modelled. In the source, `undefined.includes` then throws. In the model a URL is always a string.
- `formatDecimal` is left out: it uses floating-point division and `toFixed`.
- The DOM side of the popup is left out, as UI only: `render`'s DOM work, `loadData`, `updateActiveTimerVisuals`, `showError`, the click handlers, `confirm`, the clipboard and the `setInterval` tick.
- Numbers are unbounded integers. JavaScript numbers are doubles, which hold integers exactly only up to 2^53 in magnitude. `Date.now()` values are far below that.
- Strings are sequences of Unicode scalar values. JavaScript strings are UTF-16 code units, so lengths differ for characters outside the Basic Multilingual Plane. No operation modelled here depends on that.
- Task records are datatype values in a `map` field, not shared objects. Each load in the source parses a fresh JSON copy, so no two entries alias. Writing a changed record back then has the same effect as mutating it.
- `tasks` is a plain dictionary. Property names inherited from `Object.prototype` (such as `tasks["constructor"]`) are not modelled. Ids produced by the parser are digit runs and never hit them.
- The order of `Object.keys` is not modelled. `RenderOrder` takes the key sequence as given. It must list each task id exactly once.
- Popup.JsRem: for a negative dividend the contract gives only the sign and the bound of the remainder, not its exact value. The `formatTime` properties are proved for non-negative durations, which are the only ones produced when banked times are non-negative and every start is no later than `now` (lemma `ShownTimeNonNegative`). A valid state alone does not ensure this: `Date.now()` can step backwards.
- Popup.PauseKeepsShownTime: requires a start time other than 0. `calculateTime` treats a start of 0 as no start, while the worker banks `now - 0`. A 0 timestamp would mean a clock at the epoch.
- Popup.ToggleKeepsShownTimes: requires that no task has a start time of 0, for the same reason.
