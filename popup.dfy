/**
 * The popup's pure helpers: the elapsed time it shows for a task, the
 * `HH:MM:SS` rendering of a duration, and the order in which task rows are
 * listed (the active task first).
 */
module Popup {
  import opened Wrappers
  import opened JsStrings
  import opened Background

  // ---------------------------------------------------------------------------
  // calculateTime
  // ---------------------------------------------------------------------------

  /**
   * The time shown for `task` at `now`: its banked time, plus the open
   * interval when it is running and its start time is truthy (neither `null`
   * nor 0).
   */
  function CalculateTime(task: Task, now: int): (t: int)
    ensures task.status == Paused ==> t == task.accumulatedTime
    ensures task.lastStartTime.None? ==> t == task.accumulatedTime
    ensures task.lastStartTime == Some(0) ==> t == task.accumulatedTime
    ensures task.status == Running && task.lastStartTime.Some? && task.lastStartTime.value != 0 ==>
      t == task.accumulatedTime + (now - task.lastStartTime.value)
    ensures task.lastStartTime.Some? && task.lastStartTime.value <= now ==> t >= task.accumulatedTime
  {
    if task.status == Running && task.lastStartTime.Some? && task.lastStartTime.value != 0 then
      task.accumulatedTime + (now - task.lastStartTime.value)
    else
      task.accumulatedTime
  }

  /**
   * Pausing a running task at `now` banks exactly what was shown at `now`:
   * no time is gained or lost at the pause boundary.
   */
  lemma PauseKeepsShownTime(t: Task, now: int)
    requires t.status == Running && t.lastStartTime.Some? && t.lastStartTime.value != 0
    ensures CalculateTime(Pause(t, now), now) == CalculateTime(t, now)
  {
  }

  /** Starting a paused task at `now` shows, at `now`, what it showed before. */
  lemma StartKeepsShownTime(t: Task, now: int)
    requires t.status == Paused
    ensures CalculateTime(Start(t, now), now) == CalculateTime(t, now)
  {
  }

  /**
   * Shown times are never negative when every banked time is non-negative
   * and every start is no later than `now`.
   */
  lemma ShownTimeNonNegative(s: TimerState, now: int)
    requires StartedBy(s, now)
    requires forall k :: k in s.tasks ==> s.tasks[k].accumulatedTime >= 0
    ensures forall k :: k in s.tasks ==> CalculateTime(s.tasks[k], now) >= 0
  {
  }

  /** No task's start time is 0, the one timestamp JavaScript treats as falsy. */
  ghost predicate NoZeroStart(s: TimerState) {
    forall k :: k in s.tasks ==> s.tasks[k].lastStartTime != Some(0)
  }

  /**
   * A toggle at `now` in a valid state leaves the time shown at `now` for
   * every task as it was: the paused task, the auto-paused one and the
   * started one alike.
   */
  lemma ToggleKeepsShownTimes(s: TimerState, taskId: string, now: int)
    requires Valid(s) && NoZeroStart(s)
    ensures var r := Toggle(s, taskId, now).state;
      && r.tasks.Keys == s.tasks.Keys
      && forall k :: k in s.tasks ==> CalculateTime(r.tasks[k], now) == CalculateTime(s.tasks[k], now)
  {
    var r := Toggle(s, taskId, now).state;
    if taskId in s.tasks {
      var target := s.tasks[taskId];
      if target.status == Running {
        PauseKeepsShownTime(target, now);
      } else {
        StartKeepsShownTime(target, now);
        if AutoPauses(s, taskId) {
          var active := s.activeTaskId.value;
          PauseKeepsShownTime(s.tasks[active], now);
        }
      }
    }
  }

  // ---------------------------------------------------------------------------
  // formatTime
  // ---------------------------------------------------------------------------

  /** `Math.floor(a / b)` for a positive divisor. */
  function FloorDiv(a: int, b: int): (q: int)
    requires b > 0
    ensures b * q <= a < b * q + b
  {
    a / b
  }

  /**
   * JavaScript's `a % b` for a positive divisor: the remainder of division
   * truncated toward zero, which takes the sign of `a`.
   */
  function JsRem(a: int, b: int): (r: int)
    requires b > 0
    ensures -b < r < b
    ensures a >= 0 ==> r == a % b
    ensures a < 0 ==> r <= 0
  {
    if a >= 0 then a % b else -((-a) % b)
  }

  /** The three numbers `formatTime` prints. */
  datatype Clock = Clock(hours: int, minutes: int, seconds: int)

  /** The arithmetic of `formatTime`, as the popup does it. */
  function ClockOf(ms: int): (c: Clock)
    ensures -60 <= c.minutes < 60 && -60 < c.seconds < 60
    ensures ms >= 0 ==> c.hours >= 0 && c.minutes >= 0 && c.seconds >= 0
  {
    var totalSeconds := FloorDiv(ms, 1000);
    Clock(FloorDiv(totalSeconds, 3600), FloorDiv(JsRem(totalSeconds, 3600), 60), JsRem(totalSeconds, 60))
  }

  /**
   * For a non-negative duration the three numbers are the whole hours, the
   * minutes below 60 and the seconds below 60 of the whole seconds in `ms`.
   */
  lemma ClockOfDecomposes(ms: int)
    requires ms >= 0
    ensures var c := ClockOf(ms);
      && c.hours >= 0 && 0 <= c.minutes < 60 && 0 <= c.seconds < 60
      && c.hours * 3600 + c.minutes * 60 + c.seconds == ms / 1000
  {
    var ts := ms / 1000;
    var c := ClockOf(ms);
    var h, r := ts / 3600, ts % 3600;
    var m, sec := r / 60, r % 60;
    assert c == Clock(h, m, ts % 60);
    assert ts == 3600 * h + r && r == 60 * m + sec;
    RemainderBy60(ts, 60 * h + m, sec);
  }

  /** The remainder of `60 * q + r` by 60 is `r` when `0 <= r < 60`. */
  lemma RemainderBy60(x: int, q: int, r: int)
    requires 0 <= r < 60 && x == 60 * q + r
    ensures x % 60 == r
  {
  }

  /** One field of the output: the number's digits, zero-padded to two. */
  function Field(n: int): (f: string)
    ensures |f| >= 2
    ensures 0 <= n < 100 ==> |f| == 2
  {
    PadStart(IntToString(n), 2, '0')
  }

  /** The three numbers of a clock as padded fields joined by `:`. */
  function FormatClock(c: Clock): (f: string)
    ensures |f| >= 8
    ensures 0 <= c.hours < 100 && 0 <= c.minutes < 100 && 0 <= c.seconds < 100 ==> |f| == 8
  {
    Field(c.hours) + ":" + Field(c.minutes) + ":" + Field(c.seconds)
  }

  /**
   * `formatTime(ms)`: hours, minutes and seconds joined by `:`. The text is
   * at least `HH:MM:SS` long, and exactly that long below 100 hours;
   * `FormatTimeReadsBack` gives its fields.
   */
  function FormatTime(ms: int): (f: string)
    ensures |f| >= 8
    ensures 0 <= ms < 100 * 3600 * 1000 ==> |f| == 8
  {
    if ms >= 0 then
      HoursBelow100(ms);
      FormatClock(ClockOf(ms))
    else
      FormatClock(ClockOf(ms))
  }

  /** Below 100 hours the hour count is below 100. */
  lemma HoursBelow100(ms: int)
    requires ms >= 0
    ensures ms < 100 * 3600 * 1000 ==> ClockOf(ms).hours < 100
  {
    var ts := FloorDiv(ms, 1000);
    if ms < 100 * 3600 * 1000 {
      assert ts < 360000;
    }
  }

  /** A padded field of a non-negative number is digits that read back as it. */
  lemma FieldReadsBack(n: nat)
    ensures IsDigitRun(Field(n)) && |Field(n)| >= 2 && DecimalValue(Field(n)) == n
    ensures n < 100 ==> |Field(n)| == 2
  {
    var d := NatToString(n);
    if |d| < 2 {
      assert Field(n) == "0" + d;
      DecimalValueLeadingZero(d);
    }
  }

  /**
   * For a non-negative duration the output is three `:`-separated digit
   * fields, each at least two long (hours are never cut at 99), minutes and
   * seconds exactly two and below 60, and reading them back as decimal
   * numbers recovers the whole seconds in `ms`.
   */
  lemma {:induction false} FormatTimeReadsBack(ms: int)
    requires ms >= 0
    ensures var f := Split(FormatTime(ms), ':');
      && |f| == 3
      && IsDigitRun(f[0]) && IsDigitRun(f[1]) && IsDigitRun(f[2])
      && |f[0]| >= 2 && |f[1]| == 2 && |f[2]| == 2
      && DecimalValue(f[1]) < 60 && DecimalValue(f[2]) < 60
      && DecimalValue(f[0]) * 3600 + DecimalValue(f[1]) * 60 + DecimalValue(f[2]) == ms / 1000
  {
    var c := ClockOf(ms);
    ClockOfDecomposes(ms);
    ClockTextReadsBack(c);
  }

  /** A clock with in-range numbers reads back from its text field by field. */
  lemma ClockTextReadsBack(c: Clock)
    requires c.hours >= 0 && 0 <= c.minutes < 60 && 0 <= c.seconds < 60
    ensures var f := Split(FormatClock(c), ':');
      && |f| == 3
      && IsDigitRun(f[0]) && IsDigitRun(f[1]) && IsDigitRun(f[2])
      && |f[0]| >= 2 && |f[1]| == 2 && |f[2]| == 2
      && DecimalValue(f[0]) == c.hours && DecimalValue(f[1]) == c.minutes && DecimalValue(f[2]) == c.seconds
  {
    FieldReadsBack(c.hours);
    FieldReadsBack(c.minutes);
    FieldReadsBack(c.seconds);
    SplitThreeFields(Field(c.hours), Field(c.minutes), Field(c.seconds));
  }

  /** Three digit runs joined by `:` split back into themselves. */
  lemma SplitThreeFields(hh: string, mm: string, ss: string)
    requires IsDigitRun(hh) && IsDigitRun(mm) && IsDigitRun(ss)
    ensures Split(hh + ":" + mm + ":" + ss, ':') == [hh, mm, ss]
  {
    JoinThree(hh, mm, ss);
    SplitJoin([hh, mm, ss], ':');
  }

  lemma JoinThree(a: string, b: string, c: string)
    ensures Join([a, b, c], ':') == a + ":" + b + ":" + c
  {
    assert [a, b, c][1..] == [b, c];
    assert [b, c][1..] == [c];
    assert Join([b, c], ':') == b + ":" + c;
    assert a + [':'] + (b + ":" + c) == a + ":" + b + ":" + c;
  }

  // ---------------------------------------------------------------------------
  // The order of the rows in render
  // ---------------------------------------------------------------------------

  /**
   * The comparator of `render`: the active id sorts before any other id and
   * all other ids tie.
   */
  function Compare(a: string, b: string, activeTaskId: Option<string>): (c: int)
    ensures c < 0 <==> activeTaskId == Some(a)
    ensures c > 0 <==> activeTaskId == Some(b) && a != b
  {
    if activeTaskId == Some(a) then -1
    else if activeTaskId == Some(b) then 1
    else 0
  }

  /** On distinct ids the comparator is antisymmetric, as a sort comparator must be. */
  lemma CompareAntisymmetric(a: string, b: string, activeTaskId: Option<string>)
    requires a != b
    ensures Compare(b, a, activeTaskId) == -Compare(a, b, activeTaskId)
  {
  }

  /** `keys` with every occurrence of `x` removed, the rest in order. */
  function Without(keys: seq<string>, x: string): (r: seq<string>)
    ensures |r| <= |keys|
    ensures forall k :: k in r <==> k in keys && k != x
    decreases |keys|
  {
    if |keys| == 0 then []
    else (if keys[0] == x then [] else [keys[0]]) + Without(keys[1..], x)
  }

  /** No id occurs twice, as with the keys of an object. */
  predicate Distinct(keys: seq<string>) {
    forall i, j :: 0 <= i < j < |keys| ==> keys[i] != keys[j]
  }

  /**
   * The ids sorted by `Compare` with a stable sort: the active id first when
   * it is one of them, then the others in their original order.
   */
  function ActiveFirst(keys: seq<string>, activeTaskId: Option<string>): (r: seq<string>)
    ensures forall k :: k in r <==> k in keys
  {
    if activeTaskId.Some? && activeTaskId.value in keys then
      [activeTaskId.value] + Without(keys, activeTaskId.value)
    else keys
  }

  lemma {:induction false} WithoutAbsent(keys: seq<string>, x: string)
    requires x !in keys
    ensures Without(keys, x) == keys
    decreases |keys|
  {
    if |keys| > 0 {
      WithoutAbsent(keys[1..], x);
      assert [keys[0]] + keys[1..] == keys;
    }
  }

  /** Removing an id removes its one occurrence and keeps the count of every other id. */
  lemma {:induction false} WithoutCounts(keys: seq<string>, x: string)
    requires Distinct(keys) && x in keys
    ensures multiset(Without(keys, x)) + multiset{x} == multiset(keys)
    decreases |keys|
  {
    assert [keys[0]] + keys[1..] == keys;
    if keys[0] == x {
      assert x !in keys[1..];
      WithoutAbsent(keys[1..], x);
    } else {
      WithoutCounts(keys[1..], x);
    }
  }

  /**
   * Sorting with `Compare` is a permutation of the distinct ids, ordered by
   * the comparator, stable among the ids that tie, and puts the active id
   * first when it is one of them.
   */
  lemma ActiveFirstIsStableSort(keys: seq<string>, activeTaskId: Option<string>)
    requires Distinct(keys)
    ensures var r := ActiveFirst(keys, activeTaskId);
      && multiset(r) == multiset(keys)
      && (forall i, j :: 0 <= i < j < |r| ==> Compare(r[i], r[j], activeTaskId) <= 0)
      && (activeTaskId.Some? ==> Without(r, activeTaskId.value) == Without(keys, activeTaskId.value))
      && (activeTaskId.Some? && activeTaskId.value in keys ==> r[0] == activeTaskId.value)
      && (activeTaskId.None? || activeTaskId.value !in keys ==> r == keys)
  {
    ActiveFirstOrdered(keys, activeTaskId);
    if activeTaskId.Some? && activeTaskId.value in keys {
      MoveToFront(keys, activeTaskId.value);
    }
  }

  /**
   * Putting `a` in front of the other ids keeps the same ids and leaves the
   * others in their order.
   */
  lemma MoveToFront(keys: seq<string>, a: string)
    requires Distinct(keys) && a in keys
    ensures var r := [a] + Without(keys, a);
      && multiset(r) == multiset(keys)
      && Without(r, a) == Without(keys, a)
  {
    var rest := Without(keys, a);
    var r := [a] + rest;
    WithoutCounts(keys, a);
    assert Without(r, a) == Without(rest, a) by {
      assert r[0] == a && r[1..] == rest;
    }
    WithoutAbsent(rest, a);
  }

  /** The ids come out ordered by the comparator. */
  lemma ActiveFirstOrdered(keys: seq<string>, activeTaskId: Option<string>)
    ensures var r := ActiveFirst(keys, activeTaskId);
      forall i, j :: 0 <= i < j < |r| ==> Compare(r[i], r[j], activeTaskId) <= 0
  {
    var r := ActiveFirst(keys, activeTaskId);
    if activeTaskId.Some? && activeTaskId.value in keys {
      var rest := Without(keys, activeTaskId.value);
      forall i, j | 0 <= i < j < |r|
        ensures Compare(r[i], r[j], activeTaskId) <= 0
      {
        assert r[j] == rest[j - 1];
        assert r[j] in rest;
      }
    } else {
      forall i, j | 0 <= i < j < |r|
        ensures Compare(r[i], r[j], activeTaskId) <= 0
      {
        assert r[i] in keys;
      }
    }
  }

  /**
   * The row order of `render`: the ids of `data`'s tasks, listed in `keys`
   * order, re-sorted with the active id first. It lists exactly the task ids,
   * and the active id heads it whenever it is a task id.
   */
  function RenderOrder(data: TimerState, keys: seq<string>): (ids: seq<string>)
    requires Distinct(keys) && forall k :: k in keys <==> k in data.tasks
    ensures multiset(ids) == multiset(keys)
    ensures forall k :: k in ids <==> k in data.tasks
    ensures data.activeTaskId.Some? && data.activeTaskId.value in data.tasks ==>
      |ids| > 0 && ids[0] == data.activeTaskId.value
  {
    ActiveFirstIsStableSort(keys, data.activeTaskId);
    var ids := ActiveFirst(keys, data.activeTaskId);
    assert forall k :: k in ids <==> k in multiset(ids);
    ids
  }
}
