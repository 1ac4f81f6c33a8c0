/** The daily log page as a stateful object: the selected day, the map of
    day logs in insertion order, the task definitions it loaded, and the
    handlers that open the selected day's log and change it. */
module DailyLogView {
  import opened Values
  import opened Text
  import opened Calendar
  import opened Tasks
  import opened LogItems

  class DailyLog {
    /** The selected day, `selectedDate`. */
    var selectedDate: Date
    /** The `logs` map, keyed by `yyyy-MM-dd`. */
    var logs: map<string, DayLog>
    /** The map's keys in insertion order. */
    var keys: seq<string>
    var recurringTasks: seq<Task>
    var oneOffTasks: seq<Task>
    /** `crypto.randomUUID()`: the `n`th id drawn is `idFor(n)`. */
    const idFor: nat -> Id
    /** How many ids have been drawn. */
    var nextId: nat

    ghost predicate Valid()
      reads this
    {
      && ValidDate(selectedDate)
      && (forall i :: 0 <= i < |keys| ==> keys[i] in logs)
      && (forall k :: k in logs ==> k in keys)
      && (forall i, j :: 0 <= i < j < |keys| ==> keys[i] != keys[j])
    }

    /** The page as it mounts: today selected, no logs, no definitions. */
    constructor (today: Date, idFor: nat -> Id)
      requires ValidDate(today)
      ensures Valid()
      ensures selectedDate == today && logs == map[] && keys == []
      ensures recurringTasks == [] && oneOffTasks == [] && this.idFor == idFor && nextId == 0
    {
      selectedDate := today;
      logs := map[];
      keys := [];
      recurringTasks := [];
      oneOffTasks := [];
      this.idFor := idFor;
      nextId := 0;
    }

    /** The mount effect: each stored list that is present replaces the
        corresponding definitions. */
    method LoadTasks(storedRecurring: Option<seq<Task>>, storedOneOff: Option<seq<Task>>)
      requires Valid()
      modifies this
      ensures Valid()
      ensures recurringTasks == storedRecurring.GetOr(old(recurringTasks))
      ensures oneOffTasks == storedOneOff.GetOr(old(oneOffTasks))
      ensures selectedDate == old(selectedDate) && logs == old(logs) && keys == old(keys) && nextId == old(nextId)
    {
      if storedRecurring.Some? {
        recurringTasks := storedRecurring.value;
      }
      if storedOneOff.Some? {
        oneOffTasks := storedOneOff.value;
      }
    }

    /** The date picker's `onDateChange`. */
    method SelectDate(d: Date)
      requires Valid() && ValidDate(d)
      modifies this
      ensures Valid()
      ensures selectedDate == d
      ensures logs == old(logs) && keys == old(keys) && nextId == old(nextId)
      ensures recurringTasks == old(recurringTasks) && oneOffTasks == old(oneOffTasks)
    {
      selectedDate := d;
    }

    /** `dateKey`. */
    function CurrentKey(): string
      reads this
      requires ValidDate(selectedDate)
    {
      DateKey(selectedDate)
    }

    /** The log the next `getCurrentLog` returns. */
    function CurrentLog(now: Timestamp): DayLog
      reads this
      requires ValidDate(selectedDate)
    {
      OpenedLog(logs, recurringTasks, oneOffTasks, selectedDate, idFor, nextId, now)
    }

    /** The key order after the next `getCurrentLog`. */
    function KeysAfterOpening(): seq<string>
      reads this
      requires ValidDate(selectedDate)
    {
      if CurrentKey() in logs then keys else keys + [CurrentKey()]
    }

    /** The id counter after the next `getCurrentLog`. */
    function NextIdAfterOpening(): nat
      reads this
      requires ValidDate(selectedDate)
    {
      nextId + OpeningIds(logs, recurringTasks, oneOffTasks, selectedDate)
    }

    /** `getCurrentLog()`: returns the selected day's log; a day without one
        gets its new log stored under its key, appended to the key order. */
    method GetCurrentLog(now: Timestamp) returns (log: DayLog)
      requires Valid()
      modifies this
      ensures Valid()
      ensures log == old(CurrentLog(now))
      ensures logs == old(logs)[old(CurrentKey()) := log]
      ensures keys == old(KeysAfterOpening()) && nextId == old(NextIdAfterOpening())
      ensures selectedDate == old(selectedDate) && recurringTasks == old(recurringTasks) && oneOffTasks == old(oneOffTasks)
    {
      var key := DateKey(selectedDate);
      if key in logs {
        log := logs[key];
        return;
      }
      var prior := PriorLog(logs, selectedDate);
      var items := CollectApplicable(recurringTasks, oneOffTasks, selectedDate, idFor, nextId);
      log := DayLog(Carried(prior) + items, [], now);
      nextId := nextId + |items|;
      logs := logs[key := log];
      keys := keys + [key];
    }

    /** `updateLog(updates)`: opens the selected day's log and stores it
        with the given lists replaced. */
    method UpdateLog(updates: LogPatch, now: Timestamp)
      requires Valid()
      modifies this
      ensures Valid()
      ensures logs == old(logs)[old(CurrentKey()) := MergeLog(old(CurrentLog(now)), updates)]
      ensures keys == old(KeysAfterOpening()) && nextId == old(NextIdAfterOpening())
      ensures selectedDate == old(selectedDate) && recurringTasks == old(recurringTasks) && oneOffTasks == old(oneOffTasks)
    {
      ghost var keyBefore := CurrentKey();
      ghost var opening := CurrentLog(now);
      ghost var n := NextIdAfterOpening();
      ghost var openedLogs := logs[CurrentKey() := opening];
      var current := GetCurrentLog(now);
      assert logs == openedLogs && nextId == n && logs[CurrentKey()] == opening;
      var key := DateKey(selectedDate);
      assert key == keyBefore;
      ghost var mid := logs;
      logs := logs[key := MergeLog(current, updates)];
      assert logs == old(logs)[keyBefore := MergeLog(current, updates)];
      assert logs.Keys == mid.Keys;
    }

    /** `updateLog` on a day that is already open: only the selected day's
        log changes, to the stored log with the given lists replaced. */
    method UpdateOpenedLog(updates: LogPatch, now: Timestamp)
      requires Valid() && CurrentKey() in logs
      modifies this
      ensures Valid()
      ensures logs == old(logs)[CurrentKey() := MergeLog(old(logs[CurrentKey()]), updates)]
      ensures keys == old(keys) && nextId == old(nextId)
      ensures selectedDate == old(selectedDate) && recurringTasks == old(recurringTasks) && oneOffTasks == old(oneOffTasks)
    {
      UpdateLog(updates, now);
    }

    /** Draws the next id. */
    method FreshId() returns (id: Id)
      modifies this
      ensures id == idFor(old(nextId)) && nextId == old(nextId) + 1
      ensures selectedDate == old(selectedDate) && logs == old(logs) && keys == old(keys)
      ensures recurringTasks == old(recurringTasks) && oneOffTasks == old(oneOffTasks)
    {
      id := idFor(nextId);
      nextId := nextId + 1;
    }

    /** `handleAddTodoTask(content)`: an empty content changes nothing (not
        even the opening of the day); otherwise the item is appended. */
    method AddTodoTask(content: string, now: Timestamp)
      requires Valid()
      modifies this
      ensures Valid()
      ensures content == "" ==> logs == old(logs) && keys == old(keys) && nextId == old(nextId)
      ensures content != "" ==>
        && logs == old(logs)[old(CurrentKey()) := old(CurrentLog(now)).(todoTasks := AddTodo(old(CurrentLog(now)).todoTasks, content, idFor(old(NextIdAfterOpening()))))]
        && keys == old(KeysAfterOpening()) && nextId == old(NextIdAfterOpening()) + 1
      ensures selectedDate == old(selectedDate) && recurringTasks == old(recurringTasks) && oneOffTasks == old(oneOffTasks)
    {
      if content == "" {
        return;
      }
      ghost var opening := CurrentLog(now);
      ghost var n := NextIdAfterOpening();
      ghost var openedLogs := logs[CurrentKey() := opening];
      var current := GetCurrentLog(now);
      assert logs == openedLogs && nextId == n && logs[CurrentKey()] == opening;
      var id := FreshId();
      UpdateLog(LogPatch(Some(AddTodo(current.todoTasks, content, id)), None, None), now);
    }

    /** `handleEditTodoTask(taskId, newContent)`. */
    method EditTodoTask(taskId: Id, newContent: string, now: Timestamp)
      requires Valid()
      modifies this
      ensures Valid()
      ensures logs == old(logs)[old(CurrentKey()) := old(CurrentLog(now)).(todoTasks := EditTodo(old(CurrentLog(now)).todoTasks, taskId, newContent))]
      ensures keys == old(KeysAfterOpening()) && nextId == old(NextIdAfterOpening())
      ensures selectedDate == old(selectedDate) && recurringTasks == old(recurringTasks) && oneOffTasks == old(oneOffTasks)
    {
      ghost var opening := CurrentLog(now);
      ghost var n := NextIdAfterOpening();
      ghost var openedLogs := logs[CurrentKey() := opening];
      var current := GetCurrentLog(now);
      assert logs == openedLogs && nextId == n && logs[CurrentKey()] == opening;
      UpdateLog(LogPatch(Some(EditTodo(current.todoTasks, taskId, newContent)), None, None), now);
    }

    /** `handleDeleteTodoTask(taskId)`. */
    method DeleteTodoTask(taskId: Id, now: Timestamp)
      requires Valid()
      modifies this
      ensures Valid()
      ensures logs == old(logs)[old(CurrentKey()) := old(CurrentLog(now)).(todoTasks := DeleteTodo(old(CurrentLog(now)).todoTasks, taskId))]
      ensures keys == old(KeysAfterOpening()) && nextId == old(NextIdAfterOpening())
      ensures selectedDate == old(selectedDate) && recurringTasks == old(recurringTasks) && oneOffTasks == old(oneOffTasks)
    {
      ghost var opening := CurrentLog(now);
      ghost var n := NextIdAfterOpening();
      ghost var openedLogs := logs[CurrentKey() := opening];
      var current := GetCurrentLog(now);
      assert logs == openedLogs && nextId == n && logs[CurrentKey()] == opening;
      UpdateLog(LogPatch(Some(DeleteTodo(current.todoTasks, taskId)), None, None), now);
    }

    /** `handleUpdateTodoTask(taskId, updates)`. */
    method UpdateTodoTask(taskId: Id, updates: TodoPatch, now: Timestamp)
      requires Valid()
      modifies this
      ensures Valid()
      ensures logs == old(logs)[old(CurrentKey()) := old(CurrentLog(now)).(todoTasks := UpdateTodo(old(CurrentLog(now)).todoTasks, taskId, updates))]
      ensures keys == old(KeysAfterOpening()) && nextId == old(NextIdAfterOpening())
      ensures selectedDate == old(selectedDate) && recurringTasks == old(recurringTasks) && oneOffTasks == old(oneOffTasks)
    {
      ghost var opening := CurrentLog(now);
      ghost var n := NextIdAfterOpening();
      ghost var openedLogs := logs[CurrentKey() := opening];
      var current := GetCurrentLog(now);
      assert logs == openedLogs && nextId == n && logs[CurrentKey()] == opening;
      UpdateLog(LogPatch(Some(UpdateTodo(current.todoTasks, taskId, updates)), None, None), now);
    }

    /** `handleCompleteTodoTask(taskId)`: an id is drawn only when a to-do
        has the id. */
    method CompleteTodoTask(taskId: Id, now: Timestamp)
      requires Valid()
      modifies this
      ensures Valid()
      ensures logs == old(logs)[old(CurrentKey()) := Complete(old(CurrentLog(now)), taskId, idFor(old(NextIdAfterOpening())), now)]
      ensures keys == old(KeysAfterOpening())
      ensures nextId == old(NextIdAfterOpening()) + (if FindTodo(old(CurrentLog(now)).todoTasks, taskId).Some? then 1 else 0)
      ensures selectedDate == old(selectedDate) && recurringTasks == old(recurringTasks) && oneOffTasks == old(oneOffTasks)
    {
      ghost var opening := CurrentLog(now);
      ghost var n := NextIdAfterOpening();
      ghost var openedLogs := logs[CurrentKey() := opening];
      var current := GetCurrentLog(now);
      assert logs == openedLogs && nextId == n && logs[CurrentKey()] == opening;
      CompleteInOpenedLog(taskId, now);
    }

    /** The part of `handleCompleteTodoTask` after the day is open. */
    method CompleteInOpenedLog(taskId: Id, now: Timestamp)
      requires Valid() && CurrentKey() in logs
      modifies this
      ensures Valid()
      ensures logs == old(logs)[CurrentKey() := Complete(old(logs[CurrentKey()]), taskId, idFor(old(nextId)), now)]
      ensures keys == old(keys)
      ensures nextId == old(nextId) + (if FindTodo(old(logs[CurrentKey()]).todoTasks, taskId).Some? then 1 else 0)
      ensures selectedDate == old(selectedDate) && recurringTasks == old(recurringTasks) && oneOffTasks == old(oneOffTasks)
    {
      var current := logs[DateKey(selectedDate)];
      var task := FindTodo(current.todoTasks, taskId);
      if task.Some? {
        var id := FreshId();
        var updates := LogPatch(
          Some(DeleteTodo(current.todoTasks, taskId)),
          Some(current.completedTasks + [CompletedTask(id, task.value.content, task.value.time, task.value.tags, now)]),
          None);
        UpdateOpenedLog(updates, now);
      } else {
        assert logs == old(logs)[CurrentKey() := current];
      }
    }

    /** `handleReverseCompletedTask(taskId)`: an id is drawn only when a
        completed item has the id. */
    method ReverseCompletedTask(taskId: Id, now: Timestamp)
      requires Valid()
      modifies this
      ensures Valid()
      ensures logs == old(logs)[old(CurrentKey()) := Reverse(old(CurrentLog(now)), taskId, idFor(old(NextIdAfterOpening())))]
      ensures keys == old(KeysAfterOpening())
      ensures nextId == old(NextIdAfterOpening()) + (if FindCompleted(old(CurrentLog(now)).completedTasks, taskId).Some? then 1 else 0)
      ensures selectedDate == old(selectedDate) && recurringTasks == old(recurringTasks) && oneOffTasks == old(oneOffTasks)
    {
      ghost var opening := CurrentLog(now);
      ghost var n := NextIdAfterOpening();
      ghost var openedLogs := logs[CurrentKey() := opening];
      var current := GetCurrentLog(now);
      assert logs == openedLogs && nextId == n && logs[CurrentKey()] == opening;
      ReverseInOpenedLog(taskId, now);
    }

    /** The part of `handleReverseCompletedTask` after the day is open. */
    method ReverseInOpenedLog(taskId: Id, now: Timestamp)
      requires Valid() && CurrentKey() in logs
      modifies this
      ensures Valid()
      ensures logs == old(logs)[CurrentKey() := Reverse(old(logs[CurrentKey()]), taskId, idFor(old(nextId)))]
      ensures keys == old(keys)
      ensures nextId == old(nextId) + (if FindCompleted(old(logs[CurrentKey()]).completedTasks, taskId).Some? then 1 else 0)
      ensures selectedDate == old(selectedDate) && recurringTasks == old(recurringTasks) && oneOffTasks == old(oneOffTasks)
    {
      var current := logs[DateKey(selectedDate)];
      var task := FindCompleted(current.completedTasks, taskId);
      if task.Some? {
        var id := FreshId();
        var updates := LogPatch(
          Some(current.todoTasks + [TodoTask(id, task.value.content, false, task.value.time, task.value.tags)]),
          Some(Filter(current.completedTasks, NotCompleted(taskId))),
          None);
        UpdateOpenedLog(updates, now);
      } else {
        assert logs == old(logs)[CurrentKey() := current];
      }
    }

    /** `handleUpdateCompletedTask(taskId, updates)`. */
    method UpdateCompletedTask(taskId: Id, updates: CompletedPatch, now: Timestamp)
      requires Valid()
      modifies this
      ensures Valid()
      ensures logs == old(logs)[old(CurrentKey()) := old(CurrentLog(now)).(completedTasks := UpdateCompleted(old(CurrentLog(now)).completedTasks, taskId, updates, now))]
      ensures keys == old(KeysAfterOpening()) && nextId == old(NextIdAfterOpening())
      ensures selectedDate == old(selectedDate) && recurringTasks == old(recurringTasks) && oneOffTasks == old(oneOffTasks)
    {
      ghost var opening := CurrentLog(now);
      ghost var n := NextIdAfterOpening();
      ghost var openedLogs := logs[CurrentKey() := opening];
      var current := GetCurrentLog(now);
      assert logs == openedLogs && nextId == n && logs[CurrentKey()] == opening;
      UpdateLog(LogPatch(None, Some(UpdateCompleted(current.completedTasks, taskId, updates, now)), None), now);
    }

    /** `previousLogs`: exactly the stored logs whose key is less than the
        selected day's key, with strictly decreasing keys. */
    function PreviousLogs(): (h: seq<Entry>)
      reads this
      requires Valid()
      ensures forall x :: x in h <==> x.0 in logs && x.1 == logs[x.0] && LexLess(x.0, CurrentKey())
      ensures forall i, j :: 0 <= i < j < |h| ==> LexLess(h[j].0, h[i].0)
    {
      var entries := EntriesOf(keys, logs);
      HistoryContents(entries, CurrentKey());
      EntriesOfMembers(keys, logs);
      History(entries, CurrentKey())
    }

    /** A render of the page: `const currentLog = getCurrentLog()` opens the
        selected day, then `previousLogs` lists the days before it from the
        map the opening has just changed. Rendering a day that is already
        stored changes nothing. */
    method Render(now: Timestamp) returns (current: DayLog, history: seq<Entry>)
      requires Valid()
      modifies this
      ensures Valid()
      ensures current == old(CurrentLog(now))
      ensures logs == old(logs)[old(CurrentKey()) := current]
      ensures keys == old(KeysAfterOpening()) && nextId == old(NextIdAfterOpening())
      ensures selectedDate == old(selectedDate) && recurringTasks == old(recurringTasks) && oneOffTasks == old(oneOffTasks)
      ensures CurrentKey() in logs && history == PreviousLogs()
      ensures old(CurrentKey()) in old(logs) ==>
        current == old(logs)[old(CurrentKey())] && logs == old(logs) && keys == old(keys) && nextId == old(nextId)
    {
      current := GetCurrentLog(now);
      history := PreviousLogs();
    }

    /** The date picker's `onDateChange` followed by the render it causes:
        the picked day is opened, so a day seen for the first time gets its
        new log and draws its ids at once. */
    method ChangeDate(d: Date, now: Timestamp) returns (current: DayLog, history: seq<Entry>)
      requires Valid() && ValidDate(d)
      modifies this
      ensures Valid() && selectedDate == d
      ensures current == OpenedLog(old(logs), old(recurringTasks), old(oneOffTasks), d, idFor, old(nextId), now)
      ensures logs == old(logs)[DateKey(d) := current]
      ensures keys == if DateKey(d) in old(logs) then old(keys) else old(keys) + [DateKey(d)]
      ensures nextId == old(nextId) + OpeningIds(old(logs), old(recurringTasks), old(oneOffTasks), d)
      ensures recurringTasks == old(recurringTasks) && oneOffTasks == old(oneOffTasks)
      ensures history == PreviousLogs()
    {
      SelectDate(d);
      current, history := Render(now);
    }
  }

  /** Today's log after the mount as written. */
  function MountedLogAsWritten(today: Date, idFor: nat -> Id, now: Timestamp): (log: DayLog)
    requires ValidDate(today)
    ensures log.todoTasks == [] && log.completedTasks == [] && log.createdAt == now
  {
    OpenedLog(map[], [], [], today, idFor, 0, now)
  }

  /** Today's log after a mount that loads the definitions first. */
  function MountedLog(recurring: seq<Task>, oneOff: seq<Task>, today: Date, idFor: nat -> Id, now: Timestamp): (log: DayLog)
    requires ValidDate(today)
    ensures log.todoTasks == Materialize(ApplicableDefinitions(recurring, oneOff, today), idFor, 0)
    ensures log.completedTasks == [] && log.createdAt == now
  {
    OpenedLog(map[], recurring, oneOff, today, idFor, 0, now)
  }

  /** The page as it mounts: the first render runs before the load effect,
      so `getCurrentLog` stores today's log while the definitions are still
      empty; the render after the effect finds today stored and keeps it. */
  method MountAsWritten(today: Date, idFor: nat -> Id, storedRecurring: Option<seq<Task>>, storedOneOff: Option<seq<Task>>, now: Timestamp)
    returns (page: DailyLog, current: DayLog)
    requires ValidDate(today)
    ensures fresh(page) && page.Valid()
    ensures current == MountedLogAsWritten(today, idFor, now)
    ensures page.logs == map[DateKey(today) := current] && page.keys == [DateKey(today)] && page.nextId == 0
    ensures page.selectedDate == today && page.idFor == idFor
    ensures page.recurringTasks == storedRecurring.GetOr([]) && page.oneOffTasks == storedOneOff.GetOr([])
  {
    page := new DailyLog(today, idFor);
    var first, history := page.Render(now);
    page.LoadTasks(storedRecurring, storedOneOff);
    current, history := page.Render(now);
  }

  /** The mount with the definitions loaded before today is opened: today's
      log holds one fresh item per definition that applies today. */
  method Mount(today: Date, idFor: nat -> Id, storedRecurring: Option<seq<Task>>, storedOneOff: Option<seq<Task>>, now: Timestamp)
    returns (page: DailyLog, current: DayLog)
    requires ValidDate(today)
    ensures fresh(page) && page.Valid()
    ensures current == MountedLog(storedRecurring.GetOr([]), storedOneOff.GetOr([]), today, idFor, now)
    ensures page.logs == map[DateKey(today) := current] && page.keys == [DateKey(today)]
    ensures page.nextId == |ApplicableDefinitions(storedRecurring.GetOr([]), storedOneOff.GetOr([]), today)|
    ensures page.selectedDate == today && page.idFor == idFor
    ensures page.recurringTasks == storedRecurring.GetOr([]) && page.oneOffTasks == storedOneOff.GetOr([])
  {
    page := new DailyLog(today, idFor);
    page.LoadTasks(storedRecurring, storedOneOff);
    var history;
    current, history := page.Render(now);
  }

  /** A stored daily definition is lost on the mount as written, and
      materialised when the definitions are loaded first. */
  lemma MountDropsTodaysItems(t: Task, today: Date, idFor: nat -> Id, now: Timestamp)
    requires ValidDate(today)
    requires t.schedule.Some? && t.schedule.value.frequency == Daily
    ensures MountedLogAsWritten(today, idFor, now).todoTasks == []
    ensures MountedLog([t], [], today, idFor, now).todoTasks == [TodoTask(idFor(0), t.title, false, t.time, t.tags)]
  {
    assert RecurringApplies(t, today);
    assert Filter([t], AppliesOn(today)) == [t] + Filter([t][1..], AppliesOn(today));
  }

  /** An unfinished to-do of the day before is carried, with its id, into
      a day's new log. */
  lemma CarriedIntoNewDay(logs: map<string, DayLog>, recurring: seq<Task>, oneOff: seq<Task>, e: Date,
                          idFor: nat -> Id, next: nat, now: Timestamp, x: TodoTask)
    requires ValidDate(e) && DateKey(e) !in logs
    requires DateKey(PrevDay(e)) in logs && x in logs[DateKey(PrevDay(e))].todoTasks && !x.completed
    ensures x in OpenedLog(logs, recurring, oneOff, e, idFor, next, now).todoTasks
  {
    var prior := logs[DateKey(PrevDay(e))];
    var k :| 0 <= k < |prior.todoTasks| && prior.todoTasks[k] == x;
    assert PriorLog(logs, e) == Some(prior);
    assert x in Carried(Some(prior));
  }

  /** An unfinished to-do rolls over from day to day: opening the next day
      and then the day after carries it into both new logs, with its id. */
  lemma RolloverRepeats(logs: map<string, DayLog>, recurring: seq<Task>, oneOff: seq<Task>, d: Date, e: Date, f: Date,
                        idFor: nat -> Id, n1: nat, n2: nat, now1: Timestamp, now2: Timestamp, x: TodoTask)
    requires ValidDate(d) && ValidDate(e) && ValidDate(f) && PrevDay(e) == d && PrevDay(f) == e
    requires DateKey(d) in logs && x in logs[DateKey(d)].todoTasks && !x.completed
    requires DateKey(e) !in logs && DateKey(f) !in logs
    ensures var logE := OpenedLog(logs, recurring, oneOff, e, idFor, n1, now1);
      var logF := OpenedLog(logs[DateKey(e) := logE], recurring, oneOff, f, idFor, n2, now2);
      x in logE.todoTasks && x in logF.todoTasks
  {
    var logE := OpenedLog(logs, recurring, oneOff, e, idFor, n1, now1);
    CarriedIntoNewDay(logs, recurring, oneOff, e, idFor, n1, now1, x);
    KeyOrder(e, f);
    CarriedIntoNewDay(logs[DateKey(e) := logE], recurring, oneOff, f, idFor, n2, now2, x);
  }
}
