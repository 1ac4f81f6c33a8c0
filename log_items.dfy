/** The values and pure rules of the daily log: the to-do, completed and
    day-log records, which task definitions apply to a day and the items
    they yield, the log a missing day starts with, the list computations
    the item handlers hand to `updateLog`, and the history listing. */
module LogItems {
  import opened Values
  import opened Text
  import opened Calendar
  import opened Tasks

  datatype TodoTask = TodoTask(id: Id, content: string, completed: bool, time: Option<string>, tags: Option<seq<string>>)

  datatype CompletedTask = CompletedTask(id: Id, content: string, time: Option<string>, tags: Option<seq<string>>, completedAt: Timestamp)

  datatype DayLog = DayLog(todoTasks: seq<TodoTask>, completedTasks: seq<CompletedTask>, createdAt: Timestamp)

  /** `Partial<TodoTask>`. */
  datatype TodoPatch = TodoPatch(id: Option<Id>, content: Option<string>, completed: Option<bool>, time: Option<string>, tags: Option<seq<string>>)

  /** `Partial<CompletedTask>`. */
  datatype CompletedPatch = CompletedPatch(id: Option<Id>, content: Option<string>, time: Option<string>, tags: Option<seq<string>>, completedAt: Option<Timestamp>)

  /** `Partial<DayLog>`, the argument of `updateLog`. */
  datatype LogPatch = LogPatch(todoTasks: Option<seq<TodoTask>>, completedTasks: Option<seq<CompletedTask>>, createdAt: Option<Timestamp>)

  // ---------------------------------------------------------------
  // Which definitions apply to a day

  /** A recurring definition applies when it has a schedule and it is daily,
      or weekly on the day's weekday, or monthly on the day's day of month. */
  predicate RecurringApplies(t: Task, d: Date)
    ensures t.schedule.None? ==> !RecurringApplies(t, d)
    ensures ValidDate(d) && t.schedule.Some? && t.schedule.value.frequency == Daily ==> RecurringApplies(t, d)
    ensures RecurringApplies(t, d) && t.schedule.value.frequency == Weekly ==>
      t.schedule.value.weekDay.Some? && 0 <= t.schedule.value.weekDay.value < 7
    ensures ValidDate(d) && RecurringApplies(t, d) && t.schedule.value.frequency == Monthly ==>
      t.schedule.value.monthDay.Some? && 1 <= t.schedule.value.monthDay.value <= DaysInMonth(d.year, d.month)
  {
    && 1 <= d.month <= 12
    && t.schedule.Some?
    && (|| t.schedule.value.frequency == Daily
        || (t.schedule.value.frequency == Weekly && t.schedule.value.weekDay == Some(DayOfWeek(d)))
        || (t.schedule.value.frequency == Monthly && t.schedule.value.monthDay == Some(d.day)))
  }

  /** A one-off definition applies on the calendar day of its start date. */
  predicate OneOffApplies(t: Task, d: Date)
    ensures t.startDate.None? ==> !OneOffApplies(t, d)
  {
    t.startDate == Some(d)
  }

  /** A one-off definition applies on one calendar day at most. */
  lemma OneOffAppliesOnce(t: Task, d: Date, e: Date)
    requires OneOffApplies(t, d) && OneOffApplies(t, e)
    ensures d == e
  {
  }

  /** The policy for month days a month does not have: a monthly definition
      on day 29..31 is skipped in a shorter month, and a definition without a
      schedule never applies. */
  lemma MonthlySkipsShortMonths(t: Task, d: Date)
    requires ValidDate(d)
    requires t.schedule.None? || (t.schedule.value.frequency == Monthly
      && t.schedule.value.monthDay.Some? && t.schedule.value.monthDay.value > DaysInMonth(d.year, d.month))
    ensures !RecurringApplies(t, d)
  {
  }

  /** A weekly definition applies on a day exactly when the day is its
      weekday, and then never on the day before. */
  lemma WeeklyAppliesOnItsWeekday(t: Task, d: Date)
    requires ValidDate(d) && d != Date(1, 1, 1)
    requires t.schedule.Some? && t.schedule.value.frequency == Weekly
    ensures RecurringApplies(t, d) <==> t.schedule.value.weekDay == Some(DayOfWeek(d))
    ensures RecurringApplies(t, d) ==> !RecurringApplies(t, PrevDay(d))
  {
    PrevDayWeekday(d);
  }

  function AppliesOn(d: Date): Task -> bool {
    (t: Task) => RecurringApplies(t, d)
  }

  function StartsOn(d: Date): Task -> bool {
    (t: Task) => OneOffApplies(t, d)
  }

  /** The definitions that apply to `d`: applicable recurring ones in store
      order, then applicable one-off ones in store order. */
  function ApplicableDefinitions(recurring: seq<Task>, oneOff: seq<Task>, d: Date): (r: seq<Task>)
    ensures |r| <= |recurring| + |oneOff|
    ensures recurring == [] && oneOff == [] ==> r == []
  {
    Filter(recurring, AppliesOn(d)) + Filter(oneOff, StartsOn(d))
  }

  /** The fresh to-do item a definition yields. */
  function ItemFor(t: Task, id: Id): (r: TodoTask)
    ensures r.id == id && !r.completed && r.content == t.title && r.time == t.time && r.tags == t.tags
  {
    TodoTask(id, t.title, false, t.time, t.tags)
  }

  /** One fresh item per definition, in order: the `k`th is incomplete,
      takes the `k`th definition's title as content with its time and tags,
      and gets the id `idFor(next + k)`. */
  function Materialize(defs: seq<Task>, idFor: nat -> Id, next: nat): (r: seq<TodoTask>)
    ensures |r| == |defs|
    ensures forall k :: 0 <= k < |r| ==>
      && r[k].id == idFor(next + k) && !r[k].completed
      && r[k].content == defs[k].title && r[k].time == defs[k].time && r[k].tags == defs[k].tags
  {
    seq(|defs|, k requires 0 <= k < |defs| => ItemFor(defs[k], idFor(next + k)))
  }

  lemma MaterializeConcat(a: seq<Task>, b: seq<Task>, idFor: nat -> Id, next: nat)
    ensures Materialize(a + b, idFor, next) == Materialize(a, idFor, next) + Materialize(b, idFor, next + |a|)
  {
  }

  lemma FilterSnoc<T>(s: seq<T>, i: nat, p: T -> bool)
    requires i < |s|
    ensures Filter(s[..i + 1], p) == Filter(s[..i], p) + (if p(s[i]) then [s[i]] else [])
  {
    assert s[..i + 1] == s[..i] + [s[i]];
    FilterAppend(s[..i], [s[i]], p);
  }

  lemma MaterializeSnoc(defs: seq<Task>, t: Task, idFor: nat -> Id, next: nat)
    ensures Materialize(defs + [t], idFor, next) == Materialize(defs, idFor, next) + [ItemFor(t, idFor(next + |defs|))]
  {
  }

  /** One `forEach` of `getApplicableTasks`: pushes, in order, the item for
      each definition the test accepts onto `items`, drawing the ids after
      the ones already used. */
  method PushApplicable(defs: seq<Task>, applies: Task -> bool, idFor: nat -> Id, next: nat, items: seq<TodoTask>)
    returns (pushed: seq<TodoTask>)
    ensures pushed == items + Materialize(Filter(defs, applies), idFor, next + |items|)
  {
    pushed := items;
    ghost var taken: seq<Task> := [];
    var i := 0;
    while i < |defs|
      invariant 0 <= i <= |defs|
      invariant taken == Filter(defs[..i], applies)
      invariant pushed == items + Materialize(taken, idFor, next + |items|)
      invariant |pushed| == |items| + |taken|
    {
      FilterSnoc(defs, i, applies);
      if applies(defs[i]) {
        PushStep(items, taken, defs[i], idFor, next);
        pushed := pushed + [ItemFor(defs[i], idFor(next + |pushed|))];
        taken := taken + [defs[i]];
      }
      i := i + 1;
    }
    assert defs[..i] == defs;
  }

  lemma PushStep(items: seq<TodoTask>, taken: seq<Task>, t: Task, idFor: nat -> Id, next: nat)
    ensures items + Materialize(taken, idFor, next + |items|) + [ItemFor(t, idFor(next + |items| + |taken|))]
      == items + Materialize(taken + [t], idFor, next + |items|)
  {
    MaterializeSnoc(taken, t, idFor, next + |items|);
    assert items + Materialize(taken, idFor, next + |items|) + [ItemFor(t, idFor(next + |items| + |taken|))]
      == items + (Materialize(taken, idFor, next + |items|) + [ItemFor(t, idFor(next + |items| + |taken|))]);
  }

  /** `getApplicableTasks(date)`: the recurring definitions' loop, then the
      one-off definitions' loop, each pushing one fresh item per applicable
      definition. */
  method CollectApplicable(recurring: seq<Task>, oneOff: seq<Task>, d: Date, idFor: nat -> Id, next: nat)
    returns (items: seq<TodoTask>)
    ensures items == Materialize(ApplicableDefinitions(recurring, oneOff, d), idFor, next)
  {
    ghost var first := Filter(recurring, AppliesOn(d));
    ghost var second := Filter(oneOff, StartsOn(d));
    var recurringItems := PushApplicable(recurring, AppliesOn(d), idFor, next, []);
    assert recurringItems == Materialize(first, idFor, next) && |recurringItems| == |first|;
    items := PushApplicable(oneOff, StartsOn(d), idFor, next, recurringItems);
    assert items == Materialize(first, idFor, next) + Materialize(second, idFor, next + |first|);
    MaterializeConcat(first, second, idFor, next);
  }

  /** The definitions that apply to a day are drawn from the two lists, and
      a definition is among them exactly when it applies: every listed
      recurring definition whose schedule fires, every one-off definition
      starting that day, the recurring ones first. */
  lemma ApplicableMembers(recurring: seq<Task>, oneOff: seq<Task>, d: Date)
    ensures var defs := ApplicableDefinitions(recurring, oneOff, d);
      && (forall k :: 0 <= k < |defs| ==> (defs[k] in recurring && AppliesOn(d)(defs[k])) || (defs[k] in oneOff && StartsOn(d)(defs[k])))
      && (forall i :: 0 <= i < |recurring| && AppliesOn(d)(recurring[i]) ==> recurring[i] in defs)
      && (forall i :: 0 <= i < |oneOff| && StartsOn(d)(oneOff[i]) ==> oneOff[i] in defs)
      && defs[..|Filter(recurring, AppliesOn(d))|] == Filter(recurring, AppliesOn(d))
  {
    var a := Filter(recurring, AppliesOn(d));
    var b := Filter(oneOff, StartsOn(d));
    FilterMembers(recurring, AppliesOn(d));
    FilterMembers(oneOff, StartsOn(d));
    var defs := a + b;
    forall k | 0 <= k < |defs|
      ensures (defs[k] in recurring && AppliesOn(d)(defs[k])) || (defs[k] in oneOff && StartsOn(d)(defs[k]))
    {
      if k < |a| { assert defs[k] == a[k]; } else { assert defs[k] == b[k - |a|]; }
    }
  }

  // ---------------------------------------------------------------
  // The log a missing day starts with

  /** The prior day's to-do items that are not completed, in their order,
      each as often as it occurs there. */
  function Carried(prior: Option<DayLog>): (r: seq<TodoTask>)
    ensures prior.None? ==> r == []
    ensures prior.Some? ==> Subsequence(r, prior.value.todoTasks)
    ensures forall k :: 0 <= k < |r| ==> !r[k].completed
    ensures prior.Some? ==> forall k :: 0 <= k < |prior.value.todoTasks| && !prior.value.todoTasks[k].completed ==> prior.value.todoTasks[k] in r
    ensures prior.Some? ==> forall x :: multiset(r)[x] == if !x.completed then multiset(prior.value.todoTasks)[x] else 0
  {
    match prior
    case None => []
    case Some(log) =>
      FilterIsSubsequence(log.todoTasks, (t: TodoTask) => !t.completed);
      FilterMembers(log.todoTasks, (t: TodoTask) => !t.completed);
      FilterMultiset(log.todoTasks, (t: TodoTask) => !t.completed);
      Filter(log.todoTasks, (t: TodoTask) => !t.completed)
  }

  /** The log `getCurrentLog` creates for a day that has none. */
  function NewLog(prior: Option<DayLog>, recurring: seq<Task>, oneOff: seq<Task>, d: Date, idFor: nat -> Id, next: nat, now: Timestamp): (r: DayLog)
    ensures r.completedTasks == [] && r.createdAt == now
    ensures |r.todoTasks| == |Carried(prior)| + |ApplicableDefinitions(recurring, oneOff, d)|
    ensures forall k :: 0 <= k < |r.todoTasks| ==> !r.todoTasks[k].completed
  {
    DayLog(Carried(prior) + Materialize(ApplicableDefinitions(recurring, oneOff, d), idFor, next), [], now)
  }

  /** The rollover rule: the new log's to-do list is the prior day's
      incomplete items (the same records, ids included, in order) followed by
      the day's fresh items; nothing is completed yet; it is created now. When
      every prior item is still to do, all of them are carried. */
  lemma NewLogShape(prior: Option<DayLog>, recurring: seq<Task>, oneOff: seq<Task>, d: Date, idFor: nat -> Id, next: nat, now: Timestamp)
    ensures var log := NewLog(prior, recurring, oneOff, d, idFor, next, now);
      && log.completedTasks == [] && log.createdAt == now
      && log.todoTasks[..|Carried(prior)|] == Carried(prior)
      && log.todoTasks[|Carried(prior)|..] == Materialize(ApplicableDefinitions(recurring, oneOff, d), idFor, next)
      && (forall k :: 0 <= k < |log.todoTasks| ==> !log.todoTasks[k].completed)
    ensures prior.Some? && (forall k :: 0 <= k < |prior.value.todoTasks| ==> !prior.value.todoTasks[k].completed) ==>
      Carried(prior) == prior.value.todoTasks
  {
    var log := NewLog(prior, recurring, oneOff, d, idFor, next, now);
    var c := Carried(prior);
    forall k | 0 <= k < |log.todoTasks| ensures !log.todoTasks[k].completed {
      if k < |c| { assert log.todoTasks[k] == c[k]; }
    }
    if prior.Some? && (forall k :: 0 <= k < |prior.value.todoTasks| ==> !prior.value.todoTasks[k].completed) {
      FilterKeepsAll(prior.value.todoTasks, (t: TodoTask) => !t.completed);
    }
  }

  /** The stored log of the day before `d`, when there is one. */
  function PriorLog(logs: map<string, DayLog>, d: Date): (r: Option<DayLog>)
    requires ValidDate(d)
    ensures r.Some? <==> DateKey(PrevDay(d)) in logs
    ensures r.Some? ==> r.value == logs[DateKey(PrevDay(d))]
  {
    var key := DateKey(PrevDay(d));
    if key in logs then Some(logs[key]) else None
  }

  /** The log `getCurrentLog` returns for `d`: the stored one, or else the
      new log built from the previous day's log and the definitions. */
  function OpenedLog(logs: map<string, DayLog>, recurring: seq<Task>, oneOff: seq<Task>, d: Date,
                     idFor: nat -> Id, next: nat, now: Timestamp): DayLog
    requires ValidDate(d)
  {
    if DateKey(d) in logs then logs[DateKey(d)] else NewLog(PriorLog(logs, d), recurring, oneOff, d, idFor, next, now)
  }

  /** How many fresh ids opening `d` draws: one per applicable definition
      when the day has no log yet, none otherwise. */
  function OpeningIds(logs: map<string, DayLog>, recurring: seq<Task>, oneOff: seq<Task>, d: Date): nat
    requires ValidDate(d)
  {
    if DateKey(d) in logs then 0 else |ApplicableDefinitions(recurring, oneOff, d)|
  }

  /** A day that already has a log is never rebuilt: opening it again returns
      the stored log whatever the definitions, the ids and the clock are. A
      day without one gets the previous day's incomplete items followed by
      its own fresh items, and never the previous day's completed items. */
  lemma OpenedLogStable(logs: map<string, DayLog>, recurring: seq<Task>, oneOff: seq<Task>, d: Date,
                        idFor: nat -> Id, next: nat, now: Timestamp,
                        recurring': seq<Task>, oneOff': seq<Task>, idFor': nat -> Id, next': nat, now': Timestamp)
    requires ValidDate(d)
    ensures var log := OpenedLog(logs, recurring, oneOff, d, idFor, next, now);
      && OpenedLog(logs[DateKey(d) := log], recurring', oneOff', d, idFor', next', now') == log
      && OpeningIds(logs[DateKey(d) := log], recurring', oneOff', d) == 0
    ensures DateKey(d) !in logs ==>
      var log := OpenedLog(logs, recurring, oneOff, d, idFor, next, now);
      && log.completedTasks == [] && log.createdAt == now
      && log.todoTasks == Carried(PriorLog(logs, d)) + Materialize(ApplicableDefinitions(recurring, oneOff, d), idFor, next)
  {
  }

  // ---------------------------------------------------------------
  // The item handlers' list computations

  /** `{ ...currentLog, ...updates }`. */
  function MergeLog(log: DayLog, p: LogPatch): DayLog {
    DayLog(p.todoTasks.GetOr(log.todoTasks), p.completedTasks.GetOr(log.completedTasks), p.createdAt.GetOr(log.createdAt))
  }

  /** `updateLog` replaces only the lists it is given; the item handlers
      never pass `createdAt`, so a log keeps its creation time. */
  lemma MergeLogKeepsCreatedAt(log: DayLog, p: LogPatch)
    requires p.createdAt.None?
    ensures MergeLog(log, p).createdAt == log.createdAt
    ensures p.todoTasks.None? ==> MergeLog(log, p).todoTasks == log.todoTasks
    ensures p.completedTasks.None? ==> MergeLog(log, p).completedTasks == log.completedTasks
  {
  }

  /** `handleAddTodoTask`: an empty content is ignored; otherwise exactly one
      incomplete item without time or tags is appended at the end. */
  function AddTodo(todos: seq<TodoTask>, content: string, id: Id): (r: seq<TodoTask>)
    ensures content == "" ==> r == todos
    ensures content != "" ==>
      |r| == |todos| + 1 && r[..|todos|] == todos && r[|todos|] == TodoTask(id, content, false, None, None)
  {
    if content == "" then todos else todos + [TodoTask(id, content, false, None, None)]
  }

  /** `{ ...task, ...updates }` for a to-do item. */
  function MergeTodo(t: TodoTask, p: TodoPatch): (r: TodoTask)
    ensures r.id == p.id.GetOr(t.id) && r.content == p.content.GetOr(t.content) && r.completed == p.completed.GetOr(t.completed)
    ensures r.time == p.time.OrElse(t.time) && r.tags == p.tags.OrElse(t.tags)
  {
    TodoTask(p.id.GetOr(t.id), p.content.GetOr(t.content), p.completed.GetOr(t.completed), p.time.OrElse(t.time), p.tags.OrElse(t.tags))
  }

  /** `handleUpdateTodoTask`: the matching items are merged with the update,
      the others and the length are unchanged. */
  function UpdateTodo(todos: seq<TodoTask>, id: Id, p: TodoPatch): (r: seq<TodoTask>)
    ensures |r| == |todos|
    ensures forall k :: 0 <= k < |r| && todos[k].id != id ==> r[k] == todos[k]
    ensures forall k :: 0 <= k < |r| && todos[k].id == id ==> r[k] == MergeTodo(todos[k], p)
  {
    seq(|todos|, k requires 0 <= k < |todos| => if todos[k].id == id then MergeTodo(todos[k], p) else todos[k])
  }

  /** `handleEditTodoTask`: only the content of the matching items changes. */
  function EditTodo(todos: seq<TodoTask>, id: Id, content: string): (r: seq<TodoTask>)
    ensures |r| == |todos|
    ensures forall k :: 0 <= k < |r| && todos[k].id != id ==> r[k] == todos[k]
    ensures forall k :: 0 <= k < |r| && todos[k].id == id ==> r[k] == todos[k].(content := content)
  {
    seq(|todos|, k requires 0 <= k < |todos| => if todos[k].id == id then todos[k].(content := content) else todos[k])
  }

  /** Editing is the update whose only property is `content`. */
  lemma EditIsContentUpdate(todos: seq<TodoTask>, id: Id, content: string)
    ensures EditTodo(todos, id, content) == UpdateTodo(todos, id, TodoPatch(None, Some(content), None, None, None))
  {
  }

  function NotTodo(id: Id): TodoTask -> bool {
    (t: TodoTask) => t.id != id
  }

  function NotCompleted(id: Id): CompletedTask -> bool {
    (t: CompletedTask) => t.id != id
  }

  /** `handleDeleteTodoTask`: exactly the matching items are removed and the
      others are kept in order. */
  function DeleteTodo(todos: seq<TodoTask>, id: Id): (r: seq<TodoTask>)
    ensures forall k :: 0 <= k < |r| ==> r[k].id != id && r[k] in todos
    ensures forall k :: 0 <= k < |todos| && todos[k].id != id ==> todos[k] in r
    ensures Subsequence(r, todos)
    ensures (forall k :: 0 <= k < |todos| ==> todos[k].id != id) ==> r == todos
  {
    FilterIsSubsequence(todos, NotTodo(id));
    FilterMembers(todos, NotTodo(id));
    KeepAllTodos(todos, id);
    Filter(todos, NotTodo(id))
  }

  /** Deleting keeps every other item as often as it occurred and leaves no
      copy of a matching one. */
  lemma DeleteTodoCounts(todos: seq<TodoTask>, id: Id)
    ensures forall x :: multiset(DeleteTodo(todos, id))[x] == if x.id != id then multiset(todos)[x] else 0
  {
    FilterMultiset(todos, NotTodo(id));
  }

  lemma KeepAllTodos(todos: seq<TodoTask>, id: Id)
    ensures (forall k :: 0 <= k < |todos| ==> todos[k].id != id) ==> Filter(todos, NotTodo(id)) == todos
  {
    if forall k :: 0 <= k < |todos| ==> todos[k].id != id {
      FilterKeepsAll(todos, NotTodo(id));
    }
  }

  /** `todoTasks.find(t => t.id === id)`: the first item with the id. */
  function FindTodo(todos: seq<TodoTask>, id: Id): (r: Option<TodoTask>)
    ensures r.None? <==> forall k :: 0 <= k < |todos| ==> todos[k].id != id
    ensures r.Some? ==> r.value in todos && r.value.id == id
    ensures r.Some? ==> exists k :: 0 <= k < |todos| && todos[k] == r.value && forall j :: 0 <= j < k ==> todos[j].id != id
  {
    if todos == [] then None
    else if todos[0].id == id then Some(todos[0])
    else FindTodo(todos[1..], id)
  }

  /** `completedTasks.find(t => t.id === id)`: the first item with the id. */
  function FindCompleted(done: seq<CompletedTask>, id: Id): (r: Option<CompletedTask>)
    ensures r.None? <==> forall k :: 0 <= k < |done| ==> done[k].id != id
    ensures r.Some? ==> r.value in done && r.value.id == id
    ensures r.Some? ==> exists k :: 0 <= k < |done| && done[k] == r.value && forall j :: 0 <= j < k ==> done[j].id != id
  {
    if done == [] then None
    else if done[0].id == id then Some(done[0])
    else FindCompleted(done[1..], id)
  }

  /** `handleCompleteTodoTask`: the first matching to-do's content, time and
      tags become a completed item with a fresh id and the completion time,
      appended at the end; every matching to-do leaves the to-do list.
      An unknown id changes nothing. */
  function Complete(log: DayLog, id: Id, freshId: Id, now: Timestamp): (r: DayLog)
    ensures r.createdAt == log.createdAt
    ensures FindTodo(log.todoTasks, id).None? ==> r == log
    ensures FindTodo(log.todoTasks, id).Some? ==>
      var t := FindTodo(log.todoTasks, id).value;
      && r.todoTasks == DeleteTodo(log.todoTasks, id)
      && r.completedTasks == log.completedTasks + [CompletedTask(freshId, t.content, t.time, t.tags, now)]
  {
    match FindTodo(log.todoTasks, id)
    case None => log
    case Some(t) =>
      MergeLog(log, LogPatch(
        Some(DeleteTodo(log.todoTasks, id)),
        Some(log.completedTasks + [CompletedTask(freshId, t.content, t.time, t.tags, now)]),
        None))
  }

  /** `handleReverseCompletedTask`: the inverse move, from the completed list
      back to the end of the to-do list as an incomplete item with a fresh id.
      An unknown id changes nothing. */
  function Reverse(log: DayLog, id: Id, freshId: Id): (r: DayLog)
    ensures r.createdAt == log.createdAt
    ensures FindCompleted(log.completedTasks, id).None? ==> r == log
    ensures FindCompleted(log.completedTasks, id).Some? ==>
      var t := FindCompleted(log.completedTasks, id).value;
      && r.completedTasks == Filter(log.completedTasks, NotCompleted(id))
      && r.todoTasks == log.todoTasks + [TodoTask(freshId, t.content, false, t.time, t.tags)]
  {
    match FindCompleted(log.completedTasks, id)
    case None => log
    case Some(t) =>
      MergeLog(log, LogPatch(
        Some(log.todoTasks + [TodoTask(freshId, t.content, false, t.time, t.tags)]),
        Some(Filter(log.completedTasks, NotCompleted(id))),
        None))
  }

  /** Completing a to-do and then reversing the completed item it produced
      gives back a to-do with the same content, time and tags at the end of
      the list, and the completed list as it was, provided the completed
      item's id was fresh. */
  lemma CompleteThenReverse(log: DayLog, id: Id, c: Id, t2: Id, now: Timestamp)
    requires FindTodo(log.todoTasks, id).Some?
    requires forall k :: 0 <= k < |log.completedTasks| ==> log.completedTasks[k].id != c
    ensures var t := FindTodo(log.todoTasks, id).value;
      var r := Reverse(Complete(log, id, c, now), c, t2);
      && r.todoTasks == DeleteTodo(log.todoTasks, id) + [TodoTask(t2, t.content, false, t.time, t.tags)]
      && r.completedTasks == log.completedTasks
      && r.createdAt == log.createdAt
  {
    var t := FindTodo(log.todoTasks, id).value;
    var mid := Complete(log, id, c, now);
    var item := CompletedTask(c, t.content, t.time, t.tags, now);
    assert mid.completedTasks == log.completedTasks + [item];
    FindCompletedLast(log.completedTasks, item);
    FilterKeepsAll(log.completedTasks, NotCompleted(c));
    FilterAppend(log.completedTasks, [item], NotCompleted(c));
    assert Filter([item], NotCompleted(c)) == [];
  }

  lemma {:induction false} FindCompletedLast(done: seq<CompletedTask>, item: CompletedTask)
    requires forall k :: 0 <= k < |done| ==> done[k].id != item.id
    ensures FindCompleted(done + [item], item.id) == Some(item)
  {
    if done != [] {
      assert (done + [item])[1..] == done[1..] + [item];
      FindCompletedLast(done[1..], item);
    } else {
      assert done + [item] == [item];
    }
  }

  /** `{ ...task, ...updates }` for a completed item. */
  function MergeCompleted(t: CompletedTask, p: CompletedPatch): (r: CompletedTask)
    ensures r.id == p.id.GetOr(t.id) && r.content == p.content.GetOr(t.content)
    ensures r.time == p.time.OrElse(t.time) && r.tags == p.tags.OrElse(t.tags)
    ensures r.completedAt == p.completedAt.GetOr(t.completedAt)
  {
    CompletedTask(p.id.GetOr(t.id), p.content.GetOr(t.content), p.time.OrElse(t.time), p.tags.OrElse(t.tags), p.completedAt.GetOr(t.completedAt))
  }

  /** `x || fallback` for a string property: an absent or empty string
      falls back. */
  function TruthyOr(x: Option<string>, fallback: string): string {
    if x.Some? && x.value != "" then x.value else fallback
  }

  /** `handleUpdateCompletedTask`, an upsert: when an item has the id, the
      matching items are merged with the update and nothing else changes;
      otherwise one item is appended with exactly that id, the update's
      content (or `''`), its completion time (or now), and its time and tags. */
  function UpdateCompleted(done: seq<CompletedTask>, id: Id, p: CompletedPatch, now: Timestamp): (r: seq<CompletedTask>)
    ensures FindCompleted(done, id).Some? ==>
      && |r| == |done|
      && (forall k :: 0 <= k < |r| && done[k].id != id ==> r[k] == done[k])
      && (forall k :: 0 <= k < |r| && done[k].id == id ==> r[k] == MergeCompleted(done[k], p))
    ensures FindCompleted(done, id).None? ==>
      && |r| == |done| + 1 && r[..|done|] == done
      && r[|done|].id == id && r[|done|].content == p.content.GetOr("")
      && r[|done|].completedAt == TruthyOr(p.completedAt, now)
      && r[|done|].time == p.time && r[|done|].tags == p.tags
  {
    if FindCompleted(done, id).Some? then
      seq(|done|, k requires 0 <= k < |done| => if done[k].id == id then MergeCompleted(done[k], p) else done[k])
    else
      done + [CompletedTask(id, TruthyOr(p.content, ""), p.time, p.tags, TruthyOr(p.completedAt, now))]
  }

  /** After the upsert an item with the id exists, so a second upsert with
      the same id edits that item instead of adding another: the list does
      not grow. */
  lemma UpsertThenUpdate(done: seq<CompletedTask>, id: Id, p: CompletedPatch, q: CompletedPatch, now: Timestamp, later: Timestamp)
    requires p.id.None? || p.id == Some(id)
    ensures FindCompleted(UpdateCompleted(done, id, p, now), id).Some?
    ensures |UpdateCompleted(UpdateCompleted(done, id, p, now), id, q, later)| == |UpdateCompleted(done, id, p, now)|
  {
    var r := UpdateCompleted(done, id, p, now);
    if FindCompleted(done, id).Some? {
      var k :| 0 <= k < |done| && done[k].id == id;
      assert r[k].id == id;
    } else {
      assert r[|done|].id == id;
    }
  }

  // ---------------------------------------------------------------
  // History

  type Entry = (string, DayLog)

  predicate DistinctKeys(entries: seq<Entry>) {
    forall i, j :: 0 <= i < j < |entries| ==> entries[i].0 != entries[j].0
  }

  /** Adjacent entries have strictly decreasing keys. */
  predicate NewestFirst(entries: seq<Entry>) {
    forall i :: 0 <= i < |entries| - 1 ==> LexLess(entries[i + 1].0, entries[i].0)
  }

  /** Inserts an entry into a list ordered newest first. */
  function InsertNewestFirst(e: Entry, s: seq<Entry>): (r: seq<Entry>)
    ensures |r| == |s| + 1
    ensures r[0] == e || (s != [] && r[0] == s[0])
    ensures forall x :: x in r <==> x == e || x in s
  {
    if s == [] then [e]
    else if LexLess(s[0].0, e.0) then [e] + s
    else [s[0]] + InsertNewestFirst(e, s[1..])
  }

  lemma {:induction false} InsertKeepsOrder(e: Entry, s: seq<Entry>)
    requires NewestFirst(s)
    requires forall k :: 0 <= k < |s| ==> s[k].0 != e.0
    ensures NewestFirst(InsertNewestFirst(e, s))
  {
    if s != [] && !LexLess(s[0].0, e.0) {
      LexLessTotal(s[0].0, e.0);
      InsertKeepsOrder(e, s[1..]);
      var r := InsertNewestFirst(e, s);
      assert r == [s[0]] + InsertNewestFirst(e, s[1..]);
      if |s| > 1 {
        assert LexLess(s[1].0, s[0].0);
      }
    }
  }

  /** `.sort(([a], [b]) => b.localeCompare(a))`: newest first. */
  function SortNewestFirst(s: seq<Entry>): (r: seq<Entry>)
    ensures |r| == |s|
    ensures forall x :: x in r <==> x in s
  {
    if s == [] then [] else InsertNewestFirst(s[0], SortNewestFirst(s[1..]))
  }

  lemma {:induction false} SortIsNewestFirst(s: seq<Entry>)
    requires DistinctKeys(s)
    ensures NewestFirst(SortNewestFirst(s))
  {
    if s != [] {
      assert DistinctKeys(s[1..]) by {
        forall i, j | 0 <= i < j < |s[1..]| ensures s[1..][i].0 != s[1..][j].0 {
          assert s[1..][i] == s[i + 1] && s[1..][j] == s[j + 1];
        }
      }
      SortIsNewestFirst(s[1..]);
      var rest := SortNewestFirst(s[1..]);
      forall k | 0 <= k < |rest| ensures rest[k].0 != s[0].0 {
        assert rest[k] in rest;
        var m :| 0 <= m < |s[1..]| && s[1..][m] == rest[k];
        assert s[m + 1] == rest[k];
      }
      InsertKeepsOrder(s[0], rest);
    }
  }

  /** In a list ordered newest first, every later entry has a smaller key. */
  lemma {:induction false} NewestFirstTransitive(s: seq<Entry>, i: nat, j: nat)
    requires NewestFirst(s) && i < j < |s|
    ensures LexLess(s[j].0, s[i].0)
    decreases j - i
  {
    if i + 1 < j {
      NewestFirstTransitive(s, i + 1, j);
      LexLessTransitive(s[j].0, s[i + 1].0, s[i].0);
    }
  }

  /** `previousLogs`: the entries whose key is less than the current key,
      newest first. */
  function History(entries: seq<Entry>, currentKey: string): (r: seq<Entry>)
    ensures |r| <= |entries|
    ensures forall x :: x in r <==> x in entries && LexLess(x.0, currentKey)
  {
    FilterMembers(entries, (e: Entry) => LexLess(e.0, currentKey));
    SortNewestFirst(Filter(entries, (e: Entry) => LexLess(e.0, currentKey)))
  }

  lemma FilterKeepsDistinctKeys(entries: seq<Entry>, p: Entry -> bool)
    requires DistinctKeys(entries)
    ensures DistinctKeys(Filter(entries, p))
  {
    FilterIsSubsequence(entries, p);
    SubsequenceKeepsDistinctKeys(Filter(entries, p), entries);
  }

  lemma {:induction false} SubsequenceKeepsDistinctKeys(a: seq<Entry>, b: seq<Entry>)
    requires Subsequence(a, b) && DistinctKeys(b)
    ensures DistinctKeys(a)
    decreases |b|
  {
    if a != [] && b != [] {
      assert DistinctKeys(b[1..]) by {
        forall i, j | 0 <= i < j < |b[1..]| ensures b[1..][i].0 != b[1..][j].0 {
          assert b[1..][i] == b[i + 1] && b[1..][j] == b[j + 1];
        }
      }
      if a[0] == b[0] && Subsequence(a[1..], b[1..]) {
        SubsequenceKeepsDistinctKeys(a[1..], b[1..]);
        SubsequenceMembers(a[1..], b[1..]);
        forall i, j | 0 <= i < j < |a| ensures a[i].0 != a[j].0 {
          if i == 0 {
            assert a[j] == a[1..][j - 1];
            var m :| 0 <= m < |b[1..]| && b[1..][m] == a[j];
            assert b[m + 1] == a[j];
          } else {
            assert a[i] == a[1..][i - 1] && a[j] == a[1..][j - 1];
          }
        }
      } else {
        SubsequenceKeepsDistinctKeys(a, b[1..]);
      }
    }
  }

  /** The map's entries in insertion order, as `logs.entries()` yields them. */
  function EntriesOf(keys: seq<string>, logs: map<string, DayLog>): (r: seq<Entry>)
    requires forall i :: 0 <= i < |keys| ==> keys[i] in logs
    ensures |r| == |keys|
    ensures forall i :: 0 <= i < |r| ==> r[i] == (keys[i], logs[keys[i]])
  {
    seq(|keys|, i requires 0 <= i < |keys| => (keys[i], logs[keys[i]]))
  }

  /** When the keys list every key of the map once, the entries are the
      map's key-value pairs, each with a distinct key. */
  lemma EntriesOfMembers(keys: seq<string>, logs: map<string, DayLog>)
    requires forall i :: 0 <= i < |keys| ==> keys[i] in logs
    requires forall k :: k in logs ==> k in keys
    requires forall i, j :: 0 <= i < j < |keys| ==> keys[i] != keys[j]
    ensures forall x: Entry :: x in EntriesOf(keys, logs) <==> x.0 in logs && x.1 == logs[x.0]
    ensures DistinctKeys(EntriesOf(keys, logs))
  {
    var entries := EntriesOf(keys, logs);
    forall x: Entry | x.0 in logs && x.1 == logs[x.0] ensures x in entries {
      var i :| 0 <= i < |keys| && keys[i] == x.0;
      assert entries[i] == x;
    }
  }

  /** The history holds exactly the stored logs whose key is less than the
      current key, each once, and any two of them are listed newest first. */
  lemma HistoryContents(entries: seq<Entry>, currentKey: string)
    requires DistinctKeys(entries)
    ensures var h := History(entries, currentKey);
      && (forall x :: x in h <==> x in entries && LexLess(x.0, currentKey))
      && (forall i, j :: 0 <= i < j < |h| ==> LexLess(h[j].0, h[i].0))
  {
    var p := (e: Entry) => LexLess(e.0, currentKey);
    var f := Filter(entries, p);
    FilterMembers(entries, p);
    FilterKeepsDistinctKeys(entries, p);
    SortIsNewestFirst(f);
    var h := History(entries, currentKey);
    forall i, j | 0 <= i < j < |h| ensures LexLess(h[j].0, h[i].0) {
      NewestFirstTransitive(h, i, j);
    }
    forall x ensures x in h <==> x in entries && LexLess(x.0, currentKey) {
      if x in entries && LexLess(x.0, currentKey) {
        var k :| 0 <= k < |entries| && entries[k] == x;
        assert x in f;
      }
      if x in f {
        var k :| 0 <= k < |f| && f[k] == x;
      }
    }
  }

  /** With keys made from calendar days, the history is the logs of the days
      strictly before the current day, latest day first. */
  lemma HistoryByDate(entries: seq<Entry>, days: seq<Date>, current: Date)
    requires |days| == |entries| && WellFormed(current)
    requires forall k :: 0 <= k < |entries| ==> WellFormed(days[k]) && entries[k].0 == DateKey(days[k])
    requires DistinctKeys(entries)
    ensures var h := History(entries, DateKey(current));
      && (forall k :: 0 <= k < |entries| ==> (entries[k] in h <==> Before(days[k], current)))
      && (forall i, j, a, b ::
            (0 <= i < j < |h| && WellFormed(a) && WellFormed(b) && h[i].0 == DateKey(a) && h[j].0 == DateKey(b))
            ==> Before(b, a))
  {
    HistoryContents(entries, DateKey(current));
    var h := History(entries, DateKey(current));
    forall k | 0 <= k < |entries| ensures entries[k] in h <==> Before(days[k], current) {
      KeyOrder(days[k], current);
    }
    forall i, j, a, b | 0 <= i < j < |h| && WellFormed(a) && WellFormed(b) && h[i].0 == DateKey(a) && h[j].0 == DateKey(b)
      ensures Before(b, a)
    {
      KeyOrder(b, a);
    }
  }
}
