/** The task definition store of the tasks page: the `Task` record, the list
    operations add / update / delete, and the split of the list into the
    recurring and the one-off definitions that the daily log reads. */
module Tasks {
  import opened Values
  import opened Calendar

  datatype Frequency = Daily | Weekly | Monthly

  /** `schedule`: `weekDay` is 0..6 for Sunday..Saturday, `monthDay` 1..31. */
  datatype Schedule = Schedule(frequency: Frequency, weekDay: Option<int>, monthDay: Option<int>)

  datatype TaskKind = Recurring | OneOff

  /** A task definition. `kind` is the source's `type`; `startDate` is the
      local calendar day of the stored ISO date. */
  datatype Task = Task(
    id: Id,
    title: string,
    time: Option<string>,
    tags: Option<seq<string>>,
    kind: TaskKind,
    schedule: Option<Schedule>,
    startDate: Option<Date>,
    createdAt: Timestamp)

  /** What the create dialog submits: a `Task` without `id` and `createdAt`. */
  datatype TaskDraft = TaskDraft(
    title: string,
    time: Option<string>,
    tags: Option<seq<string>>,
    kind: TaskKind,
    schedule: Option<Schedule>,
    startDate: Option<Date>)

  /** `Partial<Task>`: a `Some` field is a property present in the update. */
  datatype TaskPatch = TaskPatch(
    id: Option<Id>,
    title: Option<string>,
    time: Option<string>,
    tags: Option<seq<string>>,
    kind: Option<TaskKind>,
    schedule: Option<Schedule>,
    startDate: Option<Date>,
    createdAt: Option<Timestamp>)

  const EmptyPatch := TaskPatch(None, None, None, None, None, None, None, None)

  /** The schedule ranges the `Task` type documents. */
  predicate ScheduleInRange(s: Schedule) {
    (s.weekDay.Some? ==> 0 <= s.weekDay.value <= 6)
    && (s.monthDay.Some? ==> 1 <= s.monthDay.value <= 31)
  }

  /** `{ ...task, id, createdAt }`. */
  function FromDraft(d: TaskDraft, id: Id, createdAt: Timestamp): Task {
    Task(id, d.title, d.time, d.tags, d.kind, d.schedule, d.startDate, createdAt)
  }

  /** `{ ...task, ...updates }`: every property present in the patch wins. */
  function Merge(t: Task, p: TaskPatch): (r: Task)
    ensures r.id == p.id.GetOr(t.id) && r.title == p.title.GetOr(t.title)
    ensures r.time == p.time.OrElse(t.time) && r.tags == p.tags.OrElse(t.tags)
    ensures r.kind == p.kind.GetOr(t.kind) && r.schedule == p.schedule.OrElse(t.schedule)
    ensures r.startDate == p.startDate.OrElse(t.startDate) && r.createdAt == p.createdAt.GetOr(t.createdAt)
  {
    Task(
      p.id.GetOr(t.id), p.title.GetOr(t.title), p.time.OrElse(t.time), p.tags.OrElse(t.tags),
      p.kind.GetOr(t.kind), p.schedule.OrElse(t.schedule), p.startDate.OrElse(t.startDate),
      p.createdAt.GetOr(t.createdAt))
  }

  /** An empty update changes nothing. */
  lemma MergeEmpty(t: Task)
    ensures Merge(t, EmptyPatch) == t
  {
  }

  /** `addTask`: exactly one task is appended, carrying every submitted
      field, the fresh id and the creation time; the list before it is kept. */
  function AddTask(tasks: seq<Task>, d: TaskDraft, id: Id, now: Timestamp): (r: seq<Task>)
    ensures |r| == |tasks| + 1 && r[..|tasks|] == tasks
    ensures r[|tasks|].id == id && r[|tasks|].createdAt == now
    ensures r[|tasks|].title == d.title && r[|tasks|].time == d.time && r[|tasks|].tags == d.tags
    ensures r[|tasks|].kind == d.kind && r[|tasks|].schedule == d.schedule && r[|tasks|].startDate == d.startDate
  {
    tasks + [FromDraft(d, id, now)]
  }

  /** `updateTask`: the update is merged into exactly the tasks with the given
      id; the length and every other task are unchanged. */
  function UpdateTask(tasks: seq<Task>, id: Id, p: TaskPatch): (r: seq<Task>)
    ensures |r| == |tasks|
    ensures forall i :: 0 <= i < |r| && tasks[i].id != id ==> r[i] == tasks[i]
    ensures forall i :: 0 <= i < |r| && tasks[i].id == id ==> r[i] == Merge(tasks[i], p)
  {
    seq(|tasks|, i requires 0 <= i < |tasks| => if tasks[i].id == id then Merge(tasks[i], p) else tasks[i])
  }

  /** An update of an id no task has leaves the list as it was. */
  lemma UpdateUnknownId(tasks: seq<Task>, id: Id, p: TaskPatch)
    requires forall i :: 0 <= i < |tasks| ==> tasks[i].id != id
    ensures UpdateTask(tasks, id, p) == tasks
  {
  }

  function OtherThan(id: Id): Task -> bool {
    (t: Task) => t.id != id
  }

  /** `deleteTask`: exactly the tasks with the given id are removed, the
      others are kept in their order and as often as they occurred. */
  function DeleteTask(tasks: seq<Task>, id: Id): (r: seq<Task>)
    ensures forall i :: 0 <= i < |r| ==> r[i].id != id && r[i] in tasks
    ensures forall i :: 0 <= i < |tasks| && tasks[i].id != id ==> tasks[i] in r
    ensures Subsequence(r, tasks)
    ensures forall x :: multiset(r)[x] == if x.id != id then multiset(tasks)[x] else 0
  {
    FilterIsSubsequence(tasks, OtherThan(id));
    FilterMembers(tasks, OtherThan(id));
    FilterMultiset(tasks, OtherThan(id));
    Filter(tasks, OtherThan(id))
  }

  /** Deleting an id no task has leaves the list as it was. */
  lemma DeleteUnknownId(tasks: seq<Task>, id: Id)
    requires forall i :: 0 <= i < |tasks| ==> tasks[i].id != id
    ensures DeleteTask(tasks, id) == tasks
  {
    FilterKeepsAll(tasks, OtherThan(id));
  }

  function OfKind(k: TaskKind): Task -> bool {
    (t: Task) => t.kind == k
  }

  /** `tasks.filter(task => task.type === "recurring")`. */
  function RecurringTasks(tasks: seq<Task>): seq<Task> {
    Filter(tasks, OfKind(Recurring))
  }

  /** `tasks.filter(task => task.type === "one-off")`. */
  function OneOffTasks(tasks: seq<Task>): seq<Task> {
    Filter(tasks, OfKind(OneOff))
  }

  /** The two lists partition the store: each keeps the store's order, holds
      only tasks of its kind, every task of the store is in the list of its
      kind, and together they are as long as the store. */
  lemma {:induction false} Partition(tasks: seq<Task>)
    ensures Subsequence(RecurringTasks(tasks), tasks) && Subsequence(OneOffTasks(tasks), tasks)
    ensures forall i :: 0 <= i < |RecurringTasks(tasks)| ==> RecurringTasks(tasks)[i].kind == Recurring
    ensures forall i :: 0 <= i < |OneOffTasks(tasks)| ==> OneOffTasks(tasks)[i].kind == OneOff
    ensures forall i :: 0 <= i < |tasks| ==>
      (tasks[i] in RecurringTasks(tasks) <==> tasks[i].kind == Recurring)
      && (tasks[i] in OneOffTasks(tasks) <==> tasks[i].kind == OneOff)
    ensures |RecurringTasks(tasks)| + |OneOffTasks(tasks)| == |tasks|
  {
    FilterIsSubsequence(tasks, OfKind(Recurring));
    FilterIsSubsequence(tasks, OfKind(OneOff));
    FilterMembers(tasks, OfKind(Recurring));
    FilterMembers(tasks, OfKind(OneOff));
    PartitionLength(tasks);
  }

  /** Saving after an add: the new task joins the end of the list of its own
      kind and the other list is unchanged. */
  lemma AddTaskPartition(tasks: seq<Task>, d: TaskDraft, id: Id, now: Timestamp)
    ensures var r := AddTask(tasks, d, id, now);
      && (d.kind == Recurring ==> RecurringTasks(r) == RecurringTasks(tasks) + [FromDraft(d, id, now)] && OneOffTasks(r) == OneOffTasks(tasks))
      && (d.kind == OneOff ==> OneOffTasks(r) == OneOffTasks(tasks) + [FromDraft(d, id, now)] && RecurringTasks(r) == RecurringTasks(tasks))
  {
    var t := FromDraft(d, id, now);
    FilterAppend(tasks, [t], OfKind(Recurring));
    FilterAppend(tasks, [t], OfKind(OneOff));
    assert Filter([t], OfKind(Recurring)) == (if t.kind == Recurring then [t] else []) + Filter([t][1..], OfKind(Recurring));
    assert Filter([t], OfKind(OneOff)) == (if t.kind == OneOff then [t] else []) + Filter([t][1..], OfKind(OneOff));
  }

  lemma {:induction false} PartitionLength(tasks: seq<Task>)
    ensures |RecurringTasks(tasks)| + |OneOffTasks(tasks)| == |tasks|
  {
    if tasks != [] {
      PartitionLength(tasks[1..]);
    }
  }
}
