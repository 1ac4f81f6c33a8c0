# four-minute-log, modelled in Dafny

four-minute-log is a small daily work log written as React components. A
user keeps task definitions:

- **recurring** definitions run daily, on one weekday, or on one day of the month;
- **one-off** definitions run on a single start date.

Each calendar day has a log of to-do and completed items. A day's log is
created the first time the day is viewed. It is seeded with the unfinished
to-dos of the day before and with one fresh item for every definition that
applies on that day. Items can then be added, edited, deleted, completed,
reversed and tagged or timed. Earlier days are listed newest first.

The model covers the pieces that decide what the data becomes:

- the log engine of the daily log page, as a class over the `logs` map;
- the pure handlers of the to-do panel, of a single task row, of the task and
  recurring-task pages, of the create-task dialog and of the client list.

Each component's state is a datatype, or the class's fields. Each handler is
a function or a method from the old state to the new state and to the
callback calls it makes.

## Where things are

Shared helpers:

- `values.dfy`: `Option` and the JavaScript spread override (`GetOr`, `OrElse`), `Filter` and `Subsequence`.
- `text.dfy`: `String.prototype.trim` over the ECMAScript whitespace set, `split`/`join`, and the string order `<`.
- `calendar.dfy`: proleptic Gregorian dates, day of week, the previous day, and the `yyyy-MM-dd` key. The key order is proved to be the date order.

One module per source file:

- `tasks.dfy`: the `Task` record and the tasks page's list operations and partition.
- `create_task_dialog.dfy`: the form, its reset, tag parsing, and the drafts it submits.
- `log_items.dfy`: the pure part of the daily log page:
  - which definitions apply on a day;
  - creating a day's log;
  - the item handlers;
  - the history list.
- `daily_log_view.dfy`: class `DailyLog`, the stateful page, with `getCurrentLog`, `updateLog` and the handlers on it.
- `todo_tasks.dfy`: the to-do panel's input boxes, its editor and its time and tag pickers.
- `task_item.dfy`: a single editable row.
- `recurring_tasks_view.dfy`: the recurring-tasks page and its invariant over any sequence of events.
- `client_list.dfy`: clients and their projects.

`crypto.randomUUID()` is a parameter in the models:

- an id passed to each pure handler;
- in the class, a function `idFor: nat -> Id` with a counter of ids drawn.

The clock (`new Date().toISOString()`) is always a `now: Timestamp` parameter.

## Model

| member | source | states |
|---|---|---|
| Tasks.Merge | components/tasks/tasks-view.tsx:62-66 | every property present in a partial update replaces the task's own, every absent one is kept |
| Tasks.MergeEmpty | components/tasks/tasks-view.tsx:62-66 | an update with no properties leaves the task unchanged |
| Tasks.AddTask | components/tasks/tasks-view.tsx:50-60 | exactly one task is appended, carrying every submitted field, the fresh id and the creation time; the earlier list is kept as a prefix |
| Tasks.UpdateTask | components/tasks/tasks-view.tsx:62-66 | same length; tasks with the id get the update merged in, every other task is unchanged |
| Tasks.UpdateUnknownId | components/tasks/tasks-view.tsx:62-66 | an update of an id no task has changes nothing |
| Tasks.DeleteTask | components/tasks/tasks-view.tsx:68-70 | no survivor has the id, every task without the id survives as often as it occurred, and the survivors keep their order |
| Tasks.DeleteUnknownId | components/tasks/tasks-view.tsx:68-70 | deleting an id no task has changes nothing |
| Tasks.Partition | components/tasks/tasks-view.tsx:42-48 | the recurring and one-off lists each keep the store's order and hold only their kind; each task is in the list of its kind; together they are as long as the store |
| Tasks.AddTaskPartition | components/tasks/tasks-view.tsx:42-60 | after an add, the new task ends the list of its own kind and the other list is unchanged |
| CreateTaskDialog.InitialForm | components/tasks/create-task-dialog.tsx:34-40 | the form starts with empty texts, daily, Monday (1), the 1st and no start date |
| CreateTaskDialog.ResetForm | components/tasks/create-task-dialog.tsx:65-73 | after a submit the form is exactly the initial form |
| CreateTaskDialog.ResetRestoresInitial | components/tasks/create-task-dialog.tsx:42-73 | a form submitted right after a reset builds a daily recurring definition with no weekday and no day of the month, or a one-off definition with no start date |
| CreateTaskDialog.WeekDayOptions | components/tasks/create-task-dialog.tsx:144 | the day-of-week select offers exactly 0..6 |
| CreateTaskDialog.MonthDayOptions | components/tasks/create-task-dialog.tsx:160 | the day-of-month select offers exactly 1..31 |
| CreateTaskDialog.ParseTags | components/tasks/create-task-dialog.tsx:48 | the parsed tags are non-empty, trimmed and comma-free |
| CreateTaskDialog.ParseTagsMembership | components/tasks/create-task-dialog.tsx:48 | a string is a parsed tag exactly when it is non-empty and is the trim of one comma-separated piece |
| CreateTaskDialog.BuildTask | components/tasks/create-task-dialog.tsx:42-63 | title, type and duration are copied and tags parsed. A recurring task has a schedule with weekDay exactly when weekly and monthDay exactly when monthly, and no start date. A one-off task has the picked start date and no schedule |
| CreateTaskDialog.BuildTaskInRange | components/tasks/create-task-dialog.tsx:50-58 | a form whose day fields came from the selects builds a schedule inside the documented ranges |
| RecurringTasksView.OnAdd | components/tasks/recurring-tasks-view.tsx:15-25 | the task is appended as on the tasks page and the dialog closes |
| RecurringTasksView.OnUpdate | components/tasks/recurring-tasks-view.tsx:27-31 | the list is updated as on the tasks page; the dialog flag is kept |
| RecurringTasksView.OnDelete | components/tasks/recurring-tasks-view.tsx:33-35 | the list is filtered as on the tasks page; the dialog flag is kept |
| RecurringTasksView.Step | components/tasks/recurring-tasks-view.tsx:15-57 | only a submission adds a task, exactly one at the end, and closes the dialog; the dialog events keep the list; updates and deletes never lengthen it |
| RecurringTasksView.Replay | components/tasks/recurring-tasks-view.tsx:12-57 | after any sequence of events the page holds at most one task per submission |
| RecurringTasksView.ReplayInvariant | components/tasks/recurring-tasks-view.tsx:12-57 | Starting from the empty page, suppose submissions use distinct ids and no update sets an id or a non-recurring type. Then after any sequence of events every task is recurring, has a schedule and was submitted, and no two tasks share an id |
| RecurringTasksView.SubmitKeepsInvariant | components/tasks/recurring-tasks-view.tsx:15-25 | a recurring submission with a fresh id keeps the page invariant |
| RecurringTasksView.UpdateKeepsInvariant | components/tasks/recurring-tasks-view.tsx:27-31 | an update that keeps id and type keeps the page invariant |
| RecurringTasksView.DeleteKeepsInvariant | components/tasks/recurring-tasks-view.tsx:33-35 | deleting keeps the page invariant |
| Calendar.DaysInMonth | components/log/daily-log-view.tsx:64 | months have 28..31 days; 31 exactly for January, March, May, July, August, October and December; 29 exactly for February of a leap year |
| Calendar.DayOfWeek | components/log/daily-log-view.tsx:63 | `getDay` is a number 0..6 |
| Calendar.KnownWeekdays | components/log/daily-log-view.tsx:63 | 2024-01-01 is a Monday (1) and 2024-01-03 a Wednesday (3) |
| Calendar.PrevDay | components/log/daily-log-view.tsx:96-97 | the previous day is a well-formed date one day number earlier and before the day; it is valid unless the day is 0001-01-01 |
| Calendar.PrevDayWeekday | components/log/daily-log-view.tsx:96-97 | the previous day's weekday is one less, modulo 7 |
| Calendar.DateKey | components/log/daily-log-view.tsx:40 | the key is ten characters: digits with hyphens at positions 4 and 7 |
| Calendar.DigitsRoundTrip | components/log/daily-log-view.tsx:40 | reading back a zero-padded field gives the number |
| Calendar.KeyOrder | components/log/daily-log-view.tsx:232 | keys compare with `<` exactly as their dates compare, and equal keys mean equal dates |
| LogItems.RecurringApplies | components/log/daily-log-view.tsx:60-64 | a definition without a schedule never applies; a daily one applies on every day; a weekly one applies only with a weekday 0..6; a monthly one only with a day the month has |
| LogItems.OneOffApplies | components/log/daily-log-view.tsx:80 | a one-off definition without a start date never applies |
| LogItems.OneOffAppliesOnce | components/log/daily-log-view.tsx:80 | a one-off definition applies on one day at most |
| LogItems.MonthlySkipsShortMonths | components/log/daily-log-view.tsx:60-64 | a definition without a schedule never applies, and a monthly one whose monthDay is past the month's last day never applies in that month |
| LogItems.WeeklyAppliesOnItsWeekday | components/log/daily-log-view.tsx:63 | a weekly definition applies exactly on its weekday, so never on two days in a row |
| LogItems.ApplicableDefinitions | components/log/daily-log-view.tsx:55-92 | at most one applicable definition per stored definition, and none when nothing is stored |
| LogItems.ItemFor | components/log/daily-log-view.tsx:67-73 | the pushed item has the fresh id, is not completed, takes the title as content and keeps the time and tags |
| LogItems.Materialize | components/log/daily-log-view.tsx:67-73 | one item per definition, in order: the k-th fresh id, not completed, the title as content, and the definition's time and tags |
| LogItems.PushApplicable | components/log/daily-log-view.tsx:59-76 | the loop appends exactly the items of the definitions that apply, in order, using the next ids |
| LogItems.CollectApplicable | components/log/daily-log-view.tsx:55-92 | the applicable items are the recurring definitions that apply, then the one-off definitions starting that day, each made into an item |
| LogItems.ApplicableMembers | components/log/daily-log-view.tsx:59-89 | a definition is collected exactly when it is a recurring one that applies or a one-off one starting that day; the recurring ones come first |
| LogItems.Carried | components/log/daily-log-view.tsx:104-106 | no log the day before means nothing is carried; otherwise the carried items are exactly its incomplete to-dos, in order, each as often as it occurs there |
| LogItems.NewLog | components/log/daily-log-view.tsx:104-113 | a new log has no completed items, the opening time, one to-do per carried item and per applicable definition, and every to-do is incomplete |
| LogItems.NewLogShape | components/log/daily-log-view.tsx:104-115 | a new log has no completed items, the opening time, the carried items followed by the applicable items, and carries everything when the day before had only incomplete items |
| LogItems.PriorLog | components/log/daily-log-view.tsx:96-99 | the day before's log is found exactly when its key is stored |
| LogItems.OpenedLogStable | components/log/daily-log-view.tsx:94-119 | `OpenedLog`, the log `getCurrentLog` returns: an existing log is returned as stored and draws no ids, whatever the definitions, ids and clock; a missing one is the new log |
| LogItems.MergeLogKeepsCreatedAt | components/log/daily-log-view.tsx:122-126 | `MergeLog`, the spread `{ ...currentLog, ...updates }`: an update without createdAt keeps the log's creation time and every list it leaves out |
| LogItems.AddTodo | components/log/daily-log-view.tsx:128-137 | an empty content changes nothing; otherwise one incomplete item with the content and the fresh id is appended |
| LogItems.MergeTodo | components/log/daily-log-view.tsx:159 | every property present in the update replaces the item's |
| LogItems.UpdateTodo | components/log/daily-log-view.tsx:155-162 | same length; items with the id get the update merged in, the others are unchanged |
| LogItems.EditTodo | components/log/daily-log-view.tsx:139-146 | same length; items with the id get the new content and nothing else changes |
| LogItems.EditIsContentUpdate | components/log/daily-log-view.tsx:139-162 | an edit is the same as an update whose only property is the content |
| LogItems.DeleteTodo | components/log/daily-log-view.tsx:148-153 | no survivor has the id, every other item survives in order, and an unknown id changes nothing |
| LogItems.DeleteTodoCounts | components/log/daily-log-view.tsx:148-153 | every other item survives as often as it occurred, and no copy of a matching item is left |
| LogItems.FindTodo | components/log/daily-log-view.tsx:166 | `find` fails exactly when no item has the id; otherwise it returns the first item with the id |
| LogItems.FindCompleted | components/log/daily-log-view.tsx:186 | `find` fails exactly when no completed item has the id; otherwise it returns the first completed item with the id |
| LogItems.Complete | components/log/daily-log-view.tsx:164-182 | An unknown id changes nothing. Otherwise the item leaves the to-dos, and a completed item is appended with a fresh id, the same content, time and tags, and the completion time. The creation time is kept |
| LogItems.Reverse | components/log/daily-log-view.tsx:184-202 | An unknown id changes nothing. Otherwise the item leaves the completed list, and an incomplete to-do is appended with a fresh id and the same content, time and tags |
| LogItems.CompleteThenReverse | components/log/daily-log-view.tsx:164-202 | Completing a to-do and then reversing the new completed item restores the completed list. It also leaves exactly one to-do with the original content, time and tags, under a new id, at the end |
| LogItems.MergeCompleted | components/log/daily-log-view.tsx:211 | every property present in the update replaces the completed item's |
| LogItems.UpdateCompleted | components/log/daily-log-view.tsx:204-228 | A known id has the update merged into its items. An unknown id appends one item with that id, the content or `''`, the completion time or now, and the update's time and tags |
| LogItems.UpsertThenUpdate | components/log/daily-log-view.tsx:204-228 | after an upsert that keeps the id, an item with the id exists, so a second upsert of it edits instead of adding |
| LogItems.InsertKeepsOrder | components/log/daily-log-view.tsx:233 | inserting a new key into a newest-first list keeps it newest first |
| LogItems.SortNewestFirst | components/log/daily-log-view.tsx:233 | sorting keeps the length and the entries |
| LogItems.History | components/log/daily-log-view.tsx:231-233 | the history is no longer than the entries and holds exactly the entries whose key is less than the current key |
| LogItems.SortIsNewestFirst | components/log/daily-log-view.tsx:233 | the sorted entries have strictly decreasing keys |
| LogItems.EntriesOfMembers | components/log/daily-log-view.tsx:231 | the entries are exactly the map's pairs, with distinct keys |
| LogItems.HistoryContents | components/log/daily-log-view.tsx:231-233 | the history holds exactly the entries with a key less than the current key, newest first |
| LogItems.HistoryByDate | components/log/daily-log-view.tsx:231-233 | for keys made from dates, the history holds exactly the days before the current day, latest first |
| DailyLogView.DailyLog.constructor | components/log/daily-log-view.tsx:35-38 | the page's state before its first render: today selected, no logs, no definitions, no ids drawn |
| DailyLogView.DailyLog.LoadTasks | components/log/daily-log-view.tsx:43-53 | each stored list that is present replaces the definitions, an absent one keeps them; nothing else changes |
| DailyLogView.DailyLog.SelectDate | components/log/daily-log-view.tsx:238-241 | only the selected day changes; the render that follows is in `ChangeDate` |
| DailyLogView.DailyLog.GetCurrentLog | components/log/daily-log-view.tsx:94-119 | returns the selected day's log, storing the new log first if there was none; the key order and the id counter move only then |
| DailyLogView.DailyLog.FreshId | components/log/daily-log-view.tsx:134 | the next id is drawn and the counter moves by one; nothing else changes |
| DailyLogView.DailyLog.UpdateLog | components/log/daily-log-view.tsx:122-126 | the selected day's log, opened if need be, has the update merged in; no other day changes |
| DailyLogView.DailyLog.UpdateOpenedLog | components/log/daily-log-view.tsx:122-126 | on a day already stored, only its log changes, to the stored log merged with the update; no key and no id is added |
| DailyLogView.DailyLog.AddTodoTask | components/log/daily-log-view.tsx:128-137 | an empty content changes nothing at all, not even opening the day; otherwise the opened log gets the new item |
| DailyLogView.DailyLog.EditTodoTask | components/log/daily-log-view.tsx:139-146 | only the selected day's to-dos change, by the edit |
| DailyLogView.DailyLog.DeleteTodoTask | components/log/daily-log-view.tsx:148-153 | only the selected day's to-dos change, by the delete |
| DailyLogView.DailyLog.UpdateTodoTask | components/log/daily-log-view.tsx:155-162 | only the selected day's to-dos change, by the update |
| DailyLogView.DailyLog.CompleteTodoTask | components/log/daily-log-view.tsx:164-182 | the selected day's log is completed; an id is drawn only when the to-do exists |
| DailyLogView.DailyLog.CompleteInOpenedLog | components/log/daily-log-view.tsx:165-181 | on a day already stored, its log is completed with the next id, which is drawn only when the to-do exists |
| DailyLogView.DailyLog.ReverseCompletedTask | components/log/daily-log-view.tsx:184-202 | the selected day's log is reversed; an id is drawn only when the completed item exists |
| DailyLogView.DailyLog.ReverseInOpenedLog | components/log/daily-log-view.tsx:185-201 | on a day already stored, its log is reversed with the next id, which is drawn only when the completed item exists |
| DailyLogView.DailyLog.UpdateCompletedTask | components/log/daily-log-view.tsx:204-228 | only the selected day's completed list changes, by the upsert |
| DailyLogView.DailyLog.PreviousLogs | components/log/daily-log-view.tsx:231-233 | exactly the stored logs whose key is less than the selected day's, with strictly decreasing keys |
| DailyLogView.DailyLog.Render | components/log/daily-log-view.tsx:230-233 | a render opens the selected day as `getCurrentLog` does and lists the history of the map it leaves; afterwards the day is stored, and rendering a stored day changes nothing |
| DailyLogView.DailyLog.ChangeDate | components/log/daily-log-view.tsx:230-241 | picking a day and rendering opens that day: a day seen for the first time gets its new log, its key and its ids at once |
| DailyLogView.MountedLogAsWritten | components/log/daily-log-view.tsx:230 | today's log after the mount as written has no to-dos, no completed items and the opening time |
| DailyLogView.MountedLog | components/log/daily-log-view.tsx:94-119 | today's log with the definitions loaded first holds one fresh item per definition applying today |
| DailyLogView.MountAsWritten | components/log/daily-log-view.tsx:35-53 | The first render stores today's log before the load effect runs. The render after the effect keeps it, so today's log is `MountedLogAsWritten` whatever is stored |
| DailyLogView.Mount | components/log/daily-log-view.tsx:35-53 | loading the definitions before the first render stores `MountedLog` for today and draws one id per applicable definition |
| DailyLogView.MountDropsTodaysItems | components/log/daily-log-view.tsx:43-119 | a stored daily definition gives today no to-do on the mount as written, and exactly its item when the definitions are loaded first |
| DailyLogView.CarriedIntoNewDay | components/log/daily-log-view.tsx:94-113 | an unfinished to-do of the day before is carried, with its id, into a day's new log |
| DailyLogView.RolloverRepeats | components/log/daily-log-view.tsx:94-119 | opening the next day and then the day after carries an unfinished to-do into both new logs |
| TodoTasks.AddTodoOnEnter | components/log/todo-tasks.tsx:203-207 | a call is made exactly when the input is not blank; its value is the trim of the input, which is non-empty, and the box is cleared; a blank input keeps its text |
| TodoTasks.EnteredTodoIsAdded | components/log/todo-tasks.tsx:203-207 | an entered to-do is appended as one incomplete item whose content is the trim of the input: non-empty, trimmed, a slice of the input, and unchanged by whitespace around the input |
| TodoTasks.AddCompletedOnEnter | components/log/todo-tasks.tsx:61-71 | a blank input makes no call; otherwise an upsert of a fresh id with the trimmed content and now as completion time, and the box is cleared |
| TodoTasks.EnteredCompletedIsAppended | components/log/todo-tasks.tsx:61-71 | an entered completed item is appended with the fresh id, the trimmed content and the completion time |
| TodoTasks.StartEdit | components/log/todo-tasks.tsx:177-180 | the editor opens on the item with its content |
| TodoTasks.CancelEdit | components/log/todo-tasks.tsx:104-128 | Escape or cancel closes the editor and clears its text |
| TodoTasks.SubmitEdit | components/log/todo-tasks.tsx:73-79 | a blank text makes no call and keeps the editor open; otherwise the trimmed text is passed on and the editor closes |
| TodoTasks.SubmittedEditChangesOnlyContent | components/log/todo-tasks.tsx:73-79 | submitting an edit changes only that item's content, to the trimmed text |
| TodoTasks.UntouchedEditIsNoChange | components/log/todo-tasks.tsx:73-79 | opening the editor and submitting without typing leaves a trimmed item unchanged |
| TodoTasks.OpenTimePicker | components/log/todo-tasks.tsx:153-157 | the time picker opens for the given item and list; the other picker is untouched |
| TodoTasks.OpenTagPicker | components/log/todo-tasks.tsx:165-169 | the tag picker opens for the given item and list; the other picker is untouched |
| TodoTasks.OnTimeSelect | components/log/todo-tasks.tsx:316-325 | with no selected item there is no call; otherwise the item in the selected list gets the time; the picker closes |
| TodoTasks.PickedTimeSetsTime | components/log/todo-tasks.tsx:316-325 | the picked time replaces exactly the selected to-do's time |
| TodoTasks.AppendTag | components/log/todo-tasks.tsx:339-341 | no call exactly when the tag is already there; otherwise the tags, or none, with the tag at the end |
| TodoTasks.AppendTagKeepsNoDuplicates | components/log/todo-tasks.tsx:339-341 | appending keeps the tags duplicate-free and keeps every old tag; a second pick of the tag makes no call |
| TodoTasks.OnTagSelect | components/log/todo-tasks.tsx:335-351 | with no selected item there is no call; otherwise the selected item's tags get the tag unless it has it; the picker closes |
| TodoTasks.TagPickedTwiceAddsOnce | components/log/todo-tasks.tsx:335-351 | picking the same tag for an existing to-do a second time makes no call |
| TaskItem.Mount | components/log/task-item.tsx:24-27 | a row mounts not editing, with pickers closed and the content in the editor |
| TaskItem.Apply | components/log/task-item.tsx:18 | the owner's merge of a row's update replaces exactly the properties present |
| TaskItem.BeginEdit | components/log/task-item.tsx:83 | clicking the content opens the editor on what it last held; the pickers are untouched |
| TaskItem.Type | components/log/task-item.tsx:54 | typing replaces only the editor's text |
| TaskItem.Save | components/log/task-item.tsx:61-64 | the edited text, untrimmed, is the update's only property, and the editor closes |
| TaskItem.Cancel | components/log/task-item.tsx:71-74 | no call; the editor is reset to the content and closes |
| TaskItem.CancelDiscardsTyping | components/log/task-item.tsx:61-83 | cancelling discards whatever was typed, so a later save leaves the task unchanged; saving typed text changes only the content |
| TaskItem.ToggleTime | components/log/task-item.tsx:104 | the clock button flips the time picker and touches nothing else |
| TaskItem.ToggleTag | components/log/task-item.tsx:111 | the tag button flips the tag picker and touches nothing else |
| TaskItem.TogglesAreInvolutions | components/log/task-item.tsx:104-111 | each picker button flips only its own picker, and pressing it twice restores the row |
| TaskItem.SelectTime | components/log/task-item.tsx:128-131 | the update has only the picked time; the picker closes |
| TaskItem.SelectTag | components/log/task-item.tsx:137-142 | no call exactly when the task has the tag; otherwise the tags with it appended; the picker closes |
| TaskItem.PickersUpdateOnlyTheirField | components/log/task-item.tsx:128-142 | a picked time changes only the time; a picked tag changes only the tags, which stay duplicate-free, and a second pick makes no call |
| ClientList.OpenDialog | components/clients/client-list.tsx:59 | the dialog opens; the clients are unchanged |
| ClientList.AddClient | components/clients/client-list.tsx:28-42 | one client is appended with the submitted fields, a fresh id and the single project "General" described as "Default project for general tasks"; the dialog closes |
| ClientList.AddProject | components/clients/client-list.tsx:44-54 | each client with the id gets the project at the end of its projects, under the id drawn for it; every other client and the order are unchanged |
| ClientList.AddProjectUnknownClient | components/clients/client-list.tsx:44-54 | adding a project to an unknown client changes nothing |
| ClientList.GeneralFirstInvariant | components/clients/client-list.tsx:25-54 | from the empty list, every operation keeps each client's first project the default "General" one |
| ClientList.AddedProjectIsLast | components/clients/client-list.tsx:49 | the new project is the client's last, under the id drawn for that client, and the earlier projects are kept |
| Text.TrimIdempotent | components/log/todo-tasks.tsx:204 | trimming twice is trimming once |
| Text.TrimPadded | components/log/todo-tasks.tsx:204 | whitespace added around a string does not change its trim |
| Text.Split | components/tasks/create-task-dialog.tsx:48 | a split has at least one piece, no piece holds the separator, and joining the pieces with the separator gives back the string |
| Text.SplitJoin | components/tasks/create-task-dialog.tsx:48 | splitting the join of separator-free pieces gives the pieces back |
| Text.LexLessTransitive | components/log/daily-log-view.tsx:232 | the string order `<` is transitive |
| Text.LexLessTotal | components/log/daily-log-view.tsx:233 | two different strings are ordered one way or the other |

## Left out

- JSX, styling and collapsed rows are left out. React's state batching is not modelled: every setter takes effect at once, in order, and `logs.set` changes the one map in place.
- The daily log page's render is `DailyLogView.DailyLog.Render`. Between events the selected day is always stored, since a render opened it, and `Render` on a stored day changes nothing, so the re-render after each handler is not written out. The other pages' renders compute only markup.
- `localStorage` and `JSON.parse`: `DailyLogView.DailyLog.LoadTasks` takes the parsed lists, or `None` when nothing is stored.
- The tasks page's save effect writes the two lists to `localStorage`. That effect is modelled by `Tasks.Partition`, not as I/O.
- `crypto.randomUUID()` becomes a parameter or the `idFor` function, so the model does not guarantee that ids are unique. Where uniqueness matters, it appears as a precondition, such as the fresh id in `RecurringTasksView.WellBehaved`.
- `new Date()`, `toISOString()` and time zones: clock values are strings the caller supplies.
- A one-off `startDate` is modelled as the calendar day `isSameDay` compares in local time.
- Days are years 1 to 9999 of the proleptic Gregorian calendar. `date-fns` display formatting is not modelled.
- String order `<` is modelled on characters, which are Unicode scalar values. JavaScript compares UTF-16 code units, and the two orders differ only on characters outside the Basic Multilingual Plane: JavaScript puts U+10000 before U+FFFF. No `yyyy-MM-dd` key holds such a character.
- `localeCompare` on keys is modelled as the same order. `localeCompare` depends on the locale in general, but it agrees with `<` on keys of one fixed shape made of digits and hyphens.
- A patch property present with the value `undefined` is not modelled: a property is either present with a value or absent.
- `Tasks.AddTask` uses the draft's fields and then the fresh id and time, as the spread `{ ...task, id, createdAt }` does.
- `ClientList.AddClient` uses the form's four fields. The form type has no `id`, so the spread cannot override the fresh id.
- Component state that is only passed through to child components is not modelled: the dialogs' `open` props, the row delete button and the client card.
- The date picker and time picker components are not modelled. The time picker's choices are not modelled.
- The tag selector component and the `recurring-tasks.tsx` list component are not part of this model.
- Authentication and the Supabase client are not part of this model.
- DailyLogView.DailyLog.Valid: the class invariant does not tie map keys to dates. The date-level meaning of the history is proved separately, in `LogItems.HistoryByDate`.
- TodoTasks.TagPickedTwiceAddsOnce: requires the selected to-do to exist. When it does not, the page's update is a no-op, so the second pick would call again.
- TaskItem.Save: the row's save does not trim or check for blank text. The model keeps that as written.

## Notes on the code

Three behaviours of the code a reader may not expect:

- `handleAddTodoTask` only checks `!content`. Trimming and the blank check happen in the panel (`TodoTasks.AddTodoOnEnter`).
- A monthly definition whose day is past the end of a month does not fire in that month (`LogItems.MonthlySkipsShortMonths`). It is not moved to the month's last day.
- An update of a completed item whose id is unknown inserts a new item (`LogItems.UpdateCompleted`). It does not ignore the update.

## Findings

| source | as written | input that shows it | evidently intended | confidence | as-written member | corrected member |
|---|---|---|---|---|---|---|
| components/log/daily-log-view.tsx:230 | The first render runs `getCurrentLog` before the load effect (lines 43-53) has set the definitions. Today's log is stored without any applicable item, and every later render returns it as stored | one stored recurring definition with a daily schedule, and the page opened on any day: today gets no to-do (`DailyLogView.MountDropsTodaysItems`) | today's log holds one fresh to-do per stored definition that applies today, as a day opened later does | medium, not executed | DailyLogView.MountAsWritten | DailyLogView.Mount |

The model mounts the page with `DailyLogView.Mount`. It loads the definitions, then renders. The handlers and `ChangeDate` then act on that page.
