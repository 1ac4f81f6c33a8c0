/** The to-do panel of the daily log: the two input boxes, the inline editor,
    and the time and tag pickers. Each handler is a function from the panel's
    local state (and the event) to the callback it makes to the page, if any,
    and the panel's next state. */
module TodoTasks {
  import opened Values
  import opened Text
  import opened LogItems

  /** `taskType`: which list the open picker acts on. */
  datatype ListKind = TodoList | CompletedList

  /** A call the panel makes to the page: `onUpdateTodoTask` or
      `onUpdateCompletedTask`. */
  datatype Update = TodoUpdate(id: Id, todo: TodoPatch) | CompletedUpdate(id: Id, completed: CompletedPatch)

  /** What pressing Enter in an input box does: the call it makes, if any,
      and the text left in the box. */
  datatype Entered<T> = Entered(call: Option<T>, input: string)

  // ---------------------------------------------------------------
  // The input boxes

  /** Enter in the "add a new task" box: a text that trims to nothing is
      ignored and stays in the box; otherwise `onAdd` gets the trimmed text
      and the box is cleared. */
  function AddTodoOnEnter(newTask: string): (r: Entered<string>)
    ensures r.call.None? <==> AllWhitespace(newTask)
    ensures r.call.None? ==> r.input == newTask
    ensures r.call.Some? ==> r.input == "" && r.call.value == Trim(newTask) && r.call.value != ""
  {
    if Trim(newTask) != "" then Entered(Some(Trim(newTask)), "") else Entered(None, newTask)
  }

  /** What the panel hands to `onAdd` is never dropped by the page's own
      empty-content guard: the page appends exactly one to-do whose content
      is the trimmed input, a non-empty slice of what was typed. Entering the
      same text with extra spaces around it adds the same item. */
  lemma EnteredTodoIsAdded(newTask: string, todos: seq<TodoTask>, id: Id, pad: string, pad': string)
    requires AddTodoOnEnter(newTask).call.Some?
    requires AllWhitespace(pad) && AllWhitespace(pad')
    ensures AddTodo(todos, AddTodoOnEnter(newTask).call.value, id) == todos + [TodoTask(id, Trim(newTask), false, None, None)]
    ensures Trim(newTask) != "" && IsTrimmed(Trim(newTask))
    ensures exists i, j :: 0 <= i <= j <= |newTask| && Trim(newTask) == newTask[i..j]
    ensures AddTodoOnEnter(pad + newTask + pad') == AddTodoOnEnter(newTask)
  {
    TrimPadded(pad, newTask, pad');
  }

  /** Enter in the "add a completed task" box: a non-blank text becomes an
      upsert for a freshly drawn id, carrying that id, the trimmed text and
      the current time, and the box is cleared. */
  function AddCompletedOnEnter(newCompletedTask: string, taskId: Id, now: Timestamp): (r: Entered<Update>)
    ensures r.call.None? <==> AllWhitespace(newCompletedTask)
    ensures r.call.None? ==> r.input == newCompletedTask
    ensures r.call.Some? ==>
      r.input == "" && r.call.value == CompletedUpdate(taskId, CompletedPatch(Some(taskId), Some(Trim(newCompletedTask)), None, None, Some(now)))
  {
    if Trim(newCompletedTask) != "" then
      Entered(Some(CompletedUpdate(taskId, CompletedPatch(Some(taskId), Some(Trim(newCompletedTask)), None, None, Some(now)))), "")
    else Entered(None, newCompletedTask)
  }

  /** With an id no completed item has, the page's upsert appends exactly
      one completed item: that id, the trimmed text, no time or tags,
      completed now. */
  lemma EnteredCompletedIsAppended(done: seq<CompletedTask>, text: string, taskId: Id, now: Timestamp)
    requires !AllWhitespace(text)
    requires forall k :: 0 <= k < |done| ==> done[k].id != taskId
    ensures var u := AddCompletedOnEnter(text, taskId, now).call.value;
      UpdateCompleted(done, u.id, u.completed, now) == done + [CompletedTask(taskId, Trim(text), None, None, now)]
  {
  }

  // ---------------------------------------------------------------
  // The inline editor

  /** `editingTaskId` and `editedContent`. */
  datatype Editor = Editor(editingTaskId: Option<Id>, editedContent: string)

  /** The pencil button: edit this item, starting from its content. */
  function StartEdit(t: TodoTask): (e: Editor)
    ensures e.editingTaskId == Some(t.id) && e.editedContent == t.content
  {
    Editor(Some(t.id), t.content)
  }

  /** Escape or the cancel button: no item is being edited. */
  function CancelEdit(): (e: Editor)
    ensures e.editingTaskId.None? && e.editedContent == ""
  {
    Editor(None, "")
  }

  /** `handleEditTask(taskId, newContent)`: a blank content keeps the editor
      open and makes no call; otherwise `onEdit` gets the trimmed content and
      the editor closes. */
  function SubmitEdit(e: Editor, taskId: Id, newContent: string): (r: (Option<(Id, string)>, Editor))
    ensures r.0.None? <==> AllWhitespace(newContent)
    ensures r.0.None? ==> r.1 == e
    ensures r.0.Some? ==> r.0.value == (taskId, Trim(newContent)) && r.1 == CancelEdit()
  {
    if Trim(newContent) != "" then (Some((taskId, Trim(newContent))), CancelEdit()) else (None, e)
  }

  /** Submitting an edit changes exactly the content of the edited item, to
      a non-blank trimmed text. */
  lemma SubmittedEditChangesOnlyContent(todos: seq<TodoTask>, t: TodoTask, newContent: string)
    requires !AllWhitespace(newContent)
    ensures var call := SubmitEdit(StartEdit(t), t.id, newContent).0.value;
      var r := EditTodo(todos, call.0, call.1);
      && |r| == |todos|
      && (forall k :: 0 <= k < |todos| ==>
            r[k].id == todos[k].id && r[k].completed == todos[k].completed && r[k].time == todos[k].time && r[k].tags == todos[k].tags)
      && (forall k :: 0 <= k < |todos| ==> r[k].content == if todos[k].id == t.id then Trim(newContent) else todos[k].content)
      && Trim(newContent) != "" && IsTrimmed(Trim(newContent))
  {
  }

  /** Submitting the editor untouched, for a listed item whose content is
      already trimmed (ids being unique), leaves the list as it was. */
  lemma UntouchedEditIsNoChange(todos: seq<TodoTask>, t: TodoTask)
    requires t in todos && IsTrimmed(t.content) && t.content != ""
    requires forall i, j :: 0 <= i < j < |todos| ==> todos[i].id != todos[j].id
    ensures SubmitEdit(StartEdit(t), t.id, t.content).0 == Some((t.id, t.content))
    ensures EditTodo(todos, t.id, t.content) == todos
  {
    TrimOfTrimmed(t.content);
    EditOwnContent(todos, t);
  }

  lemma EditOwnContent(todos: seq<TodoTask>, t: TodoTask)
    requires t in todos
    requires forall i, j :: 0 <= i < j < |todos| ==> todos[i].id != todos[j].id
    ensures EditTodo(todos, t.id, t.content) == todos
  {
    var r := EditTodo(todos, t.id, t.content);
    var m :| 0 <= m < |todos| && todos[m] == t;
    forall k | 0 <= k < |todos| ensures r[k] == todos[k] {
      assert (k < m ==> todos[k].id != todos[m].id) && (m < k ==> todos[m].id != todos[k].id);
    }
  }

  // ---------------------------------------------------------------
  // The time and tag pickers

  /** `selectedTaskId`, `taskType` and the two pickers' visibility. */
  datatype Pickers = Pickers(selectedTaskId: Option<Id>, taskType: ListKind, showTime: bool, showTag: bool)

  /** `if (selectedTaskId)`: absent and the empty string are both false. */
  predicate Selected(p: Pickers) {
    p.selectedTaskId.Some? && p.selectedTaskId.value != ""
  }

  /** A clock button on an item of the given list. */
  function OpenTimePicker(p: Pickers, id: Option<Id>, kind: ListKind): (r: Pickers)
    ensures r.selectedTaskId == id && r.taskType == kind && r.showTime && r.showTag == p.showTag
  {
    p.(selectedTaskId := id, taskType := kind, showTime := true)
  }

  /** A tag button on an item of the given list. */
  function OpenTagPicker(p: Pickers, id: Option<Id>, kind: ListKind): (r: Pickers)
    ensures r.selectedTaskId == id && r.taskType == kind && r.showTag && r.showTime == p.showTime
  {
    p.(selectedTaskId := id, taskType := kind, showTag := true)
  }

  /** The time picker's `onSelect`: with a selected item, an update whose only
      property is `time`, to the list `taskType` names; the picker closes. */
  function OnTimeSelect(p: Pickers, time: string): (r: (Option<Update>, Pickers))
    ensures r.1 == p.(showTime := false)
    ensures r.0.None? <==> !Selected(p)
    ensures Selected(p) && p.taskType == TodoList ==>
      r.0 == Some(TodoUpdate(p.selectedTaskId.value, TodoPatch(None, None, None, Some(time), None)))
    ensures Selected(p) && p.taskType == CompletedList ==>
      r.0 == Some(CompletedUpdate(p.selectedTaskId.value, CompletedPatch(None, None, Some(time), None, None)))
  {
    var call :=
      if !Selected(p) then None
      else if p.taskType == TodoList then Some(TodoUpdate(p.selectedTaskId.value, TodoPatch(None, None, None, Some(time), None)))
      else Some(CompletedUpdate(p.selectedTaskId.value, CompletedPatch(None, None, Some(time), None, None)));
    (call, p.(showTime := false))
  }

  /** Applied by the page, a picked time changes only the `time` of the items
      with the selected id. */
  lemma PickedTimeSetsTime(p: Pickers, time: string, todos: seq<TodoTask>)
    requires Selected(p) && p.taskType == TodoList
    ensures var u := OnTimeSelect(p, time).0.value;
      var r := UpdateTodo(todos, u.id, u.todo);
      && |r| == |todos|
      && (forall k :: 0 <= k < |r| && todos[k].id == u.id ==> r[k] == todos[k].(time := Some(time)))
      && (forall k :: 0 <= k < |r| && todos[k].id != u.id ==> r[k] == todos[k])
  {
  }

  /** `[...currentTags, tag]` unless `currentTags.includes(tag)`, where
      `currentTags` is `task?.tags || []`. */
  function AppendTag(tags: Option<seq<string>>, tag: string): (r: Option<seq<string>>)
    ensures r.None? <==> tag in tags.GetOr([])
    ensures r.Some? ==> r.value == tags.GetOr([]) + [tag]
  {
    var current := tags.GetOr([]);
    if tag in current then None else Some(current + [tag])
  }

  predicate NoDuplicates(s: seq<string>) {
    forall i, j :: 0 <= i < j < |s| ==> s[i] != s[j]
  }

  /** A task's tags never hold a tag twice through the pickers: appending
      keeps them duplicate-free, the picked tag is then present, and picking
      it again makes no change. */
  lemma AppendTagKeepsNoDuplicates(tags: Option<seq<string>>, tag: string)
    requires NoDuplicates(tags.GetOr([]))
    ensures AppendTag(tags, tag).Some? ==> NoDuplicates(AppendTag(tags, tag).value)
    ensures AppendTag(tags, tag).Some? ==> AppendTag(AppendTag(tags, tag), tag).None?
    ensures forall t :: t in tags.GetOr([]) ==> AppendTag(tags, tag).None? || t in AppendTag(tags, tag).value
  {
    var r := AppendTag(tags, tag);
    if r.Some? {
      assert r.value[|r.value| - 1] == tag;
      assert forall t :: t in tags.GetOr([]) ==> t in r.value by {
        assert r.value == tags.GetOr([]) + [tag];
      }
    }
  }

  /** The tag picker's `onSelect`: with a selected item, the list `taskType`
      names is searched for it and an update whose only property is the
      extended tags is made, unless the item already has the tag; the picker
      closes. */
  function OnTagSelect(p: Pickers, todos: seq<TodoTask>, done: seq<CompletedTask>, tag: string): (r: (Option<Update>, Pickers))
    ensures r.1 == p.(showTag := false)
    ensures !Selected(p) ==> r.0.None?
    ensures Selected(p) && p.taskType == TodoList ==>
      var t := FindTodo(todos, p.selectedTaskId.value);
      var tags := if t.Some? then t.value.tags else None;
      && (r.0.None? <==> AppendTag(tags, tag).None?)
      && (r.0.Some? ==> r.0.value == TodoUpdate(p.selectedTaskId.value, TodoPatch(None, None, None, None, AppendTag(tags, tag))))
    ensures Selected(p) && p.taskType == CompletedList ==>
      var t := FindCompleted(done, p.selectedTaskId.value);
      var tags := if t.Some? then t.value.tags else None;
      && (r.0.None? <==> AppendTag(tags, tag).None?)
      && (r.0.Some? ==> r.0.value == CompletedUpdate(p.selectedTaskId.value, CompletedPatch(None, None, None, AppendTag(tags, tag), None)))
  {
    var call :=
      if !Selected(p) then None
      else if p.taskType == TodoList then
        var t := FindTodo(todos, p.selectedTaskId.value);
        var appended := AppendTag(if t.Some? then t.value.tags else None, tag);
        if appended.Some? then Some(TodoUpdate(p.selectedTaskId.value, TodoPatch(None, None, None, None, appended))) else None
      else
        var t := FindCompleted(done, p.selectedTaskId.value);
        var appended := AppendTag(if t.Some? then t.value.tags else None, tag);
        if appended.Some? then Some(CompletedUpdate(p.selectedTaskId.value, CompletedPatch(None, None, None, appended, None))) else None;
    (call, p.(showTag := false))
  }

  /** The first item with an id, after an update of that id that leaves ids
      alone, is that first item merged with the update. */
  lemma {:induction false} FindTodoAfterUpdate(todos: seq<TodoTask>, id: Id, u: TodoPatch)
    requires u.id.None?
    ensures FindTodo(UpdateTodo(todos, id, u), id) ==
      (if FindTodo(todos, id).Some? then Some(MergeTodo(FindTodo(todos, id).value, u)) else None)
  {
    if todos != [] {
      var r := UpdateTodo(todos, id, u);
      assert r[1..] == UpdateTodo(todos[1..], id, u);
      FindTodoAfterUpdate(todos[1..], id, u);
    }
  }

  /** Picking the same tag twice for a to-do adds it once: after the page
      applies the first pick, the second pick makes no call. */
  lemma TagPickedTwiceAddsOnce(p: Pickers, todos: seq<TodoTask>, done: seq<CompletedTask>, tag: string)
    requires Selected(p) && p.taskType == TodoList
    requires FindTodo(todos, p.selectedTaskId.value).Some?
    requires OnTagSelect(p, todos, done, tag).0.Some?
    ensures var u := OnTagSelect(p, todos, done, tag).0.value;
      OnTagSelect(p, UpdateTodo(todos, u.id, u.todo), done, tag).0.None?
  {
    var id := p.selectedTaskId.value;
    var u := OnTagSelect(p, todos, done, tag).0.value;
    FindTodoAfterUpdate(todos, id, u.todo);
    var t := FindTodo(todos, id);
    var appended := AppendTag(if t.Some? then t.value.tags else None, tag);
    assert appended.Some? && tag in appended.value;
  }
}
