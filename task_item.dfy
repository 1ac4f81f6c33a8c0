/** One editable task row: inline editing of its content with save and
    cancel, the time picker and the tag picker. Each handler is a function
    from the row's task and local state to the `onUpdate` call it makes, if
    any, and the row's next state. */
module TaskItem {
  import opened Values
  import TodoTasks

  /** The `task` prop. */
  datatype Item = Item(id: Id, content: string, time: Option<string>, tags: Option<seq<string>>)

  /** `Partial<{ content, time, tags }>`, the argument of `onUpdate`. */
  datatype ItemPatch = ItemPatch(content: Option<string>, time: Option<string>, tags: Option<seq<string>>)

  /** `isEditing`, `editedContent`, `showTimeSelector`, `showTagSelector`. */
  datatype Row = Row(isEditing: bool, editedContent: string, showTime: bool, showTag: bool)

  /** The row as it mounts: not editing, the editor holding the content. */
  function Mount(task: Item): (r: Row)
    ensures !r.isEditing && r.editedContent == task.content && !r.showTime && !r.showTag
  {
    Row(false, task.content, false, false)
  }

  /** `{ ...task, ...updates }`, how the owner of the row applies a call. */
  function Apply(task: Item, p: ItemPatch): (r: Item)
    ensures r.id == task.id && r.content == p.content.GetOr(task.content)
    ensures r.time == p.time.OrElse(task.time) && r.tags == p.tags.OrElse(task.tags)
  {
    Item(task.id, p.content.GetOr(task.content), p.time.OrElse(task.time), p.tags.OrElse(task.tags))
  }

  /** Clicking the content: the editor opens on what it last held. */
  function BeginEdit(row: Row): (r: Row)
    ensures r.isEditing && r.editedContent == row.editedContent && r.showTime == row.showTime && r.showTag == row.showTag
  {
    row.(isEditing := true)
  }

  /** Typing in the editor. */
  function Type(row: Row, text: string): (r: Row)
    ensures r.editedContent == text && r.isEditing == row.isEditing && r.showTime == row.showTime && r.showTag == row.showTag
  {
    row.(editedContent := text)
  }

  /** The check button: `onUpdate` gets the edited content as it stands, not
      trimmed and not checked for blankness, and the editor closes. */
  function Save(task: Item, row: Row): (r: ((Id, ItemPatch), Row))
    ensures r.0 == (task.id, ItemPatch(Some(row.editedContent), None, None))
    ensures r.1 == row.(isEditing := false)
  {
    ((task.id, ItemPatch(Some(row.editedContent), None, None)), row.(isEditing := false))
  }

  /** The cancel button: no call; the editor is reset to the content and
      closes. */
  function Cancel(task: Item, row: Row): (r: Row)
    ensures r == row.(editedContent := task.content, isEditing := false)
  {
    row.(editedContent := task.content, isEditing := false)
  }

  /** Whatever was typed, cancelling and then saving writes the task's own
      content back, so the task is unchanged; saving typed text changes the
      content to exactly that text and nothing else. */
  lemma CancelDiscardsTyping(task: Item, row: Row, text: string)
    ensures var r := BeginEdit(Cancel(task, Type(BeginEdit(row), text)));
      Apply(task, Save(task, r).0.1) == task
    ensures Apply(task, Save(task, Type(BeginEdit(row), text)).0.1) == task.(content := text)
    ensures !Cancel(task, Type(BeginEdit(row), text)).isEditing && !Save(task, Type(BeginEdit(row), text)).1.isEditing
  {
  }

  /** The clock and tag buttons toggle their picker. */
  function ToggleTime(row: Row): (r: Row)
    ensures r.showTime == !row.showTime && r.showTag == row.showTag
    ensures r.isEditing == row.isEditing && r.editedContent == row.editedContent
  {
    row.(showTime := !row.showTime)
  }

  function ToggleTag(row: Row): (r: Row)
    ensures r.showTag == !row.showTag && r.showTime == row.showTime
    ensures r.isEditing == row.isEditing && r.editedContent == row.editedContent
  {
    row.(showTag := !row.showTag)
  }

  /** Pressing a picker button twice leaves the row as it was, and each
      button touches only its own picker. */
  lemma TogglesAreInvolutions(row: Row)
    ensures ToggleTime(ToggleTime(row)) == row && ToggleTag(ToggleTag(row)) == row
    ensures ToggleTime(row).showTime != row.showTime && ToggleTime(row).(showTime := row.showTime) == row
    ensures ToggleTag(row).showTag != row.showTag && ToggleTag(row).(showTag := row.showTag) == row
  {
  }

  /** The time picker's `onSelect`: an update whose only property is the
      time; the picker closes. */
  function SelectTime(task: Item, row: Row, time: string): (r: ((Id, ItemPatch), Row))
    ensures r.0 == (task.id, ItemPatch(None, Some(time), None)) && r.1 == row.(showTime := false)
  {
    ((task.id, ItemPatch(None, Some(time), None)), row.(showTime := false))
  }

  /** The tag picker's `onSelect`: the tags with the new tag appended, unless
      the task already has it; the picker closes either way. */
  function SelectTag(task: Item, row: Row, tag: string): (r: (Option<(Id, ItemPatch)>, Row))
    ensures r.1 == row.(showTag := false)
    ensures r.0.None? <==> tag in task.tags.GetOr([])
    ensures r.0.Some? ==> r.0.value == (task.id, ItemPatch(None, None, TodoTasks.AppendTag(task.tags, tag)))
  {
    var appended := TodoTasks.AppendTag(task.tags, tag);
    (if appended.Some? then Some((task.id, ItemPatch(None, None, appended))) else None, row.(showTag := false))
  }

  /** A picked time replaces only the time. A picked tag ends up in the tags
      exactly once when the tags had no duplicates, after which picking it
      again makes no call. */
  lemma PickersUpdateOnlyTheirField(task: Item, row: Row, time: string, tag: string)
    requires TodoTasks.NoDuplicates(task.tags.GetOr([]))
    ensures Apply(task, SelectTime(task, row, time).0.1) == task.(time := Some(time))
    ensures SelectTag(task, row, tag).0.Some? ==>
      var updated := Apply(task, SelectTag(task, row, tag).0.value.1);
      && updated == task.(tags := updated.tags)
      && TodoTasks.NoDuplicates(updated.tags.GetOr([])) && tag in updated.tags.GetOr([])
      && SelectTag(updated, row, tag).0.None?
  {
    TodoTasks.AppendTagKeepsNoDuplicates(task.tags, tag);
    var appended := TodoTasks.AppendTag(task.tags, tag);
    if appended.Some? {
      assert appended.value[|appended.value| - 1] == tag;
    }
  }
}
