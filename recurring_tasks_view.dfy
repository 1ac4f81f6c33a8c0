/** The recurring-tasks page: its own task list, starting empty, fed by the
    create dialog opened for recurring tasks. */
module RecurringTasksView {
  import opened Values
  import opened Tasks
  import CreateTaskDialog

  /** `tasks` and `showCreateDialog`. */
  datatype ViewState = ViewState(tasks: seq<Task>, showCreateDialog: bool)

  function Initial(): ViewState {
    ViewState([], false)
  }

  /** `addTask`: the task is appended and the dialog closes. */
  function OnAdd(st: ViewState, d: TaskDraft, id: Id, now: Timestamp): (r: ViewState)
    ensures r.tasks == AddTask(st.tasks, d, id, now) && !r.showCreateDialog
  {
    ViewState(AddTask(st.tasks, d, id, now), false)
  }

  function OnUpdate(st: ViewState, id: Id, p: TaskPatch): (r: ViewState)
    ensures r.tasks == UpdateTask(st.tasks, id, p) && r.showCreateDialog == st.showCreateDialog
  {
    st.(tasks := UpdateTask(st.tasks, id, p))
  }

  function OnDelete(st: ViewState, id: Id): (r: ViewState)
    ensures r.tasks == DeleteTask(st.tasks, id) && r.showCreateDialog == st.showCreateDialog
  {
    st.(tasks := DeleteTask(st.tasks, id))
  }

  /** What happens on the page: the dialog opens or closes, a form is
      submitted (built as a recurring task), a task is updated or deleted. */
  datatype Event =
    | SetDialog(open: bool)
    | Submit(form: CreateTaskDialog.FormState, id: Id, now: Timestamp)
    | Update(target: Id, patch: TaskPatch)
    | Delete(target: Id)

  /** One event: only a submission adds a task, exactly one; the dialog
      events leave the list alone, and updates and deletes never add. */
  function Step(st: ViewState, e: Event): (r: ViewState)
    ensures e.Submit? ==> |r.tasks| == |st.tasks| + 1 && r.tasks[..|st.tasks|] == st.tasks && !r.showCreateDialog
    ensures e.SetDialog? ==> r.tasks == st.tasks && r.showCreateDialog == e.open
    ensures (e.Update? || e.Delete?) ==> |r.tasks| <= |st.tasks| && r.showCreateDialog == st.showCreateDialog
  {
    match e
    case SetDialog(open) => st.(showCreateDialog := open)
    case Submit(form, id, now) => OnAdd(st, CreateTaskDialog.BuildTask(form, Recurring), id, now)
    case Update(target, patch) => OnUpdate(st, target, patch)
    case Delete(target) => OnDelete(st, target)
  }

  /** How many of `events` are submissions. */
  function Submissions(events: seq<Event>): nat
    decreases |events|
  {
    if events == [] then 0
    else Submissions(events[..|events| - 1]) + (if events[|events| - 1].Submit? then 1 else 0)
  }

  /** The page after a sequence of events from its first render: it holds
      at most one task per submission. */
  function Replay(events: seq<Event>): (r: ViewState)
    ensures |r.tasks| <= Submissions(events)
    decreases |events|
  {
    if events == [] then Initial() else Step(Replay(events[..|events| - 1]), events[|events| - 1])
  }

  /** The ids the submissions among `events` used. */
  function SubmittedIds(events: seq<Event>): (r: set<Id>)
    ensures forall k :: 0 <= k < |events| && events[k].Submit? ==> events[k].id in r
    decreases |events|
  {
    if events == [] then {}
    else
      var e := events[|events| - 1];
      SubmittedIds(events[..|events| - 1]) + (if e.Submit? then {e.id} else {})
  }

  /** An update keeps a task recurring and scheduled unless it sets another
      type, and keeps its id unless it sets one. */
  predicate KeepsIdentity(p: TaskPatch) {
    p.id.None? && (p.kind.None? || p.kind == Some(Recurring))
  }

  /** Every submission used an id no earlier submission used, and no update
      sets an id or a type other than recurring. */
  predicate WellBehaved(events: seq<Event>) {
    && (forall i, j :: 0 <= i < j < |events| && events[i].Submit? && events[j].Submit? ==> events[i].id != events[j].id)
    && (forall k :: 0 <= k < |events| && events[k].Update? ==> KeepsIdentity(events[k].patch))
  }

  predicate UniqueIds(tasks: seq<Task>) {
    forall i, j :: 0 <= i < j < |tasks| ==> tasks[i].id != tasks[j].id
  }

  /** Every task on the page is recurring, has a schedule, and has an id one
      submission used; no two tasks share an id. */
  ghost predicate PageInvariant(tasks: seq<Task>, ids: set<Id>) {
    && UniqueIds(tasks)
    && (forall i :: 0 <= i < |tasks| ==> tasks[i].kind == Recurring && tasks[i].schedule.Some? && tasks[i].id in ids)
  }

  /** Whatever the events, as long as they are well behaved. */
  lemma {:induction false} ReplayInvariant(events: seq<Event>)
    requires WellBehaved(events)
    ensures PageInvariant(Replay(events).tasks, SubmittedIds(events))
    decreases |events|
  {
    if events != [] {
      var prefix := events[..|events| - 1];
      var e := events[|events| - 1];
      assert WellBehaved(prefix) by {
        forall k | 0 <= k < |prefix| ensures prefix[k] == events[k] {}
      }
      ReplayInvariant(prefix);
      var st := Replay(prefix);
      var ids := SubmittedIds(prefix);
      match e
      case SetDialog(_) =>
      case Submit(form, id, now) =>
        forall k | 0 <= k < |prefix| && prefix[k].Submit? ensures prefix[k].id != id {
          assert prefix[k] == events[k];
        }
        NotSubmitted(prefix, id);
        SubmitKeepsInvariant(st, ids, CreateTaskDialog.BuildTask(form, Recurring), id, now);
      case Update(target, patch) =>
        assert events[|events| - 1].Update?;
        UpdateKeepsInvariant(st, ids, target, patch);
      case Delete(target) =>
        DeleteKeepsInvariant(st, ids, target);
    }
  }

  lemma SubmitKeepsInvariant(st: ViewState, ids: set<Id>, d: TaskDraft, id: Id, now: Timestamp)
    requires PageInvariant(st.tasks, ids) && id !in ids
    requires d.kind == Recurring && d.schedule.Some?
    ensures PageInvariant(OnAdd(st, d, id, now).tasks, ids + {id})
  {
    var after := st.tasks + [FromDraft(d, id, now)];
    assert forall i :: 0 <= i < |st.tasks| ==> after[i] == st.tasks[i];
    assert UniqueIds(after) by {
      forall i, j | 0 <= i < j < |after| ensures after[i].id != after[j].id {
        if j == |st.tasks| {
          assert after[i].id in ids;
        }
      }
    }
  }

  lemma UpdateKeepsInvariant(st: ViewState, ids: set<Id>, target: Id, patch: TaskPatch)
    requires PageInvariant(st.tasks, ids) && KeepsIdentity(patch)
    ensures PageInvariant(OnUpdate(st, target, patch).tasks, ids)
  {
    var after := UpdateTask(st.tasks, target, patch);
    assert forall i :: 0 <= i < |after| ==> after[i].id == st.tasks[i].id;
  }

  lemma DeleteKeepsInvariant(st: ViewState, ids: set<Id>, target: Id)
    requires PageInvariant(st.tasks, ids)
    ensures PageInvariant(OnDelete(st, target).tasks, ids)
  {
    var after := DeleteTask(st.tasks, target);
    SubsequenceKeepsUnique(after, st.tasks);
  }

  /** An id no submission among `events` used is not in `SubmittedIds`. */
  lemma {:induction false} NotSubmitted(events: seq<Event>, id: Id)
    requires forall k :: 0 <= k < |events| && events[k].Submit? ==> events[k].id != id
    ensures id !in SubmittedIds(events)
    decreases |events|
  {
    if events != [] {
      var prefix := events[..|events| - 1];
      forall k | 0 <= k < |prefix| && prefix[k].Submit? ensures prefix[k].id != id {
        assert prefix[k] == events[k];
      }
      NotSubmitted(prefix, id);
    }
  }

  lemma {:induction false} SubsequenceKeepsUnique(a: seq<Task>, b: seq<Task>)
    requires Subsequence(a, b) && UniqueIds(b)
    ensures UniqueIds(a)
    decreases |b|
  {
    if a != [] && b != [] {
      assert UniqueIds(b[1..]) by {
        forall i, j | 0 <= i < j < |b[1..]| ensures b[1..][i].id != b[1..][j].id {
          assert b[1..][i] == b[i + 1] && b[1..][j] == b[j + 1];
        }
      }
      if a[0] == b[0] && Subsequence(a[1..], b[1..]) {
        SubsequenceKeepsUnique(a[1..], b[1..]);
        SubsequenceMembers(a[1..], b[1..]);
        forall i, j | 0 <= i < j < |a| ensures a[i].id != a[j].id {
          if i == 0 {
            assert a[j] == a[1..][j - 1];
            var m :| 0 <= m < |b[1..]| && b[1..][m] == a[j];
            assert b[m + 1] == a[j];
          } else {
            assert a[i] == a[1..][i - 1] && a[j] == a[1..][j - 1];
          }
        }
      } else {
        SubsequenceKeepsUnique(a, b[1..]);
      }
    }
  }
}
