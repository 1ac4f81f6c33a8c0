/** The create-task dialog: its form state and defaults, the comma-separated
    tag field, and the task definition that submitting the form builds. */
module CreateTaskDialog {
  import opened Values
  import opened Text
  import opened Calendar
  import opened Tasks

  /** The dialog's `useState` fields; `tags` is the raw comma-separated text. */
  datatype FormState = FormState(
    title: string,
    duration: string,
    tags: string,
    frequency: Frequency,
    weekDay: int,
    monthDay: int,
    startDate: Option<Date>)

  /** The form as the dialog first shows it. */
  function InitialForm(): (r: FormState)
    ensures r.title == "" && r.duration == "" && r.tags == ""
    ensures r.frequency == Daily && r.weekDay == 1 && r.monthDay == 1 && r.startDate == None
  {
    FormState("", "", "", Daily, 1, 1, None)
  }

  /** `resetForm`, run after every submit: the form is back to exactly the
      state it started in. */
  function ResetForm(): (r: FormState)
    ensures r == InitialForm()
  {
    FormState("", "", "", Daily, 1, 1, None)
  }

  /** A form submitted again right after a reset builds a daily recurring
      definition with neither a weekday nor a day of the month, and a
      one-off definition with no start date. */
  lemma ResetRestoresInitial()
    ensures BuildTask(ResetForm(), Recurring).schedule == Some(Schedule(Daily, None, None))
    ensures BuildTask(ResetForm(), OneOff).startDate == None && BuildTask(ResetForm(), OneOff).schedule == None
    ensures BuildTask(ResetForm(), Recurring).title == "" && BuildTask(ResetForm(), Recurring).time == Some("")
  {
  }

  /** The values the day-of-week select offers: 0 (Sunday) .. 6 (Saturday). */
  function WeekDayOptions(): (r: seq<int>)
    ensures forall v :: v in r <==> 0 <= v <= 6
  {
    [0, 1, 2, 3, 4, 5, 6]
  }

  /** The values the day-of-month select offers: 1 .. 31. */
  function MonthDayOptions(): (r: seq<int>)
    ensures forall v :: v in r <==> 1 <= v <= 31
  {
    [ 1,  2,  3,  4,  5,  6,  7,  8,  9, 10, 11, 12, 13, 14, 15, 16,
     17, 18, 19, 20, 21, 22, 23, 24, 25, 26, 27, 28, 29, 30, 31]
  }

  /** The form's day fields hold values the selects can produce. */
  predicate FormInRange(f: FormState) {
    f.weekDay in WeekDayOptions() && f.monthDay in MonthDayOptions()
  }

  function TrimAll(pieces: seq<string>): (r: seq<string>)
    ensures |r| == |pieces|
    ensures forall k :: 0 <= k < |r| ==> r[k] == Trim(pieces[k])
  {
    seq(|pieces|, k requires 0 <= k < |pieces| => Trim(pieces[k]))
  }

  const NonEmpty := (t: string) => t != ""

  /** `tags.split(",").map(tag => tag.trim()).filter(Boolean)`: no tag is
      empty, none has whitespace at either end, none holds a comma. */
  function ParseTags(raw: string): (r: seq<string>)
    ensures forall k :: 0 <= k < |r| ==> r[k] != "" && IsTrimmed(r[k]) && ',' !in r[k]
  {
    var pieces := Split(raw, ',');
    var trimmed := TrimAll(pieces);
    forall k | 0 <= k < |trimmed| ensures ',' !in trimmed[k] {
      NoCharInTrim(pieces[k], ',');
    }
    FilterMembers(trimmed, NonEmpty);
    Filter(trimmed, NonEmpty)
  }

  lemma NoCharInTrim(s: string, c: char)
    requires c !in s
    ensures c !in Trim(s)
  {
    var i, j :| 0 <= i <= j <= |s| && Trim(s) == s[i..j];
    assert forall k :: 0 <= k < j - i ==> s[i..j][k] == s[i + k];
  }

  /** A string is one of the parsed tags exactly when it is non-empty and is
      the trim of some comma-separated piece of the field. */
  lemma ParseTagsMembership(raw: string, t: string)
    ensures t in ParseTags(raw) <==>
      t != "" && exists k :: 0 <= k < |Split(raw, ',')| && Trim(Split(raw, ',')[k]) == t
  {
    var trimmed := TrimAll(Split(raw, ','));
    FilterMembers(trimmed, NonEmpty);
    if t in ParseTags(raw) {
      var i :| 0 <= i < |ParseTags(raw)| && ParseTags(raw)[i] == t;
      var k :| 0 <= k < |trimmed| && trimmed[k] == t;
      assert Trim(Split(raw, ',')[k]) == t;
    }
    if t != "" && exists k :: 0 <= k < |Split(raw, ',')| && Trim(Split(raw, ',')[k]) == t {
      var k :| 0 <= k < |Split(raw, ',')| && Trim(Split(raw, ',')[k]) == t;
      assert trimmed[k] == t && NonEmpty(trimmed[k]);
    }
  }

  /** `handleSubmit`'s task: title and type copied, `time` is the chosen
      duration, tags parsed from the field. A recurring task gets a schedule
      with the frequency, with `weekDay` exactly when weekly and `monthDay`
      exactly when monthly, and no start date; a one-off task gets the picked
      start date (absent when none was picked) and no schedule. */
  function BuildTask(f: FormState, kind: TaskKind): (d: TaskDraft)
    ensures d.title == f.title && d.kind == kind && d.time == Some(f.duration)
    ensures d.tags == Some(ParseTags(f.tags))
    ensures kind == Recurring ==>
      && d.schedule.Some? && d.schedule.value.frequency == f.frequency
      && (d.schedule.value.weekDay.Some? <==> f.frequency == Weekly)
      && (d.schedule.value.monthDay.Some? <==> f.frequency == Monthly)
      && (f.frequency == Weekly ==> d.schedule.value.weekDay == Some(f.weekDay))
      && (f.frequency == Monthly ==> d.schedule.value.monthDay == Some(f.monthDay))
      && d.startDate == None
    ensures kind == OneOff ==> d.schedule == None && d.startDate == f.startDate
  {
    var schedule :=
      if kind == Recurring then
        Some(Schedule(
          f.frequency,
          if f.frequency == Weekly then Some(f.weekDay) else None,
          if f.frequency == Monthly then Some(f.monthDay) else None))
      else None;
    var startDate := if kind == Recurring then None else f.startDate;
    TaskDraft(f.title, Some(f.duration), Some(ParseTags(f.tags)), kind, schedule, startDate)
  }

  /** A form whose day fields came from the selects builds a schedule inside
      the documented ranges; the reset form is such a form. */
  lemma BuildTaskInRange(f: FormState, kind: TaskKind)
    requires FormInRange(f)
    ensures BuildTask(f, kind).schedule.Some? ==> ScheduleInRange(BuildTask(f, kind).schedule.value)
    ensures FormInRange(ResetForm())
  {
    assert 1 in WeekDayOptions() && 1 in MonthDayOptions();
  }
}
