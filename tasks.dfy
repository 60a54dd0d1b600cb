/**
 * Task records and the derived values of the task view that look at one task or at
 * the whole list: the due-date badge (`smartDueText`), the per-status counts, the
 * optimistic "mark done" update, the edit form and the title check before saving
 * (frontend/src/TaskManager.jsx).
 */
module Tasks {
  import opened Wrappers
  import opened Text
  import opened Calendar
  import opened DateHelpers

  /** The status values the backend accepts (backend/server.js:24-27). */
  datatype Status = Pending | InProgress | Done

  /** The string the server and the view use for each status. */
  function StatusName(s: Status): string {
    match s
    case Pending => "pending"
    case InProgress => "in-progress"
    case Done => "done"
  }

  /** The status a raw status string names, if it is one of the three. */
  function ParseStatus(raw: string): (r: Option<Status>)
    ensures r.Some? ==> StatusName(r.value) == raw
    ensures forall s :: StatusName(s) == raw ==> r == Some(s)
  {
    if raw == "pending" then Some(Pending)
    else if raw == "in-progress" then Some(InProgress)
    else if raw == "done" then Some(Done)
    else None
  }

  predicate InDomain(raw: string) {
    ParseStatus(raw).Some?
  }

  /**
   * A task as the list holds it. The status is the string the server sent; the
   * description and the due date may be null.
   */
  datatype Task = Task(id: int, title: string, description: Option<string>, dueDate: Option<string>, status: string)

  /* ---------------- smartDueText ---------------- */

  /** What `smartDueText` returns when the task has a due date; `DaysLeft(None)` is the `null` diff. */
  datatype DueBadge = Completed(on: Option<CDate>) | Overdue(late: nat) | DueToday | DaysLeft(left: Option<nat>)

  /** The `colorClass` of each badge: one class per kind of badge. */
  function ColorClass(b: DueBadge): (c: string)
    ensures c == "done-text" <==> b.Completed?
    ensures c == "overdue" <==> b.Overdue?
    ensures c == "today" <==> b.DueToday?
    ensures c == "left" <==> b.DaysLeft?
  {
    match b
    case Completed(_) => "done-text"
    case Overdue(_) => "overdue"
    case DueToday => "today"
    case DaysLeft(_) => "left"
  }

  /**
   * The `text` of each badge; `locale` is `toLocaleDateString`, and a completed task
   * without a readable date shows `formatDateISO`'s dash. The number in an overdue or
   * days-left text is the count the badge carries.
   */
  function BadgeText(b: DueBadge, locale: CDate -> string): (r: string)
    ensures b.Completed? ==>
      && |r| >= 13 && r[..13] == "Completed on "
      && r[13..] == (if b.on.Some? then locale(b.on.value) else "\U{2014}")
    ensures b.Overdue? ==>
      && |r| >= 19 && r[..11] == "Overdue by " && r[|r| - 7..] == " day(s)"
      && AllDigits(r[11..|r| - 7]) && DigitsValue(r[11..|r| - 7]) == b.late
    ensures b.DueToday? ==> r == "Due today"
    ensures b.DaysLeft? ==>
      && |r| >= 13 && r[|r| - 12..] == " day(s) left"
      && (b.left.None? ==> r[..|r| - 12] == "null")
      && (b.left.Some? ==> AllDigits(r[..|r| - 12]) && DigitsValue(r[..|r| - 12]) == b.left.value)
  {
    match b
    case Completed(on) =>
      var date := if on.Some? then locale(on.value) else "\U{2014}";
      assert ("Completed on " + date)[13..] == date;
      "Completed on " + date
    case Overdue(n) =>
      DigitsOfNatToString(n);
      var r := "Overdue by " + NatToString(n) + " day(s)";
      assert r[11..|r| - 7] == NatToString(n);
      r
    case DueToday => "Due today"
    case DaysLeft(n) =>
      var count := if n.Some? then NatToString(n.value) else "null";
      DigitsOfNatToString(n.GetOr(0));
      assert (count + " day(s) left")[..|count|] == count;
      count + " day(s) left"
  }

  /** Apart from the completed badge, whose date text is the locale's, the text tells every badge apart. */
  lemma BadgeTextIdentifies(a: DueBadge, b: DueBadge, locale: CDate -> string)
    requires !a.Completed? && !b.Completed?
    requires BadgeText(a, locale) == BadgeText(b, locale)
    ensures a == b
  {
    var r := BadgeText(a, locale);
    assert a.Overdue? <==> r[0] == 'O' by {
      if a.Overdue? { assert r[0] == r[..11][0]; }
      else if a.DaysLeft? && a.left.Some? { assert r[0] == r[..|r| - 12][0]; }
      else if a.DaysLeft? { assert r[0] == r[..|r| - 12][0]; }
    }
    assert b.Overdue? <==> r[0] == 'O' by {
      if b.Overdue? { assert r[0] == r[..11][0]; }
      else if b.DaysLeft? && b.left.Some? { assert r[0] == r[..|r| - 12][0]; }
      else if b.DaysLeft? { assert r[0] == r[..|r| - 12][0]; }
    }
    assert a.DaysLeft? ==> (a.left.None? <==> r[0] == 'n') by {
      if a.DaysLeft? { assert r[0] == r[..|r| - 12][0]; }
    }
    assert b.DaysLeft? ==> (b.left.None? <==> r[0] == 'n') by {
      if b.DaysLeft? { assert r[0] == r[..|r| - 12][0]; }
    }
  }

  /** `smartDueText(task)` with the clock's local day `today`. */
  function SmartDueText(t: Task, today: CDate, engine: EngineParse): (r: Option<DueBadge>)
    ensures r.None? <==> Falsy(t.dueDate)
    ensures r.Some? ==> (r.value.Completed? <==> t.status == "done")
    ensures r.Some? && r.value.Completed? ==> r.value.on == ParseDateSafe(t.dueDate, engine)
  {
    if Falsy(t.dueDate) then None
    else if t.status == "done" then Some(Completed(ParseDateSafe(t.dueDate, engine)))
    else
      match DaysBetween(t.dueDate, today, engine)
      case None => Some(DaysLeft(None))
      case Some(diff) =>
        if diff < 0 then Some(Overdue(-diff))
        else if diff == 0 then Some(DueToday)
        else Some(DaysLeft(Some(diff)))
  }

  /** For a task that is not done, the badge follows the sign of the day distance. */
  lemma SmartDueTextOfDiff(t: Task, today: CDate, engine: EngineParse, n: int)
    requires !Falsy(t.dueDate) && t.status != "done"
    requires DaysBetween(t.dueDate, today, engine) == Some(n)
    ensures SmartDueText(t, today, engine) ==
      if n < 0 then Some(Overdue(-n)) else if n == 0 then Some(DueToday) else Some(DaysLeft(Some(n)))
  {
    var r := SmartDueText(t, today, engine);
    assert !(t.dueDate.None? || t.dueDate.value == "");
    if n < 0 {
      assert r == Some(Overdue(-n));
    } else if n == 0 {
      assert r == Some(DueToday);
    } else {
      assert r == Some(DaysLeft(Some(n)));
    }
  }

  /**
   * For a task that is not done and whose due day parses, the badge is exactly one of
   * overdue (by the number of days past), due today, or the number of days left.
   */
  lemma SmartDueTextClassifies(t: Task, due: CDate, today: CDate, engine: EngineParse)
    requires ValidDate(today) && today.y >= 100
    requires t.status != "done"
    requires ParseDateSafe(t.dueDate, engine) == Some(due) && due.y >= 100
    ensures var r := SmartDueText(t, today, engine);
      && r.Some? && (r.value.Overdue? || r.value.DueToday? || r.value.DaysLeft?)
      && (r.value.Overdue? <==> Before(due, today))
      && (r.value.DueToday? <==> due == today)
      && (r.value.DaysLeft? <==> Before(today, due))
      && (r.value.Overdue? ==> r.value.late == Ordinal(today) - Ordinal(due))
      && (r.value.DaysLeft? ==> r.value.left == Some(Ordinal(due) - Ordinal(today)))
  {
    DaysBetweenSign(t.dueDate, today, engine);
    OrdinalOrder(due, today);
    SmartDueTextOfDiff(t, today, engine, Ordinal(due) - Ordinal(today));
  }

  /** A due date that is set but cannot be parsed reads "null day(s) left" unless the task is done. */
  lemma SmartDueTextUnparsed(t: Task, today: CDate, engine: EngineParse, locale: CDate -> string)
    requires !Falsy(t.dueDate) && t.status != "done"
    requires ParseDateSafe(t.dueDate, engine).None?
    ensures SmartDueText(t, today, engine) == Some(DaysLeft(None))
    ensures BadgeText(DaysLeft(None), locale) == "null day(s) left"
    ensures ColorClass(DaysLeft(None)) == "left"
  {
  }

  /* ---------------- counts ---------------- */

  /** `tasks.filter((t) => t.status === name).length`. */
  function CountStatus(tasks: seq<Task>, name: string): nat {
    if tasks == [] then 0
    else (if tasks[0].status == name then 1 else 0) + CountStatus(tasks[1..], name)
  }

  /** The tasks whose status is none of the three values. */
  function CountOutsideDomain(tasks: seq<Task>): nat {
    if tasks == [] then 0
    else (if InDomain(tasks[0].status) then 0 else 1) + CountOutsideDomain(tasks[1..])
  }

  /** Every task is counted under exactly one of the three statuses, or under none. */
  lemma {:induction false} StatusCountsPartition(tasks: seq<Task>)
    ensures CountStatus(tasks, "pending") + CountStatus(tasks, "in-progress") + CountStatus(tasks, "done")
            + CountOutsideDomain(tasks) == |tasks|
  {
    if tasks != [] {
      StatusCountsPartition(tasks[1..]);
    }
  }

  /** The `counts` memo. */
  datatype Counts = Counts(total: nat, pending: nat, inProgress: nat, done: nat)

  function TaskCounts(tasks: seq<Task>): (c: Counts)
    ensures c.total == |tasks|
    ensures c.pending == CountStatus(tasks, "pending")
    ensures c.inProgress == CountStatus(tasks, "in-progress")
    ensures c.done == CountStatus(tasks, "done")
    ensures c.pending + c.inProgress + c.done + CountOutsideDomain(tasks) == c.total
    ensures c.pending + c.inProgress + c.done <= c.total
  {
    StatusCountsPartition(tasks);
    Counts(|tasks|, CountStatus(tasks, "pending"), CountStatus(tasks, "in-progress"), CountStatus(tasks, "done"))
  }

  /** The number a status pill shows: `counts.pending`, `counts["in-progress"]` or `counts.done`. */
  function PillCount(c: Counts, s: Status): nat {
    match s
    case Pending => c.pending
    case InProgress => c.inProgress
    case Done => c.done
  }

  lemma {:induction false} NoneOutsideDomain(tasks: seq<Task>)
    requires forall i :: 0 <= i < |tasks| ==> InDomain(tasks[i].status)
    ensures CountOutsideDomain(tasks) == 0
  {
    if tasks != [] {
      NoneOutsideDomain(tasks[1..]);
    }
  }

  /** When every status is one of the three values, the three counts add up to the total. */
  lemma CountsAddUp(tasks: seq<Task>)
    requires forall i :: 0 <= i < |tasks| ==> InDomain(tasks[i].status)
    ensures var c := TaskCounts(tasks); c.pending + c.inProgress + c.done == c.total
  {
    NoneOutsideDomain(tasks);
  }

  /* ---------------- markDone (optimistic update) ---------------- */

  /** `t.id === id ? { ...t, status: "done" } : t`. */
  function MarkOne(t: Task, id: int): Task {
    if t.id == id then t.(status := "done") else t
  }

  /** `prev.map(...)`: the list after the optimistic update of `markDone(id)`. */
  function MarkDone(tasks: seq<Task>, id: int): (r: seq<Task>)
    ensures |r| == |tasks|
    ensures forall i :: 0 <= i < |tasks| ==> r[i].id == tasks[i].id
    ensures forall i :: 0 <= i < |tasks| && tasks[i].id == id ==> r[i] == tasks[i].(status := "done")
    ensures forall i :: 0 <= i < |tasks| && tasks[i].id != id ==> r[i] == tasks[i]
  {
    if tasks == [] then [] else [MarkOne(tasks[0], id)] + MarkDone(tasks[1..], id)
  }

  /** Marking the same task done twice changes nothing more. */
  lemma {:induction false} MarkDoneIdempotent(tasks: seq<Task>, id: int)
    ensures MarkDone(MarkDone(tasks, id), id) == MarkDone(tasks, id)
  {
    if tasks != [] {
      MarkDoneIdempotent(tasks[1..], id);
      assert MarkDone(tasks, id)[1..] == MarkDone(tasks[1..], id);
    }
  }

  /** The tasks with this id that were not yet done. */
  function CountNewlyDone(tasks: seq<Task>, id: int): nat {
    if tasks == [] then 0
    else (if tasks[0].id == id && tasks[0].status != "done" then 1 else 0) + CountNewlyDone(tasks[1..], id)
  }

  /**
   * After the update the "Done" pill counts the tasks with that id that were not done
   * before, on top of the old count; no other status count grows, and the total stays.
   */
  lemma {:induction false} MarkDoneCounts(tasks: seq<Task>, id: int, name: string)
    ensures TaskCounts(MarkDone(tasks, id)).total == TaskCounts(tasks).total
    ensures CountStatus(MarkDone(tasks, id), "done") == CountStatus(tasks, "done") + CountNewlyDone(tasks, id)
    ensures name != "done" ==> CountStatus(MarkDone(tasks, id), name) <= CountStatus(tasks, name)
  {
    if tasks != [] {
      MarkDoneCounts(tasks[1..], id, name);
      assert MarkDone(tasks, id)[1..] == MarkDone(tasks[1..], id);
    }
  }

  /* ---------------- edit form and save ---------------- */

  /** The modal's form fields, all strings as the inputs hold them. */
  datatype Form = Form(title: string, description: string, dueDate: string, status: string)

  /** The modal's state: `editingId`, `form` and `showModal`. */
  datatype Editor = Editor(editingId: Option<int>, form: Form, showModal: bool)

  /** `openNewTaskModal()`. */
  function OpenNewTaskModal(): (e: Editor)
    ensures e.showModal && e.editingId.None? && e.form.status == "pending"
    ensures e.form.title == "" && e.form.description == "" && e.form.dueDate == ""
  {
    Editor(None, Form("", "", "", "pending"), true)
  }

  /** `openEditModal(task)`: the form shows the task with null fields as empty strings. */
  function OpenEditModal(t: Task, engine: EngineParse): (e: Editor)
    ensures e.showModal && e.editingId == Some(t.id)
    ensures e.form.title == t.title
    ensures e.form.description == t.description.GetOr("")
    ensures e.form.status == (if t.status == "" then "pending" else t.status)
  {
    Editor(Some(t.id), Form(t.title, t.description.GetOr(""), IsoLocalKey(t.dueDate, engine).GetOr(""), if t.status == "" then "pending" else t.status), true)
  }

  /**
   * The form's due date is empty when the task's does not parse, and otherwise is the
   * key of the same local day; for the years 1000..9999 it is a `yyyy-mm-dd` string
   * that parses back to that very day, so saving the form unchanged keeps the due day.
   */
  lemma EditFormDueDate(t: Task, engine: EngineParse)
    ensures var f := OpenEditModal(t, engine).form;
      && (ParseDateSafe(t.dueDate, engine).None? <==> f.dueDate == "")
      && (ParseDateSafe(t.dueDate, engine).Some? && 1000 <= ParseDateSafe(t.dueDate, engine).value.y <= 9999 ==>
            IsYmdText(f.dueDate) && ParseDateSafe(Some(f.dueDate), engine) == ParseDateSafe(t.dueDate, engine))
  {
    var p := ParseDateSafe(t.dueDate, engine);
    if p.Some? {
      assert |FormatKey(p.value)| >= 6;
      if 1000 <= p.value.y <= 9999 {
        FormatKeyShape(p.value);
        ParseFormatKey(p.value, engine);
      }
    }
  }

  /** A stored `yyyy-mm-dd` date, or a timestamp whose date part is one, shows in the form as that date. */
  lemma EditFormKeepsStoredDate(t: Task, p: string, rest: string, engine: EngineParse)
    requires IsYmdText(p) && ValidDate(Captured(p)) && Captured(p).y >= 1000
    requires t.dueDate == Some(p) || t.dueDate == Some(p + "T" + rest)
    ensures OpenEditModal(t, engine).form.dueDate == p
  {
    KeyOfYmdText(p, engine);
    TimestampParsesAsDate(p, rest, engine);
  }

  /** What `saveTask` sends: nothing (the title alert), a POST of a new task, or a PUT of task `id`. */
  datatype SaveRequest = Rejected(message: string) | Create(body: Form) | Update(id: int, body: Form)

  /**
   * `saveTask()` up to the request: a blank title stops it; otherwise a truthy
   * `editingId` (present and not 0) makes it a PUT, anything else a POST.
   */
  function SaveTask(e: Editor): (r: SaveRequest)
    ensures r.Rejected? <==> forall i :: 0 <= i < |e.form.title| ==> IsJsWhitespace(e.form.title[i])
    ensures r.Rejected? ==> r.message == "Title is required"
    ensures r.Update? ==> e.editingId == Some(r.id) && r.id != 0 && r.body == e.form
    ensures r.Create? ==> (e.editingId.None? || e.editingId == Some(0)) && r.body == e.form
  {
    BlankIffAllWhitespace(e.form.title);
    if IsBlank(e.form.title) then Rejected("Title is required")
    else if e.editingId.Some? && e.editingId.value != 0 then Update(e.editingId.value, e.form)
    else Create(e.form)
  }

  /** Saving straight after opening the editor updates that very task with the shown fields. */
  lemma SaveAfterEdit(t: Task, engine: EngineParse)
    requires t.id != 0
    requires exists i :: 0 <= i < |t.title| && !IsJsWhitespace(t.title[i])
    ensures SaveTask(OpenEditModal(t, engine)) == Update(t.id, OpenEditModal(t, engine).form)
  {
  }

  /** The new-task form is refused until a title is typed. */
  lemma SaveNewTaskNeedsTitle()
    ensures SaveTask(OpenNewTaskModal()) == Rejected("Title is required")
  {
  }
}
