/** The task panel of one list (src/Dashboard/ListContainer/ListContainer.jsx):
    adding and editing tasks, the two-step delete, the optimistic done
    toggle with rollback, and the per-task countdown timer with its
    one-second tick and `MM:SS` rendering. `Date.now()` is the parameter
    `now` (milliseconds); server requests whose failure the panel ignores
    are not part of this state. */
module Panel {
  import opened Common
  import opened Text

  const MsPerMinute: int := 60000

  /** A task as the panel holds it; `lastStartedAt` is `null` (None) or an instant. */
  datatype PanelTask = PanelTask(
    id: string, text: string, done: bool, assignDate: string, assignTime: string,
    expireDate: Option<int>, assignedTo: string, timerMs: int,
    isRunning: bool, lastStartedAt: Option<int>, confirmDelete: bool)

  /** The edit form. The source's `{}` draft reads back as `EmptyDraft`
      through its `|| ""` and `|| 0` defaults. */
  datatype Draft = Draft(text: string, timerMs: int, assignedTo: string)

  const EmptyDraft: Draft := Draft("", 0, "")

  /** `Math.max(0, x)`. */
  function Max0(x: int): (r: int)
    ensures r >= 0 && r >= x && (r == x || r == 0)
  {
    if x < 0 then 0 else x
  }

  /** `t.lastStartedAt` when it is truthy: set, and not the instant 0. */
  function StartedAt(t: PanelTask): (r: Option<int>)
    ensures r.Some? <==> t.lastStartedAt.Some? && t.lastStartedAt.value != 0
    ensures r.Some? ==> r == t.lastStartedAt
  {
    if t.lastStartedAt.Some? && t.lastStartedAt.value != 0 then t.lastStartedAt else None
  }

  /** `getDisplayMs(t)`: remaining milliseconds at `now`. */
  function DisplayMs(t: PanelTask, now: int): (r: int)
    ensures t.isRunning && StartedAt(t).Some? ==> r >= 0
    ensures t.isRunning && StartedAt(t).Some? && now >= StartedAt(t).value ==> r <= Max0(t.timerMs)
    ensures t.isRunning && StartedAt(t).Some? ==> r == Max0(t.timerMs - (now - StartedAt(t).value))
    ensures !(t.isRunning && StartedAt(t).Some?) ==> r == t.timerMs
  {
    if t.isRunning && StartedAt(t).Some? then Max0(t.timerMs - (now - StartedAt(t).value))
    else t.timerMs
  }

  // ---------------------------------------------------------------- MM:SS

  /** `formatTime(ms)`. */
  function FormatTime(ms: int): (r: string)
    ensures |r| >= 5 && r[|r| - 3] == ':'
  {
    var total := Max0(ms / 1000);
    var m := PadStart2(NatToDecimal(total / 60));
    var s := PadStart2(NatToDecimal(total % 60));
    PaddedDecimal(total % 60);
    assert |s| == 2;
    m + ":" + s
  }

  /** `n.toString().padStart(2, "0")` still denotes `n`, and has two characters below 100. */
  lemma PaddedDecimal(n: nat)
    ensures AllDigits(PadStart2(NatToDecimal(n))) && DecimalValue(PadStart2(NatToDecimal(n))) == n
    ensures |PadStart2(NatToDecimal(n))| >= 2
    ensures n < 100 ==> |PadStart2(NatToDecimal(n))| == 2
  {
    var d := NatToDecimal(n);
    DecimalRoundTrip(n);
    if |d| == 1 {
      LeadingZero(d);
    }
    if n < 100 {
      if n < 10 {
        DecimalLength(n, 1);
      } else {
        DecimalLength(n, 2);
      }
    }
  }

  /** Reading the clock face back: two ':'-separated digit fields, seconds in
      00..59 with two digits, and minutes * 60 + seconds is the whole number
      of seconds left, clamped at 0. */
  lemma FormatTimeReadsBack(ms: int)
    ensures var parts := Split(FormatTime(ms), ':');
      && |parts| == 2
      && AllDigits(parts[0]) && AllDigits(parts[1])
      && |parts[0]| >= 2 && |parts[1]| == 2
      && DecimalValue(parts[1]) < 60
      && DecimalValue(parts[0]) * 60 + DecimalValue(parts[1]) == Max0(ms / 1000)
  {
    var total := Max0(ms / 1000);
    var m := PadStart2(NatToDecimal(total / 60));
    var s := PadStart2(NatToDecimal(total % 60));
    PaddedDecimal(total / 60);
    PaddedDecimal(total % 60);
    forall k | 0 <= k < |m| ensures m[k] != ':' {
      assert IsDigit(m[k]);
    }
    forall k | 0 <= k < |s| ensures s[k] != ':' {
      assert IsDigit(s[k]);
    }
    assert Join([m, s], ':') == FormatTime(ms) by {
      assert [m, s][1..] == [s];
    }
    SplitJoin([m, s], ':');
  }

  // ---------------------------------------------------------------- timer updaters

  /** The `toggleTimer` updater on the task it targets: no-op on an unset
      idle timer, pause (keep the remaining time) or start. */
  function ToggleTimerOne(t: PanelTask, now: int): (r: PanelTask)
    ensures r.(timerMs := t.timerMs, isRunning := t.isRunning, lastStartedAt := t.lastStartedAt) == t
    ensures t.timerMs <= 0 && !t.isRunning ==> r == t
    ensures t.isRunning ==> !r.isRunning && r.lastStartedAt.None?
    ensures !t.isRunning && t.timerMs > 0 ==> r.isRunning && r.lastStartedAt == Some(now) && r.timerMs == t.timerMs
    ensures t.timerMs >= 0 ==> r.timerMs >= 0
  {
    var cur := t.timerMs;
    if cur <= 0 && !t.isRunning then t
    else if t.isRunning then
      var elapsed := now - (if StartedAt(t).Some? then StartedAt(t).value else now);
      t.(isRunning := false, lastStartedAt := None, timerMs := Max0(cur - elapsed))
    else t.(isRunning := true, lastStartedAt := Some(now))
  }

  /** The one-second tick on one task: a running timer with nothing left is stopped at 0. */
  function TickOne(t: PanelTask, now: int): (r: PanelTask)
    ensures r == t || r == t.(isRunning := false, lastStartedAt := None, timerMs := 0)
    ensures r != t ==> t.isRunning && StartedAt(t).Some?
    ensures t.isRunning && StartedAt(t).Some? ==> (r.isRunning <==> DisplayMs(t, now) > 0)
    ensures t.timerMs >= 0 ==> r.timerMs >= 0
  {
    if t.isRunning && StartedAt(t).Some? then
      var remaining := Max0(t.timerMs - (now - StartedAt(t).value));
      if remaining <= 0 then t.(isRunning := false, lastStartedAt := None, timerMs := 0) else t
    else t
  }

  /** Pausing, starting and ticking never change what the clock shows at
      that instant: pausing freezes the remaining time, starting begins
      from the stored time, and the tick only stops timers showing 0. */
  lemma TimerKeepsDisplay(t: PanelTask, now: int)
    requires t.timerMs >= 0
    ensures DisplayMs(ToggleTimerOne(t, now), now) == DisplayMs(t, now)
    ensures DisplayMs(TickOne(t, now), now) == DisplayMs(t, now)
  {
    if t.isRunning && StartedAt(t).None? {
      assert ToggleTimerOne(t, now).timerMs == Max0(t.timerMs);
    }
  }

  // ---------------------------------------------------------------- list updaters

  ghost predicate NonNegativeTimers(tasks: seq<PanelTask>)
  {
    forall i :: 0 <= i < |tasks| ==> tasks[i].timerMs >= 0
  }

  /** `tasks.find(t => t.id === id)`, as an index. */
  function FindPanelTask(tasks: seq<PanelTask>, id: string): (r: Option<nat>)
    ensures r.Some? ==> r.value < |tasks| && tasks[r.value].id == id
    ensures r.Some? ==> forall j :: 0 <= j < r.value ==> tasks[j].id != id
    ensures r.None? ==> forall j :: 0 <= j < |tasks| ==> tasks[j].id != id
  {
    FirstIndex(tasks, (t: PanelTask) => t.id == id)
  }

  /** The `toggleTimer(id)` updater. */
  function ToggleTimerIn(tasks: seq<PanelTask>, id: string, now: int): (r: seq<PanelTask>)
    ensures |r| == |tasks|
    ensures forall i :: 0 <= i < |tasks| ==> r[i] == if tasks[i].id == id then ToggleTimerOne(tasks[i], now) else tasks[i]
  {
    MapWhere(tasks, (t: PanelTask) => t.id == id, (t: PanelTask) => ToggleTimerOne(t, now))
  }

  /** The tick's updater over every task. */
  function TickAll(tasks: seq<PanelTask>, now: int): (r: seq<PanelTask>)
    ensures |r| == |tasks|
    ensures forall i :: 0 <= i < |tasks| ==> r[i] == TickOne(tasks[i], now)
  {
    seq(|tasks|, i requires 0 <= i < |tasks| => TickOne(tasks[i], now))
  }

  /** `prev.map(t => t.id === id ? { ...t, done: !t.done } : t)`. */
  function FlipDoneIn(tasks: seq<PanelTask>, id: string): (r: seq<PanelTask>)
    ensures |r| == |tasks|
    ensures forall i :: 0 <= i < |tasks| ==> r[i] == if tasks[i].id == id then tasks[i].(done := !tasks[i].done) else tasks[i]
  {
    MapWhere(tasks, (t: PanelTask) => t.id == id, (t: PanelTask) => t.(done := !t.done))
  }

  /** `prev.map(x => x.id === id ? { ...x, confirmDelete: value } : x)`. */
  function SetConfirm(tasks: seq<PanelTask>, id: string, value: bool): (r: seq<PanelTask>)
    ensures |r| == |tasks|
    ensures forall i :: 0 <= i < |tasks| ==> r[i] == if tasks[i].id == id then tasks[i].(confirmDelete := value) else tasks[i]
  {
    MapWhere(tasks, (t: PanelTask) => t.id == id, (t: PanelTask) => t.(confirmDelete := value))
  }

  /** The `saveEditTask` updater: text, timer and assignee of the edited task. */
  function ApplyEdit(tasks: seq<PanelTask>, id: string, text: string, timerMs: int, assignedTo: string): (r: seq<PanelTask>)
    ensures |r| == |tasks|
    ensures forall i :: 0 <= i < |tasks| ==>
      r[i] == if tasks[i].id == id then tasks[i].(text := text, timerMs := timerMs, assignedTo := assignedTo) else tasks[i]
  {
    MapWhere(tasks, (t: PanelTask) => t.id == id, (t: PanelTask) => t.(text := text, timerMs := timerMs, assignedTo := assignedTo))
  }

  /** `prev.filter(x => x.id !== id)`. */
  function WithoutTask(tasks: seq<PanelTask>, id: string): (r: seq<PanelTask>)
    ensures forall i :: 0 <= i < |r| ==> r[i] in tasks && r[i].id != id
    ensures forall i :: 0 <= i < |tasks| && tasks[i].id != id ==> tasks[i] in r
  {
    Filter(tasks, (t: PanelTask) => t.id != id)
  }

  /** Removal acts piecewise, so the tasks that stay keep their relative order. */
  lemma WithoutTaskKeepsOrder(a: seq<PanelTask>, b: seq<PanelTask>, id: string)
    ensures WithoutTask(a + b, id) == WithoutTask(a, id) + WithoutTask(b, id)
  {
    FilterAppend(a, b, (t: PanelTask) => t.id != id);
  }

  /** The task list after one `handleDeleteTask(id)`: the first press arms
      the confirmation, the second removes every task with the id. */
  function DeleteStep(tasks: seq<PanelTask>, id: string): (r: seq<PanelTask>)
    ensures FindPanelTask(tasks, id).None? ==> r == tasks
    ensures FindPanelTask(tasks, id).Some? && !tasks[FindPanelTask(tasks, id).value].confirmDelete ==>
      && |r| == |tasks|
      && forall i :: 0 <= i < |tasks| ==> r[i].id == tasks[i].id && (r[i].confirmDelete <==> tasks[i].confirmDelete || tasks[i].id == id)
    ensures FindPanelTask(tasks, id).Some? && tasks[FindPanelTask(tasks, id).value].confirmDelete ==>
      && (forall i :: 0 <= i < |r| ==> r[i] in tasks && r[i].id != id)
      && (forall i :: 0 <= i < |tasks| && tasks[i].id != id ==> tasks[i] in r)
  {
    match FindPanelTask(tasks, id)
    case None => tasks
    case Some(i) => if !tasks[i].confirmDelete then SetConfirm(tasks, id, true) else WithoutTask(tasks, id)
  }

  /** The rollback undoes the optimistic flip. */
  lemma RollbackRestores(tasks: seq<PanelTask>, id: string)
    ensures FlipDoneIn(FlipDoneIn(tasks, id), id) == tasks
  {
    var r := FlipDoneIn(FlipDoneIn(tasks, id), id);
    assert forall i :: 0 <= i < |tasks| ==> r[i] == tasks[i];
  }

  /** Arming the confirmation does not change which tasks a later removal keeps. */
  lemma {:induction false} RemovalIgnoresConfirm(tasks: seq<PanelTask>, id: string, value: bool)
    ensures WithoutTask(SetConfirm(tasks, id, value), id) == WithoutTask(tasks, id)
  {
    if tasks != [] {
      var c := SetConfirm(tasks, id, value);
      assert c[1..] == SetConfirm(tasks[1..], id, value);
      RemovalIgnoresConfirm(tasks[1..], id, value);
    }
  }

  /** Two presses of delete on an unarmed task remove exactly the tasks with
      that id, and every other task keeps its place in the order. */
  lemma DeleteTakesTwoPresses(tasks: seq<PanelTask>, id: string)
    requires FindPanelTask(tasks, id).Some? && !tasks[FindPanelTask(tasks, id).value].confirmDelete
    ensures DeleteStep(tasks, id) == SetConfirm(tasks, id, true)
    ensures DeleteStep(DeleteStep(tasks, id), id) == WithoutTask(tasks, id)
  {
    var armed := SetConfirm(tasks, id, true);
    var i := FindPanelTask(tasks, id).value;
    assert FindPanelTask(armed, id) == Some(i) by {
      assert armed[i].id == id;
      assert forall j :: 0 <= j < i ==> armed[j] == tasks[j];
    }
    RemovalIgnoresConfirm(tasks, id, true);
  }

  // ---------------------------------------------------------------- the panel

  class TaskPanel {
    var tasks: seq<PanelTask>
    /** The add form: text, minutes and assignee. */
    var task: string
    var taskMinutes: int
    var taskAssignee: string
    var showTaskForm: bool
    /** The task being edited (`null` is None) and the edit form. */
    var editingTaskId: Option<string>
    var editDraft: Draft

    constructor (initial: seq<PanelTask>)
      ensures tasks == initial && task == "" && taskMinutes == 0 && taskAssignee == ""
      ensures !showTaskForm && editingTaskId == None && editDraft == EmptyDraft
    {
      tasks := initial;
      task := "";
      taskMinutes := 0;
      taskAssignee := "";
      showTaskForm := false;
      editingTaskId := None;
      editDraft := EmptyDraft;
    }

    /** `handleAddTask`: `newId`, `date` and `time` are what `generateId`
        and `nowDateTime` return. */
    method AddTask(newId: string, date: string, time: string)
      modifies this`tasks, this`task, this`taskMinutes, this`taskAssignee, this`showTaskForm
      ensures Trim(old(task)) == "" ==>
        tasks == old(tasks) && task == old(task) && taskMinutes == old(taskMinutes)
        && taskAssignee == old(taskAssignee) && showTaskForm == old(showTaskForm)
      ensures Trim(old(task)) != "" ==>
        && tasks == [PanelTask(newId, Trim(old(task)), false, date, time, None, old(taskAssignee),
                               Max0(old(taskMinutes) * MsPerMinute), false, None, false)] + old(tasks)
        && task == "" && taskMinutes == 0 && taskAssignee == "" && !showTaskForm
      ensures NonNegativeTimers(old(tasks)) ==> NonNegativeTimers(tasks)
    {
      var trimmed := Trim(task);
      if trimmed == "" {
        return;
      }
      var timerMs := Max0(taskMinutes * MsPerMinute);
      var added := PanelTask(newId, trimmed, false, date, time, None, taskAssignee, timerMs, false, None, false);
      tasks := [added] + tasks;
      task := "";
      taskMinutes := 0;
      taskAssignee := "";
      showTaskForm := false;
    }

    /** `startEditTask(id)`: loads the first task with the id into the form. */
    method StartEdit(id: string)
      modifies this`editingTaskId, this`editDraft
      ensures FindPanelTask(tasks, id).None? ==> editingTaskId == old(editingTaskId) && editDraft == old(editDraft)
      ensures FindPanelTask(tasks, id).Some? ==>
        var t := tasks[FindPanelTask(tasks, id).value];
        editingTaskId == Some(id) && editDraft == Draft(t.text, t.timerMs, t.assignedTo)
    {
      var found := FindPanelTask(tasks, id);
      if found.None? {
        return;
      }
      var t := tasks[found.value];
      editDraft := Draft(t.text, t.timerMs, t.assignedTo);
      editingTaskId := Some(id);
    }

    /** `saveEditTask`: writes the trimmed text, timer and assignee into
        every task with the edited id and leaves edit mode. */
    method SaveEdit()
      modifies this`tasks, this`editingTaskId, this`editDraft
      ensures old(editingTaskId).None? || old(editingTaskId).value == "" || Trim(old(editDraft).text) == "" ==>
        tasks == old(tasks) && editingTaskId == old(editingTaskId) && editDraft == old(editDraft)
      ensures old(editingTaskId).Some? && old(editingTaskId).value != "" && Trim(old(editDraft).text) != "" ==>
        && tasks == ApplyEdit(old(tasks), old(editingTaskId).value, Trim(old(editDraft).text), old(editDraft).timerMs, old(editDraft).assignedTo)
        && editingTaskId == None && editDraft == EmptyDraft
      ensures NonNegativeTimers(old(tasks)) && old(editDraft).timerMs >= 0 ==> NonNegativeTimers(tasks)
    {
      if editingTaskId.None? || editingTaskId.value == "" {
        return;
      }
      var updatedText := Trim(editDraft.text);
      if updatedText == "" {
        return;
      }
      tasks := ApplyEdit(tasks, editingTaskId.value, updatedText, editDraft.timerMs, editDraft.assignedTo);
      editingTaskId := None;
      editDraft := EmptyDraft;
    }

    /** `cancelEdit`. */
    method CancelEdit()
      modifies this`editingTaskId, this`editDraft
      ensures editingTaskId == None && editDraft == EmptyDraft
    {
      editingTaskId := None;
      editDraft := EmptyDraft;
    }

    /** `handleDeleteTask(id)`. */
    method DeleteTask(id: string)
      modifies this`tasks
      ensures tasks == DeleteStep(old(tasks), id)
      ensures NonNegativeTimers(old(tasks)) ==> NonNegativeTimers(tasks)
    {
      var found := FindPanelTask(tasks, id);
      if found.None? {
        return;
      }
      if !tasks[found.value].confirmDelete {
        tasks := SetConfirm(tasks, id, true);
      } else {
        tasks := WithoutTask(tasks, id);
      }
    }

    /** The five-second timeout after an armed delete, as an explicit event. */
    method ClearConfirm(id: string)
      modifies this`tasks
      ensures tasks == SetConfirm(old(tasks), id, false)
    {
      tasks := SetConfirm(tasks, id, false);
    }

    /** `markAsDone(id)`: optimistic flip, flipped back when the request fails. */
    method MarkAsDone(id: string, requestOk: bool)
      modifies this`tasks
      ensures requestOk ==> tasks == FlipDoneIn(old(tasks), id)
      ensures !requestOk ==> tasks == old(tasks)
    {
      tasks := FlipDoneIn(tasks, id);
      if !requestOk {
        RollbackRestores(old(tasks), id);
        tasks := FlipDoneIn(tasks, id);
      }
    }

    /** `toggleTimer(id)` at time `now`. */
    method ToggleTimer(id: string, now: int)
      modifies this`tasks
      ensures tasks == ToggleTimerIn(old(tasks), id, now)
      ensures NonNegativeTimers(old(tasks)) ==> NonNegativeTimers(tasks)
      ensures NonNegativeTimers(old(tasks)) ==> forall i :: 0 <= i < |tasks| ==> DisplayMs(tasks[i], now) == DisplayMs(old(tasks)[i], now)
    {
      if NonNegativeTimers(tasks) {
        forall i | 0 <= i < |tasks| {
          TimerKeepsDisplay(tasks[i], now);
        }
      }
      tasks := ToggleTimerIn(tasks, id, now);
    }

    /** The one-second interval at time `now`. */
    method Tick(now: int)
      modifies this`tasks
      ensures tasks == TickAll(old(tasks), now)
      ensures NonNegativeTimers(old(tasks)) ==> NonNegativeTimers(tasks)
      ensures NonNegativeTimers(old(tasks)) ==> forall i :: 0 <= i < |tasks| ==> DisplayMs(tasks[i], now) == DisplayMs(old(tasks)[i], now)
    {
      if NonNegativeTimers(tasks) {
        forall i | 0 <= i < |tasks| {
          TimerKeepsDisplay(tasks[i], now);
        }
      }
      tasks := TickAll(tasks, now);
    }
  }
}
