/** The task-row handlers of the Express server (src/Connection/Server.js):
    one row of tasks per user id, the month filter of `GET /api/tasks`, the
    add, delete, toggle-done and edit handlers, and the background sweep
    that pulls done tasks whose expiry has passed. Times are integer
    milliseconds passed in by the caller. */
module TaskServer {
  import opened Common
  import opened Text

  /** `setMinutes(getMinutes() + 10)`: how long a done task survives. */
  const DoneTtlMs: int := 600000

  /** A task sub-document; `expireDate` is `null` (None) or an instant. */
  datatype Task = Task(id: string, text: string, assignDate: string, assignTime: string, done: bool, expireDate: Option<int>)

  /** What a task handler answers. */
  datatype TaskReply =
    | Listed(message: string, tasks: seq<Task>)
    | Updated(task: Task)
    | Error(status: nat, error: string)

  /** `tasks.find(t => t.id === taskId)`, as an index. */
  function FindTask(tasks: seq<Task>, id: string): (r: Option<nat>)
    ensures r.Some? ==> r.value < |tasks| && tasks[r.value].id == id
    ensures r.Some? ==> forall j :: 0 <= j < r.value ==> tasks[j].id != id
    ensures r.None? ==> forall j :: 0 <= j < |tasks| ==> tasks[j].id != id
  {
    FirstIndex(tasks, (t: Task) => t.id == id)
  }

  function IdOf(t: Task): string
  {
    t.id
  }

  /** No two tasks of a list share an id. */
  ghost predicate NoDuplicateIds(tasks: seq<Task>)
  {
    DistinctBy(tasks, IdOf)
  }

  /** `tasks.some(t => t.id === id)`. */
  predicate HasId(tasks: seq<Task>, id: string)
  {
    exists i :: 0 <= i < |tasks| && tasks[i].id == id
  }

  /** `tasks.filter(t => t.id !== taskId)`. */
  function WithoutId(tasks: seq<Task>, id: string): (r: seq<Task>)
    ensures forall i :: 0 <= i < |r| ==> r[i] in tasks && r[i].id != id
    ensures forall i :: 0 <= i < |tasks| && tasks[i].id != id ==> tasks[i] in r
    ensures !HasId(r, id)
    ensures NoDuplicateIds(tasks) ==> NoDuplicateIds(r)
  {
    var keep := (t: Task) => t.id != id;
    FilterKeepsDistinct(tasks, keep, IdOf);
    Filter(tasks, keep)
  }

  // ---------------------------------------------------------------- the sweep

  /** The `$pull` condition `{ done: true, expiredate: { $lte: now } }`. */
  predicate Expired(t: Task, now: int)
  {
    t.done && t.expireDate.Some? && t.expireDate.value <= now
  }

  /** A task the sweep would drop at one instant it would drop at every later one. */
  lemma ExpiredStaysExpired(t: Task, now: int, later: int)
    requires now <= later
    ensures Expired(t, now) ==> Expired(t, later)
  {
  }

  /** One row after the sweep. */
  function SweepRow(tasks: seq<Task>, now: int): (r: seq<Task>)
    ensures |r| <= |tasks|
    ensures forall i :: 0 <= i < |r| ==> r[i] in tasks && !Expired(r[i], now)
    ensures forall i :: 0 <= i < |tasks| && !Expired(tasks[i], now) ==> tasks[i] in r
    ensures NoDuplicateIds(tasks) ==> NoDuplicateIds(r)
  {
    var keep := (t: Task) => !Expired(t, now);
    FilterKeepsDistinct(tasks, keep, IdOf);
    Filter(tasks, keep)
  }

  /** Removal acts piecewise, so the tasks that stay keep their relative order. */
  lemma WithoutIdKeepsOrder(a: seq<Task>, b: seq<Task>, id: string)
    ensures WithoutId(a + b, id) == WithoutId(a, id) + WithoutId(b, id)
  {
    FilterAppend(a, b, (t: Task) => t.id != id);
  }

  /** The sweep acts piecewise, so the survivors keep their relative order. */
  lemma SweepKeepsOrder(a: seq<Task>, b: seq<Task>, now: int)
    ensures SweepRow(a + b, now) == SweepRow(a, now) + SweepRow(b, now)
  {
    var keep := (t: Task) => !Expired(t, now);
    FilterAppend(a, b, keep);
  }

  /** A row without expired tasks is left exactly as it is; in particular a second sweep changes nothing. */
  lemma SweepIdempotent(tasks: seq<Task>, now: int)
    ensures SweepRow(SweepRow(tasks, now), now) == SweepRow(tasks, now)
    ensures (forall i :: 0 <= i < |tasks| ==> !Expired(tasks[i], now)) ==> SweepRow(tasks, now) == tasks
  {
    FilterKeepsAll(SweepRow(tasks, now), (t: Task) => !Expired(t, now));
    if forall i :: 0 <= i < |tasks| ==> !Expired(tasks[i], now) {
      FilterKeepsAll(tasks, (t: Task) => !Expired(t, now));
    }
  }

  // ---------------------------------------------------------------- toggle-done

  /** `task.done = !task.done` and the matching `expiredate` write. */
  function Toggle(t: Task, now: int): (r: Task)
    ensures r.done == !t.done
    ensures r.done <==> r.expireDate.Some?
    ensures r.done ==> r.expireDate == Some(now + DoneTtlMs)
    ensures r.(done := t.done, expireDate := t.expireDate) == t
  {
    if t.done then t.(done := false, expireDate := None)
    else t.(done := true, expireDate := Some(now + DoneTtlMs))
  }

  /** A task marked done at `markedAt` is swept exactly from ten minutes later on;
      a task marked not-done is never swept. */
  lemma ToggleThenSweep(t: Task, markedAt: int, now: int)
    ensures Expired(Toggle(t, markedAt), now) <==> !t.done && now >= markedAt + DoneTtlMs
  {
  }

  /** Toggling a fresh task twice gives it back. */
  lemma ToggleTwice(t: Task, first: int, second: int)
    requires !t.done && t.expireDate.None?
    ensures Toggle(Toggle(t, first), second) == t
  {
  }

  // ---------------------------------------------------------------- month filter

  /** `String(currentYear)` and `(getMonth() + 1).toString().padStart(2, '0')`. */
  function YearText(year: nat): string
  {
    NatToDecimal(year)
  }

  function MonthText(month: nat): string
  {
    PadStart2(NatToDecimal(month))
  }

  /** The `GET /api/tasks` month test: a non-empty date whose first two
      '-'-separated fields are the year and the two-digit month. */
  predicate InMonth(t: Task, year: string, month: string)
  {
    var parts := Split(t.assignDate, '-');
    t.assignDate != "" && parts[0] == year && |parts| >= 2 && parts[1] == month
  }

  function MonthTasks(tasks: seq<Task>, year: string, month: string): (r: seq<Task>)
    ensures forall i :: 0 <= i < |r| ==> r[i] in tasks && InMonth(r[i], year, month)
    ensures forall i :: 0 <= i < |tasks| && InMonth(tasks[i], year, month) ==> tasks[i] in r
  {
    Filter(tasks, (t: Task) => InMonth(t, year, month))
  }

  function TodayTasks(tasks: seq<Task>, today: string): (r: seq<Task>)
    ensures forall i :: 0 <= i < |r| ==> r[i] in tasks && r[i].assignDate == today
    ensures forall i :: 0 <= i < |tasks| && tasks[i].assignDate == today ==> tasks[i] in r
  {
    Filter(tasks, (t: Task) => t.assignDate == today)
  }

  /** On a `YYYY-MM-DD` key the month test compares exactly the year and month fields. */
  lemma InMonthCanonical(t: Task, y: string, m: string, d: string, year: string, month: string)
    requires AllDigits(y) && AllDigits(m) && AllDigits(d)
    requires t.assignDate == y + "-" + m + "-" + d
    ensures InMonth(t, year, month) <==> y == year && m == month
  {
    var parts := [y, m, d];
    assert forall i :: 0 <= i < 3 ==> AllDigits(parts[i]);
    forall i, k | 0 <= i < 3 && 0 <= k < |parts[i]| ensures parts[i][k] != '-' {
      assert IsDigit(parts[i][k]);
    }
    assert Join(parts, '-') == y + "-" + m + "-" + d by {
      assert parts[1..] == [m, d] && parts[1..][1..] == [d];
      assert Join([m, d], '-') == m + "-" + d;
    }
    SplitJoin(parts, '-');
  }

  // ---------------------------------------------------------------- the store

  class TaskStore {
    /** `TaskRow` documents: the task list of each user id. */
    var rows: map<string, seq<Task>>

    constructor ()
      ensures rows == map[]
    {
      rows := map[];
    }

    /** The user's row, as `findOne` followed by creation of an empty one. */
    function RowOf(userId: string): seq<Task>
      reads this
    {
      if userId in rows then rows[userId] else []
    }

    /** `GET /api/tasks/:userId`: creates the row if missing, persists the
        current-month filter, and answers the tasks assigned today. */
    method FetchTasks(userId: string, year: nat, month: nat, today: string) returns (reply: seq<Task>)
      modifies this
      ensures rows == old(rows)[userId := MonthTasks(old(RowOf(userId)), YearText(year), MonthText(month))]
      ensures reply == TodayTasks(rows[userId], today)
    {
      if userId !in rows {
        rows := rows[userId := []];
      }
      rows := rows[userId := MonthTasks(rows[userId], YearText(year), MonthText(month))];
      reply := TodayTasks(rows[userId], today);
    }

    /** `POST /api/add-task/:userId`: appends a well-formed task to the user's row, creating it if needed. */
    method AddTask(userId: string, task: Task) returns (reply: TaskReply)
      modifies this
      ensures task.id == "" || task.text == "" || task.assignDate == "" || task.assignTime == "" ==>
        reply == Error(400, "Invalid task payload") && rows == old(rows)
      ensures task.id != "" && task.text != "" && task.assignDate != "" && task.assignTime != "" ==>
        rows == old(rows)[userId := old(RowOf(userId)) + [task]] && reply == Listed("", rows[userId])
    {
      if task.id == "" || task.text == "" || task.assignDate == "" || task.assignTime == "" {
        return Error(400, "Invalid task payload");
      }
      rows := rows[userId := RowOf(userId) + [task]];
      reply := Listed("", rows[userId]);
    }

    /** `DELETE /api/delete-task/:userId/:taskId` (the first of the two registrations). */
    method DeleteTask(userId: string, taskId: string) returns (reply: TaskReply)
      modifies this
      ensures userId !in old(rows) ==> reply == Error(404, "User not found") && rows == old(rows)
      ensures userId in old(rows) ==>
        rows == old(rows)[userId := WithoutId(old(rows)[userId], taskId)] && reply == Listed("Task deleted", rows[userId])
    {
      if userId !in rows {
        return Error(404, "User not found");
      }
      rows := rows[userId := WithoutId(rows[userId], taskId)];
      reply := Listed("Task deleted", rows[userId]);
    }

    /** `PATCH /api/toggle-done/:userId/:taskId`: flips the first task with
        that id and sets or clears its expiry; the other tasks are untouched. */
    method ToggleDone(userId: string, taskId: string, now: int) returns (reply: TaskReply)
      modifies this
      ensures userId !in old(rows) ==> reply == Error(404, "User not found") && rows == old(rows)
      ensures userId in old(rows) && FindTask(old(rows)[userId], taskId).None? ==>
        reply == Error(404, "Task not found") && rows == old(rows)
      ensures userId in old(rows) && FindTask(old(rows)[userId], taskId).Some? ==>
        var i := FindTask(old(rows)[userId], taskId).value;
        && rows == old(rows)[userId := old(rows)[userId][i := Toggle(old(rows)[userId][i], now)]]
        && reply == Updated(rows[userId][i])
    {
      if userId !in rows {
        return Error(404, "User not found");
      }
      var found := FindTask(rows[userId], taskId);
      if found.None? {
        return Error(404, "Task not found");
      }
      var i := found.value;
      var row := rows[userId];
      rows := rows[userId := row[i := Toggle(row[i], now)]];
      reply := Updated(rows[userId][i]);
    }

    /** `PUT /api/edit-task/:userId/:taskId`: replaces the text of the first
        task with that id; nothing else of the row changes. */
    method EditTask(userId: string, taskId: string, text: string) returns (reply: TaskReply)
      modifies this
      ensures text == "" ==> reply == Error(400, "Task text required") && rows == old(rows)
      ensures text != "" && userId !in old(rows) ==> reply == Error(404, "User not found") && rows == old(rows)
      ensures text != "" && userId in old(rows) && FindTask(old(rows)[userId], taskId).None? ==>
        reply == Error(404, "Task not found") && rows == old(rows)
      ensures text != "" && userId in old(rows) && FindTask(old(rows)[userId], taskId).Some? ==>
        var i := FindTask(old(rows)[userId], taskId).value;
        && rows == old(rows)[userId := old(rows)[userId][i := old(rows)[userId][i].(text := text)]]
        && reply == Updated(rows[userId][i])
    {
      if text == "" {
        return Error(400, "Task text required");
      }
      if userId !in rows {
        return Error(404, "User not found");
      }
      var found := FindTask(rows[userId], taskId);
      if found.None? {
        return Error(404, "Task not found");
      }
      var i := found.value;
      var row := rows[userId];
      rows := rows[userId := row[i := row[i].(text := text)]];
      reply := Updated(rows[userId][i]);
    }

    /** The once-a-minute cleanup: `$pull` of every expired done task from every row. */
    method Sweep(now: int)
      modifies this
      ensures rows.Keys == old(rows).Keys
      ensures forall u :: u in rows ==> rows[u] == SweepRow(old(rows)[u], now)
    {
      rows := map u | u in rows :: SweepRow(rows[u], now);
    }
  }
}
