/** The calendar page (src/Pages/Calender/Calender.jsx): day keys for the
    rest of the month, the map from `YYYY-MM-DD` keys to the tasks of that
    day, its grouping on load, the once-a-second expiry filter, dropping a
    task onto a day, and deleting and toggling a task of a day. Clock
    readings are integer milliseconds passed in as `now`; `new Date(s)` is
    the parameter `parse`. */
module Calendar {
  import opened Common
  import opened Text
  import opened TaskServer
  import AssignedTasks

  /** `setHours(getHours() + 1)`: how long a task the calendar marks done stays visible. */
  const HourMs: int := 3600000

  // ---------------------------------------------------------------- day keys

  /** `pad(n)`: a leading '0' below ten. */
  function Pad(n: nat): (r: string)
    ensures AllDigits(r) && DecimalValue(r) == n
    ensures n < 100 ==> |r| == 2
  {
    assert Pow10(1) == 10 && Pow10(2) == 100;
    DecimalRoundTrip(n);
    if n < 10 then
      DecimalLength(n, 1);
      LeadingZero(NatToDecimal(n));
      "0" + NatToDecimal(n)
    else if n < 100 then
      DecimalLength(n, 2);
      NatToDecimal(n)
    else NatToDecimal(n)
  }

  /** `makeLocalKey(y, m0, d)`, with `m0` the zero-based month. */
  function MakeLocalKey(year: nat, month0: nat, day: nat): string
  {
    NatToDecimal(year) + "-" + Pad(month0 + 1) + "-" + Pad(day)
  }

  /** The test `/^\d{4}-\d{2}-\d{2}$/`. */
  predicate IsCanonicalKey(s: string)
  {
    |s| == 10 && AllDigits(s[..4]) && s[4] == '-' && AllDigits(s[5..7]) && s[7] == '-' && AllDigits(s[8..])
  }

  /** A key splits back into the year, the one-based month and the day. */
  lemma KeyReadsBack(year: nat, month0: nat, day: nat)
    ensures var parts := Split(MakeLocalKey(year, month0, day), '-');
      && |parts| == 3
      && AllDigits(parts[0]) && DecimalValue(parts[0]) == year
      && AllDigits(parts[1]) && DecimalValue(parts[1]) == month0 + 1
      && AllDigits(parts[2]) && DecimalValue(parts[2]) == day
  {
    var y := NatToDecimal(year);
    var m := Pad(month0 + 1);
    var d := Pad(day);
    var parts := [y, m, d];
    DecimalRoundTrip(year);
    forall i, k | 0 <= i < 3 && 0 <= k < |parts[i]| ensures parts[i][k] != '-' {
      assert IsDigit(parts[i][k]);
    }
    assert Join(parts, '-') == MakeLocalKey(year, month0, day) by {
      assert parts[1..] == [m, d] && parts[1..][1..] == [d];
      assert Join([m, d], '-') == m + "-" + d;
    }
    SplitJoin(parts, '-');
  }

  /** For a four-digit year, a real month and a day below 100 the key passes the canonical-key test. */
  lemma KeyIsCanonical(year: nat, month0: nat, day: nat)
    requires 1000 <= year < 10000 && month0 < 12 && day < 100
    ensures IsCanonicalKey(MakeLocalKey(year, month0, day))
  {
    var y := NatToDecimal(year);
    var m := Pad(month0 + 1);
    var d := Pad(day);
    assert Pow10(3) == 1000 && Pow10(4) == 10000;
    DecimalLength(year, 4);
    DashedIsCanonical(y, m, d);
  }

  /** Three digit fields of widths 4, 2 and 2 joined by dashes pass the test. */
  lemma DashedIsCanonical(y: string, m: string, d: string)
    requires |y| == 4 && |m| == 2 && |d| == 2
    requires AllDigits(y) && AllDigits(m) && AllDigits(d)
    ensures IsCanonicalKey(y + "-" + m + "-" + d)
  {
    var key := y + "-" + m + "-" + d;
    var rest := "-" + m + "-" + d;
    var tail := "-" + d;
    assert key == y + rest && rest == "-" + m + tail;
    assert key[..4] == y && key[4..] == rest;
    assert rest[1..3] == m && rest[3..] == tail;
    assert key[5..7] == m && key[7..] == tail;
    assert key[8..] == d;
  }

  /** `normalizeDateKey(s)`: empty and canonical keys pass through, a string
      `new Date` cannot read passes through, anything else is re-keyed. */
  datatype DateParts = DateParts(year: nat, month0: nat, day: nat)

  predicate ValidParts(p: DateParts)
  {
    1000 <= p.year < 10000 && p.month0 < 12 && 1 <= p.day <= 31
  }

  function NormalizeDateKey(s: string, parse: string -> Option<DateParts>): (r: string)
    ensures s == "" || IsCanonicalKey(s) ==> r == s
  {
    if s == "" || IsCanonicalKey(s) then s
    else match parse(s)
      case None => s
      case Some(p) => MakeLocalKey(p.year, p.month0, p.day)
  }

  /** Normalizing twice is normalizing once, when the date reader yields real dates. */
  lemma NormalizeIdempotent(s: string, parse: string -> Option<DateParts>)
    requires parse(s).Some? ==> ValidParts(parse(s).value)
    ensures NormalizeDateKey(NormalizeDateKey(s, parse), parse) == NormalizeDateKey(s, parse)
  {
    if s != "" && !IsCanonicalKey(s) && parse(s).Some? {
      var p := parse(s).value;
      KeyIsCanonical(p.year, p.month0, p.day);
    }
  }

  /** One cell of the `dates` array. */
  datatype DayCell = DayCell(day: nat, dateKey: string)

  /** `dates`: today and every later day of the month. */
  function Dates(year: nat, month0: nat, todayDate: nat, daysInMonth: nat): (r: seq<DayCell>)
    ensures |r| == if daysInMonth + 1 >= todayDate then daysInMonth + 1 - todayDate else 0
    ensures forall i :: 0 <= i < |r| ==> r[i] == DayCell(todayDate + i, MakeLocalKey(year, month0, todayDate + i))
  {
    var n := if daysInMonth + 1 >= todayDate then daysInMonth + 1 - todayDate else 0;
    seq(n, i requires 0 <= i < n => DayCell(todayDate + i, MakeLocalKey(year, month0, todayDate + i)))
  }

  /** Two-digit numerals compare as their values. */
  lemma TwoDigitOrder(a: string, b: string)
    requires |a| == 2 && |b| == 2 && AllDigits(a) && AllDigits(b)
    requires DecimalValue(a) < DecimalValue(b)
    ensures LexLess(a, b)
  {
    assert a[..1] == [a[0]] && a[..1][..0] == [];
    assert b[..1] == [b[0]] && b[..1][..0] == [];
    assert DecimalValue(a[..1]) == DigitValue(a[0]);
    assert DecimalValue(b[..1]) == DigitValue(b[0]);
    assert DecimalValue(a) == 10 * DigitValue(a[0]) + DigitValue(a[1]);
    assert DecimalValue(b) == 10 * DigitValue(b[0]) + DigitValue(b[1]);
    assert a[1..] == [a[1]] && b[1..] == [b[1]];
    assert a[1..][1..] == [] && b[1..][1..] == [];
  }

  /** The day keys are strictly increasing in string order, so sorting by
      key is sorting by day. */
  lemma DatesIncreasing(year: nat, month0: nat, todayDate: nat, daysInMonth: nat)
    requires daysInMonth <= 31
    ensures var r := Dates(year, month0, todayDate, daysInMonth);
      forall i, j :: 0 <= i < j < |r| ==> LexLess(r[i].dateKey, r[j].dateKey)
  {
    var r := Dates(year, month0, todayDate, daysInMonth);
    var prefix := NatToDecimal(year) + "-" + Pad(month0 + 1) + "-";
    forall i, j | 0 <= i < j < |r| ensures LexLess(r[i].dateKey, r[j].dateKey) {
      TwoDigitOrder(Pad(todayDate + i), Pad(todayDate + j));
      LexLessPrefix(prefix, Pad(todayDate + i), Pad(todayDate + j));
    }
  }

  // ---------------------------------------------------------------- grouping

  type DayMap = map<string, seq<Task>>

  /** The day a fetched task is filed under. */
  function DayOf(t: Task, parse: string -> Option<DateParts>): string
  {
    NormalizeDateKey(t.assignDate, parse)
  }

  /** The fetch's grouping, taking the tasks in input order. */
  function Grouped(s: seq<Task>, parse: string -> Option<DateParts>): (r: DayMap)
    ensures forall k :: k in r ==> r[k] != [] && forall i :: 0 <= i < |r[k]| ==> r[k][i].assignDate == k
  {
    if s == [] then map[] else FileTask(Grouped(s[..|s| - 1], parse), s[|s| - 1], parse)
  }

  /** One step of the grouping: `t`, relabelled, goes to the end of its day. */
  function FileTask(g: DayMap, t: Task, parse: string -> Option<DateParts>): DayMap
  {
    var k := DayOf(t, parse);
    g[k := (if k in g then g[k] else []) + [t.(assignDate := k)]]
  }

  /** Grouping one more task is one more filing step. */
  lemma GroupedStep(s: seq<Task>, i: nat, parse: string -> Option<DateParts>)
    requires i < |s|
    ensures Grouped(s[..i + 1], parse) == FileTask(Grouped(s[..i], parse), s[i], parse)
  {
    assert s[..i + 1][..i] == s[..i] && s[..i + 1][i] == s[i];
  }

  /** The day each task is filed under, as a function value. */
  function DayFn(parse: string -> Option<DateParts>): Task -> string
  {
    (t: Task) => DayOf(t, parse)
  }

  /** Reference definition: the tasks that `day` files under `key`,
      relabelled, in input order. */
  function OnDay(s: seq<Task>, key: string, day: Task -> string): (r: seq<Task>)
    ensures |r| <= |s|
    ensures forall i :: 0 <= i < |r| ==> r[i].assignDate == key
  {
    if s == [] then []
    else FiledAs(s[0], key, day) + OnDay(s[1..], key, day)
  }

  /** What one task contributes to day `key`: itself, relabelled, or nothing. */
  function FiledAs(t: Task, key: string, day: Task -> string): seq<Task>
  {
    if day(t) == key then [t.(assignDate := key)] else []
  }

  lemma {:induction false} OnDayAppend(s: seq<Task>, t: Task, key: string, day: Task -> string)
    ensures OnDay(s + [t], key, day) == OnDay(s, key, day) + FiledAs(t, key, day)
  {
    var u := s + [t];
    if s == [] {
      assert u == [t] && u[1..] == [];
    } else {
      assert u[0] == s[0] && u[1..] == s[1..] + [t];
      var first := FiledAs(s[0], key, day);
      var rest := OnDay(s[1..], key, day);
      var last := FiledAs(t, key, day);
      OnDayAppend(s[1..], t, key, day);
      assert OnDay(u[1..], key, day) == rest + last;
      assert OnDay(u, key, day) == first + (rest + last);
      assert OnDay(s, key, day) == first + rest;
      assert first + (rest + last) == (first + rest) + last;
    }
  }

  /** Every day of the grouping holds exactly the tasks filed under it, in
      input order and relabelled with the key; a day is present exactly
      when it holds a task. */
  lemma {:induction false} GroupedIsOnDay(s: seq<Task>, parse: string -> Option<DateParts>)
    ensures forall k :: k in Grouped(s, parse) <==> OnDay(s, k, DayFn(parse)) != []
    ensures forall k :: k in Grouped(s, parse) ==> Grouped(s, parse)[k] == OnDay(s, k, DayFn(parse))
  {
    if s != [] {
      var p := s[..|s| - 1];
      var t := s[|s| - 1];
      var day := DayFn(parse);
      assert s == p + [t];
      GroupedIsOnDay(p, parse);
      var g := Grouped(p, parse);
      assert Grouped(s, parse) == FileTask(g, t, parse);
      assert day(t) == DayOf(t, parse);
      forall k
        ensures k in Grouped(s, parse) <==> OnDay(s, k, day) != []
        ensures k in Grouped(s, parse) ==> Grouped(s, parse)[k] == OnDay(s, k, day)
      {
        OnDayAppend(p, t, k, day);
        if k == DayOf(t, parse) {
          assert Grouped(s, parse)[k] == (if k in g then g[k] else []) + FiledAs(t, k, day);
        } else {
          assert FiledAs(t, k, day) == [];
          assert OnDay(s, k, day) == OnDay(p, k, day);
        }
      }
    }
  }

  /** The keys a grouping files tasks under, each once, in order of first appearance. */
  function DayKeys(s: seq<Task>, parse: string -> Option<DateParts>): seq<string>
  {
    if s == [] then []
    else
      var ks := DayKeys(s[..|s| - 1], parse);
      var k := DayOf(s[|s| - 1], parse);
      if k in ks then ks else ks + [k]
  }

  /** Number of tasks a map holds under the keys `ks`. */
  function SumSizes(m: DayMap, ks: seq<string>): nat
  {
    if ks == [] then 0 else (if ks[0] in m then |m[ks[0]]| else 0) + SumSizes(m, ks[1..])
  }

  lemma {:induction false} SumSizesAppend(m: DayMap, ks: seq<string>, k: string)
    ensures SumSizes(m, ks + [k]) == SumSizes(m, ks) + (if k in m then |m[k]| else 0)
  {
    if ks == [] {
      assert ks + [k] == [k];
    } else {
      assert (ks + [k])[1..] == ks[1..] + [k];
      SumSizesAppend(m, ks[1..], k);
    }
  }

  lemma {:induction false} SumSizesUpdate(m: DayMap, ks: seq<string>, k: string, v: seq<Task>)
    requires forall i, j :: 0 <= i < j < |ks| ==> ks[i] != ks[j]
    ensures k !in ks ==> SumSizes(m[k := v], ks) == SumSizes(m, ks)
    ensures k in ks ==> SumSizes(m[k := v], ks) + (if k in m then |m[k]| else 0) == SumSizes(m, ks) + |v|
  {
    if ks != [] {
      assert forall i, j :: 0 <= i < j < |ks[1..]| ==> ks[1..][i] != ks[1..][j] by {
        forall i, j | 0 <= i < j < |ks[1..]| ensures ks[1..][i] != ks[1..][j] {
          assert ks[1..][i] == ks[i + 1] && ks[1..][j] == ks[j + 1];
        }
      }
      SumSizesUpdate(m, ks[1..], k, v);
      if ks[0] == k {
        assert k !in ks[1..] by {
          forall i | 0 <= i < |ks[1..]| ensures ks[1..][i] != k {
            assert ks[1..][i] == ks[i + 1];
          }
        }
      }
    }
  }

  /** Grouping neither loses nor duplicates a task: the days hold |s| tasks in all. */
  lemma {:induction false} GroupedCount(s: seq<Task>, parse: string -> Option<DateParts>)
    ensures var ks := DayKeys(s, parse);
      && (forall i, j :: 0 <= i < j < |ks| ==> ks[i] != ks[j])
      && (forall k :: k in Grouped(s, parse) <==> k in ks)
      && SumSizes(Grouped(s, parse), ks) == |s|
  {
    if s != [] {
      var p := s[..|s| - 1];
      var t := s[|s| - 1];
      var k := DayOf(t, parse);
      GroupedCount(p, parse);
      var g := Grouped(p, parse);
      var ks := DayKeys(p, parse);
      var v := (if k in g then g[k] else []) + [t.(assignDate := k)];
      SumSizesUpdate(g, ks, k, v);
      if k !in ks {
        SumSizesAppend(g[k := v], ks, k);
      }
    }
  }

  // ---------------------------------------------------------------- day updates

  /** The `handleToggleDone` updater on one task: done for an hour, or back to open. */
  function ToggleVisible(t: Task, now: int): (r: Task)
    ensures r.done == !t.done
    ensures r.done <==> r.expireDate.Some?
    ensures r.done ==> r.expireDate == Some(now + HourMs)
    ensures r.(done := t.done, expireDate := t.expireDate) == t
  {
    if !t.done then t.(done := true, expireDate := Some(now + HourMs))
    else t.(done := false, expireDate := None)
  }

  /** `(prev[date] || []).map(...)` of `handleToggleDone`. */
  function ToggleDay(tasks: seq<Task>, id: string, now: int): (r: seq<Task>)
    ensures |r| == |tasks|
    ensures forall i :: 0 <= i < |tasks| ==> r[i] == if tasks[i].id == id then ToggleVisible(tasks[i], now) else tasks[i]
    ensures forall i :: 0 <= i < |tasks| ==> r[i].id == tasks[i].id
  {
    MapWhere(tasks, (t: Task) => t.id == id, (t: Task) => ToggleVisible(t, now))
  }

  /** A task the calendar marks done disappears from view an hour later:
      the expiry filter drops it exactly from then on. */
  lemma ToggleThenExpire(t: Task, markedAt: int, now: int)
    ensures Expired(ToggleVisible(t, markedAt), now) <==> !t.done && now >= markedAt + HourMs
  {
  }

  /** No day holds two tasks with the same id. */
  ghost predicate IdsUniquePerDay(m: DayMap)
  {
    forall k :: k in m ==> NoDuplicateIds(m[k])
  }

  /** The two payloads a drop on the middle column can carry. */
  datatype DropPayload =
    | NoData
    | CalendarDrop(date: string)
    | TaskDrop(task: Task, fromDate: Option<string>)
    | Unrecognised

  /** `activeDate || fromDate` when that is truthy. */
  function TargetDate(activeDate: Option<string>, fromDate: Option<string>): (r: Option<string>)
    ensures r.Some? ==> r.value != "" && (r == activeDate || r == fromDate)
    ensures r.None? ==> (activeDate.None? || activeDate.value == "") && (fromDate.None? || fromDate.value == "")
  {
    if activeDate.Some? && activeDate.value != "" then activeDate
    else if fromDate.Some? && fromDate.value != "" then fromDate
    else None
  }

  /** The tasks of a day, `prev[date] || []`. */
  function DayList(m: DayMap, date: string): seq<Task>
  {
    if date in m then m[date] else []
  }

  // ---------------------------------------------------------------- the page

  class CalendarView {
    var tasks: DayMap
    var activeDate: Option<string>
    var newTask: string
    /** The root component's assigned tasks, changed through the callback the page receives. */
    var assignedTasks: seq<AssignedTasks.Record>
    /** `new Date(s)` read as local year, month and day; None when it is an invalid date. */
    const parse: string -> Option<DateParts>

    constructor (parse: string -> Option<DateParts>, assignedTasks: seq<AssignedTasks.Record>)
      ensures tasks == map[] && activeDate == None && newTask == ""
      ensures this.assignedTasks == assignedTasks && this.parse == parse
    {
      this.parse := parse;
      this.assignedTasks := assignedTasks;
      tasks := map[];
      activeDate := None;
      newTask := "";
    }

    /** `fetchTasks`: files every fetched task under its normalized day; a
        response without a task array leaves the map alone. */
    method LoadTasks(fetched: Option<seq<Task>>)
      modifies this`tasks
      ensures fetched.None? ==> tasks == old(tasks)
      ensures fetched.Some? ==> tasks == Grouped(fetched.value, parse)
    {
      if fetched.None? {
        return;
      }
      var s := fetched.value;
      var grouped: DayMap := map[];
      var i := 0;
      while i < |s|
        invariant 0 <= i <= |s|
        invariant grouped == Grouped(s[..i], parse)
      {
        GroupedStep(s, i, parse);
        var key := DayOf(s[i], parse);
        if key !in grouped {
          grouped := grouped[key := []];
        }
        grouped := grouped[key := grouped[key] + [s[i].(assignDate := key)]];
        i := i + 1;
      }
      assert s[..|s|] == s;
      tasks := grouped;
    }

    /** The once-a-second filter: every day keeps its key and loses exactly
        its done tasks whose expiry is not after `now`. */
    method ExpireTick(now: int)
      modifies this`tasks
      ensures tasks.Keys == old(tasks).Keys
      ensures forall k :: k in tasks ==> tasks[k] == SweepRow(old(tasks)[k], now)
      ensures IdsUniquePerDay(old(tasks)) ==> IdsUniquePerDay(tasks)
    {
      var updated: DayMap := map[];
      var pending := tasks.Keys;
      while pending != {}
        invariant pending <= tasks.Keys
        invariant updated.Keys == tasks.Keys - pending
        invariant forall k :: k in updated ==> updated[k] == SweepRow(tasks[k], now)
        invariant IdsUniquePerDay(tasks) ==> IdsUniquePerDay(updated)
        decreases |pending|
      {
        var k :| k in pending;
        updated := updated[k := SweepRow(tasks[k], now)];
        pending := pending - {k};
      }
      tasks := updated;
    }

    /** `handleMiddleDrop`: a dropped day becomes the active day (with an
        empty list if it has none); a dropped task is filed under the
        active day, else its own day, unless that day already holds its
        id, and is then removed from the assigned tasks. */
    method HandleMiddleDrop(payload: DropPayload)
      modifies this`tasks, this`activeDate, this`newTask, this`assignedTasks
      ensures payload.NoData? || payload.Unrecognised? ==>
        tasks == old(tasks) && activeDate == old(activeDate) && newTask == old(newTask) && assignedTasks == old(assignedTasks)
      ensures payload.CalendarDrop? ==>
        && activeDate == Some(payload.date) && newTask == "" && assignedTasks == old(assignedTasks)
        && tasks == (if payload.date in old(tasks) then old(tasks) else old(tasks)[payload.date := []])
      ensures payload.TaskDrop? && TargetDate(old(activeDate), payload.fromDate).None? ==>
        tasks == old(tasks) && activeDate == old(activeDate) && newTask == old(newTask) && assignedTasks == old(assignedTasks)
      ensures payload.TaskDrop? && TargetDate(old(activeDate), payload.fromDate).Some? ==>
        var date := TargetDate(old(activeDate), payload.fromDate).value;
        var list := DayList(old(tasks), date);
        var task := payload.task;
        && activeDate == old(activeDate) && newTask == old(newTask)
        && tasks == (if HasId(list, task.id) then old(tasks) else old(tasks)[date := list + [task.(assignDate := date)]])
        && assignedTasks == (if task.id != "" then AssignedTasks.RemoveAssigned(old(assignedTasks), AssignedTasks.Str(task.id)) else old(assignedTasks))
      ensures IdsUniquePerDay(old(tasks)) ==> IdsUniquePerDay(tasks)
    {
      match payload {
        case NoData =>
        case Unrecognised =>
        case CalendarDrop(date) =>
          activeDate := Some(date);
          if date !in tasks {
            tasks := tasks[date := []];
          }
          newTask := "";
        case TaskDrop(task, fromDate) =>
          var target := TargetDate(activeDate, fromDate);
          if target.None? {
            return;
          }
          var date := target.value;
          var list := DayList(tasks, date);
          if !HasId(list, task.id) {
            var added := list + [task.(assignDate := date)];
            assert NoDuplicateIds(list) ==> NoDuplicateIds(added) by {
              if NoDuplicateIds(list) {
                forall a, b | 0 <= a < b < |added| ensures IdOf(added[a]) != IdOf(added[b]) {
                  assert added[a] == list[a];
                }
              }
            }
            tasks := tasks[date := added];
          }
          if task.id != "" {
            assignedTasks := AssignedTasks.RemoveAssigned(assignedTasks, AssignedTasks.Str(task.id));
          }
      }
    }

    /** `handleDeleteTask(date, taskId)`: only after the request succeeds,
        and only in that day's list. */
    method HandleDeleteTask(date: string, taskId: string, requestOk: bool)
      modifies this`tasks
      ensures !requestOk ==> tasks == old(tasks)
      ensures requestOk ==> tasks == old(tasks)[date := WithoutId(DayList(old(tasks), date), taskId)]
      ensures IdsUniquePerDay(old(tasks)) ==> IdsUniquePerDay(tasks)
    {
      if requestOk {
        tasks := tasks[date := WithoutId(DayList(tasks, date), taskId)];
      }
    }

    /** `handleToggleDone(date, taskId)` at time `now`. */
    method HandleToggleDone(date: string, taskId: string, now: int)
      modifies this`tasks
      ensures tasks == old(tasks)[date := ToggleDay(DayList(old(tasks), date), taskId, now)]
      ensures IdsUniquePerDay(old(tasks)) ==> IdsUniquePerDay(tasks)
    {
      var updated := ToggleDay(DayList(tasks, date), taskId, now);
      tasks := tasks[date := updated];
    }
  }
}
