/** The assigned-task list kept by the root component (src/App.js) and
    updated through `addAssignedTask`, `removeAssignedTask` and
    `updateAssignedTask`. A task object is a map from field names to
    values, so `{ ...t, ...u }` is map union with `u` winning, and a
    missing field is a missing key. */
module AssignedTasks {
  import opened Common

  /** The JSON values a task field can hold. */
  datatype Value = Null | Str(s: string) | Num(n: int) | Bool(b: bool)

  type Record = map<string, Value>

  /** `t.id`; None is `undefined`. */
  function IdOf(t: Record): Option<Value>
  {
    if "id" in t then Some(t["id"]) else None
  }

  /** JavaScript truthiness of a field. */
  predicate Truthy(v: Option<Value>)
  {
    match v
    case None => false
    case Some(Null) => false
    case Some(Str(s)) => s != ""
    case Some(Num(n)) => n != 0
    case Some(Bool(b)) => b
  }

  /** `list.find(t => t.id === id)` finds something. */
  predicate HasId(list: seq<Record>, id: Option<Value>)
  {
    exists i :: 0 <= i < |list| && IdOf(list[i]) == id
  }

  /** No two entries share an id. */
  ghost predicate DistinctIds(list: seq<Record>)
  {
    DistinctBy(list, IdOf)
  }

  /** The `addAssignedTask(task, originalDate)` updater; `task` None is a null or missing task. */
  function AddAssigned(list: seq<Record>, task: Option<Record>, originalDate: Value): (r: seq<Record>)
    ensures task.None? || !Truthy(IdOf(task.value)) || HasId(list, IdOf(task.value)) ==> r == list
    ensures task.Some? && Truthy(IdOf(task.value)) && !HasId(list, IdOf(task.value)) ==>
      r == list + [task.value["originalDate" := originalDate]]
    ensures DistinctIds(list) ==> DistinctIds(r)
  {
    if task.None? || !Truthy(IdOf(task.value)) || HasId(list, IdOf(task.value)) then list
    else
      var r := list + [task.value["originalDate" := originalDate]];
      assert IdOf(r[|list|]) == IdOf(task.value);
      assert forall i :: 0 <= i < |list| ==> r[i] == list[i];
      r
  }

  /** The `removeAssignedTask(taskId)` updater. */
  function RemoveAssigned(list: seq<Record>, id: Value): (r: seq<Record>)
    ensures forall i :: 0 <= i < |r| ==> r[i] in list && IdOf(r[i]) != Some(id)
    ensures forall i :: 0 <= i < |list| && IdOf(list[i]) != Some(id) ==> list[i] in r
    ensures DistinctIds(list) ==> DistinctIds(r)
    ensures !HasId(list, Some(id)) ==> r == list
  {
    var keep := (t: Record) => IdOf(t) != Some(id);
    FilterKeepsDistinct(list, keep, IdOf);
    FilterKeepsAll(list, keep);
    Filter(list, keep)
  }

  /** Removal acts piecewise: the entries that stay keep their relative order. */
  lemma {:induction false} RemoveKeepsOrder(a: seq<Record>, b: seq<Record>, id: Value)
    ensures RemoveAssigned(a + b, id) == RemoveAssigned(a, id) + RemoveAssigned(b, id)
  {
    if a == [] {
      assert a + b == b;
    } else {
      assert (a + b)[0] == a[0];
      assert (a + b)[1..] == a[1..] + b;
      RemoveKeepsOrder(a[1..], b, id);
    }
  }

  /** Adding a new task and then removing its id gives the list back. */
  lemma AddThenRemove(list: seq<Record>, task: Record, id: Value, originalDate: Value)
    requires IdOf(task) == Some(id) && Truthy(Some(id)) && !HasId(list, Some(id))
    ensures RemoveAssigned(AddAssigned(list, Some(task), originalDate), id) == list
  {
    var added := task["originalDate" := originalDate];
    RemoveKeepsOrder(list, [added], id);
    assert IdOf(added) == Some(id);
    assert RemoveAssigned([added], id) == [] by {
      assert RemoveAssigned([added], id) == (if IdOf(added) != Some(id) then [added] else []) + RemoveAssigned([], id);
    }
  }

  /** The `updateAssignedTask(updatedTask)` updater: fields of `update` win
      in every entry with its id. */
  function UpdateAssigned(list: seq<Record>, update: Option<Record>): (r: seq<Record>)
    ensures |r| == |list|
    ensures update.None? || !Truthy(IdOf(update.value)) ==> r == list
    ensures update.Some? && Truthy(IdOf(update.value)) ==>
      forall i :: 0 <= i < |list| ==>
        r[i] == if IdOf(list[i]) == IdOf(update.value) then list[i] + update.value else list[i]
    ensures forall i :: 0 <= i < |list| ==> IdOf(r[i]) == IdOf(list[i])
    ensures DistinctIds(list) ==> DistinctIds(r)
  {
    if update.None? || !Truthy(IdOf(update.value)) then list
    else
      var u := update.value;
      MapWhere(list, (t: Record) => IdOf(t) == IdOf(u), (t: Record) => t + u)
  }
}
