/** The named task lists of the dashboard (src/Dashboard/CretaeList/List.jsx):
    creating and renaming lists under case-insensitive unique names,
    deleting one by index, moving a task between lists without duplicating
    it, and filling the first list, "Today", from the server. */
module Lists {
  import opened Common
  import opened Text
  import opened TaskServer

  datatype NamedList = NamedList(name: string, tasks: seq<Task>)

  const TodayName: string := "Today"
  const EmptyNameError: string := "\U{26A0}\U{FE0F} List name cannot be empty"
  const DuplicateNameError: string := "\U{26A0}\U{FE0F} This list already exists!"

  /** `lists.some((l, idx) => l.name.toLowerCase() === name.toLowerCase() && idx !== skip)`. */
  predicate NameTaken(lists: seq<NamedList>, name: string, skip: Option<nat>)
  {
    exists i :: 0 <= i < |lists| && skip != Some(i) && SameIgnoringCase(lists[i].name, name)
  }

  /** No two lists have names that differ only in letter case. */
  ghost predicate NamesDistinct(lists: seq<NamedList>)
  {
    forall i, j :: 0 <= i < j < |lists| ==> !SameIgnoringCase(lists[i].name, lists[j].name)
  }

  /** No list holds two tasks with the same id. */
  ghost predicate IdsUniquePerList(lists: seq<NamedList>)
  {
    forall i :: 0 <= i < |lists| ==> NoDuplicateIds(lists[i].tasks)
  }

  /** `lists.findIndex(list => list.name === name)`: exact, case-sensitive. */
  function FindList(lists: seq<NamedList>, name: string): (r: Option<nat>)
    ensures r.Some? ==> r.value < |lists| && lists[r.value].name == name
    ensures r.Some? ==> forall j :: 0 <= j < r.value ==> lists[j].name != name
    ensures r.None? ==> forall j :: 0 <= j < |lists| ==> lists[j].name != name
  {
    FirstIndex(lists, (l: NamedList) => l.name == name)
  }

  /** The target side of a move: the task is appended unless a task with its
      id is already there. */
  function AddIfAbsent(tasks: seq<Task>, task: Task): (r: seq<Task>)
    ensures HasId(r, task.id)
    ensures HasId(tasks, task.id) ==> r == tasks
    ensures !HasId(tasks, task.id) ==> r == tasks + [task]
    ensures NoDuplicateIds(tasks) ==> NoDuplicateIds(r)
  {
    if HasId(tasks, task.id) then tasks
    else
      var r := tasks + [task];
      assert r[|tasks|] == task;
      assert NoDuplicateIds(tasks) ==> NoDuplicateIds(r) by {
        if NoDuplicateIds(tasks) {
          forall a, b | 0 <= a < b < |r| ensures IdOf(r[a]) != IdOf(r[b]) {
            assert r[a] == tasks[a];
            if b < |tasks| {
              assert r[b] == tasks[b];
            }
          }
        }
      }
      r
  }

  /** The task list after `handleTaskMove(task, source, target)`. */
  function MoveTask(lists: seq<NamedList>, task: Task, source: string, target: string): (r: seq<NamedList>)
    ensures |r| == |lists|
    ensures forall i :: 0 <= i < |r| ==> r[i].name == lists[i].name
    ensures FindList(lists, source).None? || FindList(lists, target).None? ==> r == lists
    ensures FindList(lists, source).Some? && FindList(lists, target).Some? ==>
      var s := FindList(lists, source).value;
      var t := FindList(lists, target).value;
      && HasId(r[t].tasks, task.id)
      && (s != t ==> !HasId(r[s].tasks, task.id))
      && (forall i :: 0 <= i < |r| && i != s && i != t ==> r[i] == lists[i])
    ensures FindList(lists, source).Some? && FindList(lists, target).Some? ==>
      var s := FindList(lists, source).value;
      var t := FindList(lists, target).value;
      var left := WithoutId(lists[s].tasks, task.id);
      && (s != t ==> r[s].tasks == left)
      && r[t].tasks == AddIfAbsent(if s == t then left else lists[t].tasks, task)
    ensures IdsUniquePerList(lists) ==> IdsUniquePerList(r)
  {
    match (FindList(lists, source), FindList(lists, target))
    case (Some(s), Some(t)) =>
      var removed := lists[s := lists[s].(tasks := WithoutId(lists[s].tasks, task.id))];
      removed[t := removed[t].(tasks := AddIfAbsent(removed[t].tasks, task))]
    case _ => lists
  }

  /** The list array after `fetchTodayTasks` stores the fetched tasks. */
  function MergeToday(lists: seq<NamedList>, fetched: seq<Task>): (r: seq<NamedList>)
    ensures |r| >= 1 && r[0] == NamedList(TodayName, fetched)
    ensures |lists| >= 1 && lists[0].name == TodayName ==> r[1..] == lists[1..]
    ensures !(|lists| >= 1 && lists[0].name == TodayName) ==> r[1..] == lists
  {
    if |lists| == 0 || lists[0].name != TodayName then [NamedList(TodayName, fetched)] + lists
    else lists[0 := lists[0].(tasks := fetched)]
  }

  /** Appending a list whose name is free keeps the names distinct. */
  lemma CreateKeepsNamesDistinct(lists: seq<NamedList>, name: string)
    requires NamesDistinct(lists) && !NameTaken(lists, name, None)
    ensures NamesDistinct(lists + [NamedList(name, [])])
  {
    var r := lists + [NamedList(name, [])];
    forall i, j | 0 <= i < j < |r| ensures !SameIgnoringCase(r[i].name, r[j].name) {
      if j == |lists| {
        assert r[i] == lists[i];
      } else {
        assert r[i] == lists[i] && r[j] == lists[j];
      }
    }
  }

  /** Renaming list `k` to a name no other list holds keeps the names distinct. */
  lemma RenameKeepsNamesDistinct(lists: seq<NamedList>, k: nat, name: string)
    requires k < |lists| && NamesDistinct(lists) && !NameTaken(lists, name, Some(k))
    ensures NamesDistinct(lists[k := lists[k].(name := name)])
  {
  }

  /** Deleting a list keeps the names distinct. */
  lemma DeleteKeepsNamesDistinct(lists: seq<NamedList>, index: int)
    requires NamesDistinct(lists)
    ensures NamesDistinct(SpliceOne(lists, index))
  {
    var r := SpliceOne(lists, index);
    var k := if index < 0 then (if |lists| + index < 0 then 0 else |lists| + index) else index;
    if k < |lists| {
      forall i, j | 0 <= i < j < |r| ensures !SameIgnoringCase(r[i].name, r[j].name) {
        var i' := if i < k then i else i + 1;
        var j' := if j < k then j else j + 1;
        assert r[i] == lists[i'] && r[j] == lists[j'];
      }
    }
  }

  /** The list panel's state. */
  class ListBoard {
    var lists: seq<NamedList>
    var listName: string
    var error: string
    var showListDoc: bool
    var isRenaming: bool
    var renameIndex: Option<nat>
    var renameValue: string

    constructor ()
      ensures lists == [NamedList(TodayName, [])]
      ensures listName == "" && error == "" && !showListDoc
      ensures !isRenaming && renameIndex == None && renameValue == ""
    {
      lists := [NamedList(TodayName, [])];
      listName := "";
      error := "";
      showListDoc := false;
      isRenaming := false;
      renameIndex := None;
      renameValue := "";
    }

    /** `handleCreateList`. */
    method CreateList()
      modifies this`lists, this`listName, this`error, this`showListDoc
      ensures Trim(old(listName)) == "" ==>
        error == EmptyNameError && lists == old(lists) && listName == old(listName) && showListDoc == old(showListDoc)
      ensures Trim(old(listName)) != "" && NameTaken(old(lists), Trim(old(listName)), None) ==>
        error == DuplicateNameError && lists == old(lists) && listName == old(listName) && showListDoc == old(showListDoc)
      ensures Trim(old(listName)) != "" && !NameTaken(old(lists), Trim(old(listName)), None) ==>
        && lists == old(lists) + [NamedList(Trim(old(listName)), [])]
        && listName == "" && error == "" && !showListDoc
      ensures NamesDistinct(old(lists)) ==> NamesDistinct(lists)
    {
      var trimmed := Trim(listName);
      if trimmed == "" {
        error := EmptyNameError;
        return;
      }
      if NameTaken(lists, trimmed, None) {
        error := DuplicateNameError;
        return;
      }
      if NamesDistinct(lists) {
        CreateKeepsNamesDistinct(lists, trimmed);
      }
      lists := lists + [NamedList(trimmed, [])];
      listName := "";
      error := "";
      showListDoc := false;
    }

    /** `handleRenameList`; the source dereferences `lists[renameIndex]`,
        so a rename is only reachable with a valid index. */
    method RenameList()
      requires renameIndex.Some? && renameIndex.value < |lists|
      modifies this`lists, this`error, this`isRenaming, this`renameIndex, this`renameValue
      ensures Trim(old(renameValue)) == "" ==>
        error == EmptyNameError && lists == old(lists)
        && isRenaming == old(isRenaming) && renameIndex == old(renameIndex) && renameValue == old(renameValue)
      ensures Trim(old(renameValue)) != "" && NameTaken(old(lists), Trim(old(renameValue)), old(renameIndex)) ==>
        error == DuplicateNameError && lists == old(lists)
        && isRenaming == old(isRenaming) && renameIndex == old(renameIndex) && renameValue == old(renameValue)
      ensures Trim(old(renameValue)) != "" && !NameTaken(old(lists), Trim(old(renameValue)), old(renameIndex)) ==>
        var k := old(renameIndex).value;
        && lists == old(lists)[k := old(lists)[k].(name := Trim(old(renameValue)))]
        && error == "" && !isRenaming && renameIndex == None && renameValue == ""
      ensures NamesDistinct(old(lists)) ==> NamesDistinct(lists)
    {
      var trimmed := Trim(renameValue);
      if trimmed == "" {
        error := EmptyNameError;
        return;
      }
      if NameTaken(lists, trimmed, renameIndex) {
        error := DuplicateNameError;
        return;
      }
      var k := renameIndex.value;
      if NamesDistinct(lists) {
        RenameKeepsNamesDistinct(lists, k, trimmed);
      }
      lists := lists[k := lists[k].(name := trimmed)];
      isRenaming := false;
      renameIndex := None;
      renameValue := "";
      error := "";
    }

    /** `deleteList(index)`. */
    method DeleteList(index: int)
      modifies this`lists
      ensures lists == SpliceOne(old(lists), index)
      ensures NamesDistinct(old(lists)) ==> NamesDistinct(lists)
    {
      if NamesDistinct(lists) {
        DeleteKeepsNamesDistinct(lists, index);
      }
      lists := SpliceOne(lists, index);
    }

    /** `handleTaskMove(task, source, target)`: the copied array is edited
        in place, first the source list and then the target list. */
    method TaskMove(task: Task, source: string, target: string)
      modifies this`lists
      ensures lists == MoveTask(old(lists), task, source, target)
    {
      var s := FindList(lists, source);
      var t := FindList(lists, target);
      if s.None? || t.None? {
        return;
      }
      var updated := lists;
      updated := updated[s.value := updated[s.value].(tasks := WithoutId(updated[s.value].tasks, task.id))];
      var into := updated[t.value].tasks;
      if !HasId(into, task.id) {
        updated := updated[t.value := updated[t.value].(tasks := into + [task])];
      }
      lists := updated;
    }

    /** The `setLists` updater of `fetchTodayTasks`. */
    method FetchToday(fetched: seq<Task>)
      modifies this`lists
      ensures lists == MergeToday(old(lists), fetched)
    {
      lists := MergeToday(lists, fetched);
    }
  }
}
