/**
 * The client-side task list container (a zustand store): one mutable field,
 * `taskList`, that each operation replaces with a value computed from the old one.
 */
module Store {
  import opened Basics

  /**
   * A task as the list page holds it. `id` is the `id` property the container
   * matches on, and it may be absent; `docId` is the document's `_id`, which is
   * what the page hands to the container when it deletes. The two are kept apart.
   */
  datatype ClientTask = ClientTask(
    id: Option<string>,
    docId: Id,
    title: string,
    description: Option<string>,
    dueDate: string,
    priority: string,
    tags: seq<string>,
    status: string)

  /** `list.map(t => t.id === task.id ? task : t)`: every entry with the same `id` becomes `task`. */
  function Replaced(list: seq<ClientTask>, task: ClientTask): (r: seq<ClientTask>)
    ensures |r| == |list|
    ensures forall i :: 0 <= i < |list| && list[i].id == task.id ==> r[i] == task
    ensures forall i :: 0 <= i < |list| && list[i].id != task.id ==> r[i] == list[i]
  {
    if list == [] then []
    else [if list[0].id == task.id then task else list[0]] + Replaced(list[1..], task)
  }

  /** Replacing an `id` that no entry carries changes nothing. */
  lemma ReplacedAbsent(list: seq<ClientTask>, task: ClientTask)
    requires forall t :: t in list ==> t.id != task.id
    ensures Replaced(list, task) == list
  {
    var r := Replaced(list, task);
    forall i | 0 <= i < |list| ensures r[i] == list[i] {
      assert list[i] in list;
    }
  }

  /** Replacing twice with the same task is the same as replacing once. */
  lemma ReplacedIdempotent(list: seq<ClientTask>, task: ClientTask)
    ensures Replaced(Replaced(list, task), task) == Replaced(list, task)
  {
  }

  /** Number of entries whose `id` is `id`. */
  function CountId(list: seq<ClientTask>, id: Id): nat {
    if list == [] then 0 else (if list[0].id == Some(id) then 1 else 0) + CountId(list[1..], id)
  }

  /**
   * `list.filter(t => t.id !== id)`: the entries that survive are exactly those whose
   * `id` differs, and the length drops by the number of entries that matched.
   */
  function Removed(list: seq<ClientTask>, id: Id): (r: seq<ClientTask>)
    ensures |r| == |list| - CountId(list, id)
    ensures forall t :: t in r <==> t in list && t.id != Some(id)
  {
    if list == [] then []
    else if list[0].id == Some(id) then Removed(list[1..], id)
    else [list[0]] + Removed(list[1..], id)
  }

  /** Removal works piecewise, so the survivors keep their relative order. */
  lemma {:induction false} RemovedAppend(a: seq<ClientTask>, b: seq<ClientTask>, id: Id)
    ensures Removed(a + b, id) == Removed(a, id) + Removed(b, id)
  {
    if a == [] {
      assert a + b == b;
    } else {
      assert (a + b)[0] == a[0];
      assert (a + b)[1..] == a[1..] + b;
      RemovedAppend(a[1..], b, id);
    }
  }

  /** Removing an `id` that no entry carries leaves the list as it was. */
  lemma {:induction false} RemovedAbsent(list: seq<ClientTask>, id: Id)
    requires CountId(list, id) == 0
    ensures Removed(list, id) == list
  {
    if list != [] {
      RemovedAbsent(list[1..], id);
    }
  }

  /** A list in which no entry carries `id` has a count of zero for it. */
  lemma {:induction false} CountIdZero(list: seq<ClientTask>, id: Id)
    requires forall t :: t in list ==> t.id != Some(id)
    ensures CountId(list, id) == 0
  {
    if list != [] {
      assert list[0] in list;
      forall t | t in list[1..] ensures t.id != Some(id) {
        assert t in list;
      }
      CountIdZero(list[1..], id);
    }
  }

  /** Removing twice is removing once. */
  lemma RemovedIdempotent(list: seq<ClientTask>, id: Id)
    ensures Removed(Removed(list, id), id) == Removed(list, id)
  {
    CountIdZero(Removed(list, id), id);
    RemovedAbsent(Removed(list, id), id);
  }

  /** The task list container: `useTaskStore` in the source. */
  class TaskList {
    var taskList: seq<ClientTask>

    /** The store starts with an empty list. */
    constructor ()
      ensures taskList == []
    {
      taskList := [];
    }

    /** `setTasks(l)`: the list becomes exactly `l`. */
    method SetTasks(l: seq<ClientTask>)
      modifies this
      ensures taskList == l
    {
      taskList := l;
    }

    /** `addTask(t)`: `t` goes last and the old list is an unchanged prefix. */
    method AddTask(t: ClientTask)
      modifies this
      ensures |taskList| == |old(taskList)| + 1
      ensures taskList[|taskList| - 1] == t
      ensures taskList[..|old(taskList)|] == old(taskList)
    {
      taskList := taskList + [t];
    }

    /** `editTask(t)`: same length; entries with `t`'s `id` become `t`, the rest stay. */
    method EditTask(t: ClientTask)
      modifies this
      ensures taskList == Replaced(old(taskList), t)
      ensures (forall u :: u in old(taskList) ==> u.id != t.id) ==> taskList == old(taskList)
    {
      if forall u :: u in taskList ==> u.id != t.id {
        ReplacedAbsent(taskList, t);
      }
      taskList := Replaced(taskList, t);
    }

    /** `deleteTask(id)`: no entry with that `id` is left; the others keep their order. */
    method DeleteTask(id: Id)
      modifies this
      ensures taskList == Removed(old(taskList), id)
      ensures CountId(taskList, id) == 0
    {
      taskList := Removed(taskList, id);
      CountIdZero(taskList, id);
    }
  }
}
