/** The string-id data model of src/types.ts and the task operations of
    src/components/TaskList.tsx. Each operation returns the list handed to
    `onUpdateList`; `addTask` hands nothing on for blank text. */
module Tasks {
  import opened Wrappers
  import opened Json
  import opened Seqs
  import Text
  import StrictServer
  import LenientServer

  datatype Task = Task(id: string, text: string, completed: bool, order: int)

  datatype TaskList = TaskList(id: string, name: string, color: string, tasks: seq<Task>)

  /** A `Partial<Task>`: the fields to overwrite. */
  datatype TaskPatch = TaskPatch(id: Option<string>, text: Option<string>, completed: Option<bool>, order: Option<int>)

  const IsOpen: Task -> bool := (t: Task) => !t.completed
  const IsDone: Task -> bool := (t: Task) => t.completed
  function HasOtherId(id: string): Task -> bool { (t: Task) => t.id != id }

  /** Same id, name and colour: what every task operation keeps. */
  predicate SameHeader(a: TaskList, b: TaskList) {
    a.id == b.id && a.name == b.name && a.color == b.color
  }

  /** `addTask(text)` with the new task's id given: blank text hands nothing
      on; otherwise one open task with the trimmed text is appended, ranked
      after all the tasks before it. */
  function AddTask(list: TaskList, input: string, id: string): (r: Option<TaskList>)
    ensures r.None? <==> Text.AllWhitespace(input)
    ensures r.Some? ==> SameHeader(r.value, list)
    ensures r.Some? ==> |r.value.tasks| == |list.tasks| + 1 && r.value.tasks[..|list.tasks|] == list.tasks
    ensures r.Some? ==> r.value.tasks[|list.tasks|] == Task(id, Text.Trim(input), false, |list.tasks|)
  {
    var text := Text.Trim(input);
    if text != "" then Some(list.(tasks := list.tasks + [Task(id, text, false, |list.tasks|)])) else None
  }

  /** Orders are exactly the positions 0..n-1. */
  predicate DenselyOrdered(tasks: seq<Task>) {
    forall k :: 0 <= k < |tasks| ==> tasks[k].order == k
  }

  /** Orders are pairwise distinct. */
  predicate OrdersDistinct(tasks: seq<Task>) {
    forall i, j :: 0 <= i < j < |tasks| ==> tasks[i].order != tasks[j].order
  }

  /** Adding to a densely ordered list keeps it densely ordered. */
  lemma AddTaskKeepsDenseOrder(list: TaskList, input: string, id: string)
    requires DenselyOrdered(list.tasks)
    ensures AddTask(list, input, id).Some? ==> DenselyOrdered(AddTask(list, input, id).value.tasks)
  {
  }

  /** A new task's order is the current length, so after a delete it can
      repeat an order still in use: with tasks ranked 0 and 1, deleting the
      first and adding one ranks the new task 1 as well. */
  lemma AddAfterDeleteRepeatsOrder(a: Task, b: Task, id: string)
    requires a.order == 0 && b.order == 1 && a.id != b.id
    ensures var l := DeleteTask(TaskList("l", "L", "#000000", [a, b]), a.id);
      && OrdersDistinct(l.tasks)
      && AddTask(l, "x", id).Some?
      && !OrdersDistinct(AddTask(l, "x", id).value.tasks)
  {
    var l := DeleteTask(TaskList("l", "L", "#000000", [a, b]), a.id);
    assert Filter([a, b], HasOtherId(a.id)) == [b] by {
      assert [a, b][1..] == [b];
      assert [b][1..] == [];
    }
    assert Text.Trim("x") == "x" by { Text.TrimKeepsTrimmed("x"); }
    var r := AddTask(l, "x", id).value.tasks;
    assert r[0].order == r[1].order;
  }

  /** `{...task, ...updates}`: supplied fields win. */
  function ApplyPatch(t: Task, p: TaskPatch): (r: Task)
    ensures p.id.Some? ==> r.id == p.id.value
    ensures p.id.None? ==> r.id == t.id
    ensures p.text.Some? ==> r.text == p.text.value
    ensures p.text.None? ==> r.text == t.text
    ensures p.completed.Some? ==> r.completed == p.completed.value
    ensures p.completed.None? ==> r.completed == t.completed
    ensures p.order.Some? ==> r.order == p.order.value
    ensures p.order.None? ==> r.order == t.order
  {
    Task(p.id.GetOr(t.id), p.text.GetOr(t.text), p.completed.GetOr(t.completed), p.order.GetOr(t.order))
  }

  /** Applying the same patch again changes nothing more. */
  lemma ApplyPatchIdempotent(t: Task, p: TaskPatch)
    ensures ApplyPatch(ApplyPatch(t, p), p) == ApplyPatch(t, p)
  {
  }

  /** `updateTask(taskId, updates)`: patches exactly the tasks with that id. */
  function UpdateTask(list: TaskList, taskId: string, p: TaskPatch): (r: TaskList)
    ensures SameHeader(r, list)
    ensures |r.tasks| == |list.tasks|
    ensures forall k :: 0 <= k < |r.tasks| && list.tasks[k].id != taskId ==> r.tasks[k] == list.tasks[k]
    ensures forall k :: 0 <= k < |r.tasks| && list.tasks[k].id == taskId ==>
      && (p.id.None? ==> r.tasks[k].id == taskId) && (p.id.Some? ==> r.tasks[k].id == p.id.value)
      && (p.text.None? ==> r.tasks[k].text == list.tasks[k].text) && (p.text.Some? ==> r.tasks[k].text == p.text.value)
      && (p.completed.None? ==> r.tasks[k].completed == list.tasks[k].completed)
      && (p.completed.Some? ==> r.tasks[k].completed == p.completed.value)
      && (p.order.None? ==> r.tasks[k].order == list.tasks[k].order) && (p.order.Some? ==> r.tasks[k].order == p.order.value)
  {
    list.(tasks := seq(|list.tasks|, k requires 0 <= k < |list.tasks| =>
      if list.tasks[k].id == taskId then ApplyPatch(list.tasks[k], p) else list.tasks[k]))
  }

  /** An empty patch changes nothing. */
  lemma EmptyPatchIsIdentity(list: TaskList, taskId: string)
    ensures UpdateTask(list, taskId, TaskPatch(None, None, None, None)) == list
  {
    var r := UpdateTask(list, taskId, TaskPatch(None, None, None, None));
    assert r.tasks == list.tasks;
  }

  /** `deleteTask(taskId)`: keeps exactly the tasks with another id, each as
      often as before and in the same relative order. */
  function DeleteTask(list: TaskList, taskId: string): (r: TaskList)
    ensures SameHeader(r, list)
    ensures forall t :: t in r.tasks <==> t in list.tasks && t.id != taskId
    ensures forall t: Task :: t.id != taskId ==> multiset(r.tasks)[t] == multiset(list.tasks)[t]
  {
    FilterMultiset(list.tasks, HasOtherId(taskId));
    list.(tasks := Filter(list.tasks, HasOtherId(taskId)))
  }

  /** Deleting keeps the survivors' relative order. */
  lemma DeleteTaskKeepsOrder(list: TaskList, a: seq<Task>, b: seq<Task>, taskId: string)
    requires list.tasks == a + b
    ensures DeleteTask(list, taskId).tasks == Filter(a, HasOtherId(taskId)) + Filter(b, HasOtherId(taskId))
  {
    FilterConcat(a, b, HasOtherId(taskId));
  }

  /** `clearCompleted`: removes exactly the completed tasks. */
  function ClearCompleted(list: TaskList): (r: TaskList)
    ensures SameHeader(r, list)
    ensures forall t :: t in r.tasks <==> t in list.tasks && !t.completed
    ensures forall t: Task :: !t.completed ==> multiset(r.tasks)[t] == multiset(list.tasks)[t]
    ensures r.tasks == ActiveTasks(list)
  {
    FilterMultiset(list.tasks, IsOpen);
    list.(tasks := Filter(list.tasks, IsOpen))
  }

  /** Clearing twice is clearing once. */
  lemma ClearCompletedIdempotent(list: TaskList)
    ensures ClearCompleted(ClearCompleted(list)) == ClearCompleted(list)
  {
    FilterIdempotent(list.tasks, IsOpen);
  }

  /** `list.tasks.filter(task => !task.completed)`. */
  function ActiveTasks(list: TaskList): (r: seq<Task>)
    ensures forall t :: t in r <==> t in list.tasks && !t.completed
  {
    Filter(list.tasks, IsOpen)
  }

  /** `list.tasks.filter(task => task.completed)`. */
  function CompletedTasks(list: TaskList): (r: seq<Task>)
    ensures forall t :: t in r <==> t in list.tasks && t.completed
  {
    Filter(list.tasks, IsDone)
  }

  /** The two views split the tasks, counted with multiplicity, and each keeps
      the relative order of a split of the list. */
  lemma ActiveCompletedPartition(list: TaskList, a: seq<Task>, b: seq<Task>)
    requires list.tasks == a + b
    ensures |ActiveTasks(list)| + |CompletedTasks(list)| == |list.tasks|
    ensures multiset(ActiveTasks(list)) + multiset(CompletedTasks(list)) == multiset(list.tasks)
    ensures ActiveTasks(list) == Filter(a, IsOpen) + Filter(b, IsOpen)
    ensures CompletedTasks(list) == Filter(a, IsDone) + Filter(b, IsDone)
  {
    FilterPartition(list.tasks, IsOpen, IsDone);
    FilterConcat(a, b, IsOpen);
    FilterConcat(a, b, IsDone);
  }

  // ---------------------------------------------------------------------
  // The document this client's data takes on the wire

  function EncodeTask(t: Task): JsonValue {
    JObj(map["id" := JStr(t.id), "text" := JStr(t.text), "completed" := JBool(t.completed), "order" := JNum(t.order as real)])
  }

  function EncodeList(l: TaskList): JsonValue {
    JObj(map[
      "id" := JStr(l.id), "name" := JStr(l.name), "color" := JStr(l.color),
      "tasks" := JArr(seq(|l.tasks|, j requires 0 <= j < |l.tasks| => EncodeTask(l.tasks[j])))])
  }

  /** `{lists}` as an `AppData` document. */
  function EncodeDoc(lists: seq<TaskList>): JsonValue {
    Obj1("lists", JArr(seq(|lists|, k requires 0 <= k < |lists| => EncodeList(lists[k]))))
  }

  /** The two servers disagree on this data model: the lenient one stores
      every such document, even one with no lists, while the strict one
      refuses any document with at least one list (string ids, and `tasks`
      where it wants `todos`). */
  lemma VariantsDisagree(lists: seq<TaskList>)
    ensures LenientServer.Acceptable(EncodeDoc(lists))
    ensures StrictServer.ValidateData(EncodeDoc(lists)) <==> lists == []
  {
    var doc := EncodeDoc(lists);
    if lists != [] {
      var items := Member(doc, "lists").value.items;
      assert items[0] == EncodeList(lists[0]);
      assert !StrictServer.ListPasses(items[0]);
    }
  }
}
