/** The pure logic of the task component in `task.tsx`: the descendant count
    shown on the drag preview, the flat previous/next ids used for keyboard
    navigation, and the builders of the `task/moved` actions behind the
    indent, unindent, reorder and move-to-list commands. */
module TaskComponent {
  import opened Wrappers
  import opened JsArray
  import opened TreeTypes

  // ---------------------------------------------------------------------------
  // countDescendants

  /** `countDescendants(task)`: the reduce over the children adding one for
      each child plus that child's own descendants. */
  function CountDescendants(t: Task): (r: nat)
    decreases t, 1
    ensures |t.children| <= r
    ensures t.children == [] ==> r == 0
  {
    ForestCount(t.children)
  }

  /** The reduce `(count, child) => count + 1 + countDescendants(child)` over
      a sequence of tasks, folded from the left. */
  function ForestCount(ts: seq<Task>): (r: nat)
    decreases ts, 0
    ensures |ts| <= r
  {
    if ts == [] then 0
    else ForestCount(ts[..|ts| - 1]) + 1 + CountDescendants(ts[|ts| - 1])
  }

  // ---------------------------------------------------------------------------
  // Props and the values derived from them

  /** The props the action builders read. */
  datatype TaskProps = TaskProps(
    task: Task,
    index: int,
    listId: string,
    taskIds: seq<string>,
    ancestorIds: seq<string>,
    previousId: Option<string>,
    nextId: Option<string>)

  /** The nesting depth: zero for a top-level task. */
  function CurrentLevel(p: TaskProps): (level: nat)
    ensures level == 0 <==> p.ancestorIds == []
  {
    |p.ancestorIds|
  }

  /** The last ancestor, or `null`: present exactly below the top level. */
  function ParentId(p: TaskProps): (r: Option<string>)
    ensures r.Some? <==> CurrentLevel(p) > 0
    ensures r.Some? ==> r.value in p.ancestorIds && p.ancestorIds == p.ancestorIds[..|p.ancestorIds| - 1] + [r.value]
  {
    if |p.ancestorIds| > 0 then Some(p.ancestorIds[|p.ancestorIds| - 1]) else None
  }

  /** The ancestor before the last, or `null`: present exactly from the
      second level down, and only where there is a parent. */
  function GrandparentId(p: TaskProps): (r: Option<string>)
    ensures r.Some? <==> CurrentLevel(p) > 1
    ensures r.Some? ==> ParentId(p).Some? && r.value == p.ancestorIds[CurrentLevel(p) - 2]
  {
    if |p.ancestorIds| > 1 then Some(p.ancestorIds[|p.ancestorIds| - 2]) else None
  }

  /** `siblings[i]?.id ?? null`, the way both components compute the
      previous and next sibling ids they pass down. */
  function SiblingId(siblings: seq<Task>, i: int): (r: Option<string>)
    ensures r.Some? <==> 0 <= i < |siblings|
    ensures r.Some? ==> r.value == siblings[i].id
  {
    if 0 <= i < |siblings| then Some(siblings[i].id) else None
  }

  /** The props a task renders for its child at `index`. */
  function ChildProps(p: TaskProps, index: int): (c: TaskProps)
    requires 0 <= index < |p.task.children|
    ensures c.task == p.task.children[index] && c.index == index
    ensures c.listId == p.listId && c.taskIds == p.taskIds
    ensures c.ancestorIds == p.ancestorIds + [p.task.id]
    ensures c.previousId == SiblingId(p.task.children, index - 1)
    ensures c.nextId == SiblingId(p.task.children, index + 1)
    ensures ParentId(c) == Some(p.task.id) && GrandparentId(c) == ParentId(p)
    ensures CurrentLevel(c) == CurrentLevel(p) + 1
  {
    var cs := p.task.children;
    TaskProps(cs[index], index, p.listId, p.taskIds, p.ancestorIds + [p.task.id],
              SiblingId(cs, index - 1), SiblingId(cs, index + 1))
  }

  /** The props a list renders for its top-level task at `index`. */
  function TopLevelProps(listId: string, taskIds: seq<string>, tasks: seq<Task>, index: int): (c: TaskProps)
    requires 0 <= index < |tasks|
    ensures c.task == tasks[index] && c.index == index && c.listId == listId && c.taskIds == taskIds
    ensures c.previousId == SiblingId(tasks, index - 1) && c.nextId == SiblingId(tasks, index + 1)
    ensures ParentId(c) == None && CurrentLevel(c) == 0
  {
    TaskProps(tasks[index], index, listId, taskIds, [], SiblingId(tasks, index - 1), SiblingId(tasks, index + 1))
  }

  // ---------------------------------------------------------------------------
  // Flat navigation

  /** `flatIndex > 0 ? taskIds[flatIndex - 1] : null` with
      `flatIndex = taskIds.indexOf(taskId)`. */
  function FlatPreviousId(taskIds: seq<string>, taskId: string): (r: Option<string>)
    ensures taskId !in taskIds ==> r == None
    ensures forall i :: 0 <= i < |taskIds| && taskIds[i] == taskId && taskId !in taskIds[..i] ==>
              r == if i > 0 then Some(taskIds[i - 1]) else None
  {
    var flatIndex := IndexOf(taskIds, taskId);
    if flatIndex > 0 then Some(taskIds[flatIndex - 1]) else None
  }

  /** `flatIndex < taskIds.length - 1 ? taskIds[flatIndex + 1] : null`. An
      id missing from `taskIds` has index -1, so it gets the first id. */
  function FlatNextId(taskIds: seq<string>, taskId: string): (r: Option<string>)
    ensures taskId !in taskIds ==> r == if |taskIds| > 0 then Some(taskIds[0]) else None
    ensures forall i :: 0 <= i < |taskIds| && taskIds[i] == taskId && taskId !in taskIds[..i] ==>
              r == if i < |taskIds| - 1 then Some(taskIds[i + 1]) else None
  {
    var flatIndex := IndexOf(taskIds, taskId);
    if flatIndex < |taskIds| - 1 then Some(taskIds[flatIndex + 1]) else None
  }

  /** With distinct ids, "up" then "down" comes back: the flat next id of a
      task's flat previous id is the task itself. */
  lemma FlatPreviousThenNext(taskIds: seq<string>, taskId: string)
    requires Distinct(taskIds)
    requires FlatPreviousId(taskIds, taskId).Some?
    ensures FlatNextId(taskIds, FlatPreviousId(taskIds, taskId).value) == Some(taskId)
  {
    var i := IndexOf(taskIds, taskId);
    var prev := taskIds[i - 1];
    assert prev !in taskIds[..i - 1];
  }

  /** With distinct ids, "down" then "up" comes back, for a task on the
      list. */
  lemma FlatNextThenPrevious(taskIds: seq<string>, taskId: string)
    requires Distinct(taskIds) && taskId in taskIds
    requires FlatNextId(taskIds, taskId).Some?
    ensures FlatPreviousId(taskIds, FlatNextId(taskIds, taskId).value) == Some(taskId)
  {
    var i := IndexOf(taskIds, taskId);
    var next := taskIds[i + 1];
    assert next !in taskIds[..i + 1];
  }

  // ---------------------------------------------------------------------------
  // The move action builders

  /** `findTask(tasks, id)`, whose body is not part of this model: the
      builders only rely on a found task having the requested id. */
  type FindTaskFn = (seq<Task>, string) -> Option<Task>

  ghost predicate FindsRequested(find: FindTaskFn) {
    forall ts, id :: find(ts, id).Some? ==> find(ts, id).value.id == id
  }

  /** indentTask: the task becomes the last child of its previous sibling. */
  function IndentTask(p: TaskProps, lists: Board, find: FindTaskFn): (r: Result<Action>)
    requires FindsRequested(find)
    ensures !Truthy(p.previousId) ==> r == Failure("Task has no previous sibling")
    ensures Truthy(p.previousId) && FindList(lists, p.listId).None? ==> r == Failure("List not found")
    ensures Truthy(p.previousId) && FindList(lists, p.listId).Some?
            && find(FindList(lists, p.listId).value.uncompletedTasks, p.previousId.value).None? ==>
              r == Failure("Previous sibling not found")
    ensures r.Success? <==>
              Truthy(p.previousId) && FindList(lists, p.listId).Some?
              && find(FindList(lists, p.listId).value.uncompletedTasks, p.previousId.value).Some?
    ensures r.Success? ==>
              var sibling := find(FindList(lists, p.listId).value.uncompletedTasks, p.previousId.value).value;
              var a := r.value;
              && a.TaskMoved? && a.listId == p.listId && a.taskId == p.task.id
              && a.destinationListId == Some(p.listId)
              && a.parentId == Some(sibling.id) && a.parentId == p.previousId
              && (a.previousId.None? <==> sibling.children == [])
              && (a.previousId.Some? ==> a.previousId.value == sibling.children[|sibling.children| - 1].id)
  {
    if !Truthy(p.previousId) then Failure("Task has no previous sibling")
    else
      match FindList(lists, p.listId)
      case None => Failure("List not found")
      case Some(list) =>
        match find(list.uncompletedTasks, p.previousId.value)
        case None => Failure("Previous sibling not found")
        case Some(previousSibling) =>
          var lastChildId :=
            if |previousSibling.children| > 0
            then Some(previousSibling.children[|previousSibling.children| - 1].id)
            else None;
          Success(TaskMoved(p.listId, p.task.id, p.previousId, lastChildId, Some(p.listId)))
  }

  /** unindentTask: the task becomes the next sibling of its parent. */
  function UnindentTask(p: TaskProps): (r: Result<Action>)
    ensures r.Failure? <==> !Truthy(ParentId(p))
    ensures r.Failure? ==> r.error == "Task has no parent"
    ensures r.Success? ==>
              var a := r.value;
              && a.TaskMoved? && a.listId == p.listId && a.taskId == p.task.id
              && a.destinationListId == Some(p.listId)
              && a.parentId == GrandparentId(p) && a.previousId == ParentId(p)
  {
    if !Truthy(ParentId(p)) then Failure("Task has no parent")
    else Success(TaskMoved(p.listId, p.task.id, GrandparentId(p), ParentId(p), Some(p.listId)))
  }

  /** moveTaskToTop: top level, first position, same list. */
  function MoveTaskToTop(p: TaskProps): (r: Result<Action>)
    ensures r.Failure? <==> CurrentLevel(p) == 0 && !Truthy(p.previousId)
    ensures r.Failure? ==> r.error == "Already at the top"
    ensures r.Success? ==> r.value == TaskMoved(p.listId, p.task.id, None, None, Some(p.listId))
  {
    if !(CurrentLevel(p) > 0 || Truthy(p.previousId)) then Failure("Already at the top")
    else Success(TaskMoved(p.listId, p.task.id, None, None, Some(p.listId)))
  }

  /** The siblings moveTaskUp looks in: the list's top-level tasks, or the
      children of the parent when the task has one. */
  function UpSiblings(p: TaskProps, list: List, find: FindTaskFn): (r: Option<seq<Task>>)
    ensures !Truthy(ParentId(p)) ==> r == Some(list.uncompletedTasks)
    ensures Truthy(ParentId(p)) ==>
              (r.None? <==> find(list.uncompletedTasks, ParentId(p).value).None?)
              && (r.Some? ==> r.value == find(list.uncompletedTasks, ParentId(p).value).value.children)
  {
    if Truthy(ParentId(p)) then
      match find(list.uncompletedTasks, ParentId(p).value)
      case None => None
      case Some(parent) => Some(parent.children)
    else Some(list.uncompletedTasks)
  }

  /** moveTaskUp: stay under the same parent, placed after the sibling two
      places up (first when there is none). */
  function MoveTaskUp(p: TaskProps, lists: Board, find: FindTaskFn): (r: Result<Action>)
    requires FindsRequested(find)
    ensures !Truthy(p.previousId) ==> r == Failure("Task has no previous sibling")
    ensures Truthy(p.previousId) && FindList(lists, p.listId).None? ==> r == Failure("List not found")
    ensures Truthy(p.previousId) && FindList(lists, p.listId).Some?
            && UpSiblings(p, FindList(lists, p.listId).value, find).None? ==>
              r == Failure("Parent not found")
    ensures r.Success? <==>
              Truthy(p.previousId) && FindList(lists, p.listId).Some?
              && UpSiblings(p, FindList(lists, p.listId).value, find).Some?
    ensures r.Success? ==>
              var siblings := UpSiblings(p, FindList(lists, p.listId).value, find).value;
              var a := r.value;
              && a.TaskMoved? && a.listId == p.listId && a.taskId == p.task.id
              && a.destinationListId == Some(p.listId) && a.parentId == ParentId(p)
              && a.previousId == (if p.index > 1 then SiblingId(siblings, p.index - 2) else None)
  {
    if !Truthy(p.previousId) then Failure("Task has no previous sibling")
    else
      match FindList(lists, p.listId)
      case None => Failure("List not found")
      case Some(list) =>
        match UpSiblings(p, list, find)
        case None => Failure("Parent not found")
        case Some(siblings) =>
          var previousPreviousId := if p.index > 1 then SiblingId(siblings, p.index - 2) else None;
          Success(TaskMoved(p.listId, p.task.id, ParentId(p), previousPreviousId, Some(p.listId)))
  }

  /** moveTaskDown: stay under the same parent, placed after the next
      sibling. */
  function MoveTaskDown(p: TaskProps): (r: Result<Action>)
    ensures r.Failure? <==> !Truthy(p.nextId)
    ensures r.Failure? ==> r.error == "Task has no next sibling"
    ensures r.Success? ==> r.value == TaskMoved(p.listId, p.task.id, ParentId(p), p.nextId, Some(p.listId))
  {
    if !Truthy(p.nextId) then Failure("Task has no next sibling")
    else Success(TaskMoved(p.listId, p.task.id, ParentId(p), p.nextId, Some(p.listId)))
  }

  /** moveTaskToBottom: top level, after the list's last top-level
      uncompleted task. */
  function MoveTaskToBottom(p: TaskProps, lists: Board): (r: Result<Action>)
    ensures CurrentLevel(p) == 0 && !Truthy(p.nextId) ==> r == Failure("Already at the bottom")
    ensures (CurrentLevel(p) > 0 || Truthy(p.nextId)) && FindList(lists, p.listId).None? ==>
              r == Failure("List not found")
    ensures r.Success? <==> (CurrentLevel(p) > 0 || Truthy(p.nextId)) && FindList(lists, p.listId).Some?
    ensures r.Success? ==>
              var tasks := FindList(lists, p.listId).value.uncompletedTasks;
              var a := r.value;
              && a.TaskMoved? && a.listId == p.listId && a.taskId == p.task.id
              && a.destinationListId == Some(p.listId) && a.parentId == None
              && a.previousId == SiblingId(tasks, |tasks| - 1)
  {
    if !(CurrentLevel(p) > 0 || Truthy(p.nextId)) then Failure("Already at the bottom")
    else
      match FindList(lists, p.listId)
      case None => Failure("List not found")
      case Some(list) =>
        var tasks := list.uncompletedTasks;
        var previousId := if |tasks| > 0 then Some(tasks[|tasks| - 1].id) else None;
        Success(TaskMoved(p.listId, p.task.id, None, previousId, Some(p.listId)))
  }

  /** moveTaskToList: top level, first position, in the chosen list. */
  function MoveTaskToList(p: TaskProps, toListId: string): (a: Action)
    ensures a.TaskMoved? && a.listId == p.listId && a.taskId == p.task.id
    ensures a.parentId == None && a.previousId == None && a.destinationListId == Some(toListId)
  {
    TaskMoved(p.listId, p.task.id, None, None, Some(toListId))
  }

  /** The rename dispatched when editing stops: only when the text changed. */
  function RenameTaskOnEditEnd(p: TaskProps, isEditing: bool, text: string): (r: Option<Action>)
    ensures r.Some? <==> !isEditing && text != p.task.text
    ensures r.Some? ==> r.value == TaskRenamed(p.listId, p.task.id, text)
  {
    if !isEditing && text != p.task.text then Some(TaskRenamed(p.listId, p.task.id, text)) else None
  }

  // ---------------------------------------------------------------------------
  // What the builders mean for the props a component actually renders

  /** A child with a truthy id for its parent can always be unindented, and
      lands right after that parent, under the parent's own parent. */
  lemma UnindentChild(p: TaskProps, index: int)
    requires 0 <= index < |p.task.children| && p.task.id != ""
    ensures var r := UnindentTask(ChildProps(p, index));
            r.Success? && r.value.parentId == ParentId(p) && r.value.previousId == Some(p.task.id)
  {
  }

  /** A child that is not first can be indented under its previous sibling
      whenever `findTask` locates that sibling in the list. */
  lemma IndentChild(p: TaskProps, index: int, lists: Board, find: FindTaskFn)
    requires FindsRequested(find)
    requires 0 < index < |p.task.children| && p.task.children[index - 1].id != ""
    requires FindList(lists, p.listId).Some?
    requires find(FindList(lists, p.listId).value.uncompletedTasks, p.task.children[index - 1].id).Some?
    ensures var r := IndentTask(ChildProps(p, index), lists, find);
            r.Success? && r.value.parentId == Some(p.task.children[index - 1].id)
  {
  }

  /** Moving a child up when `findTask` returns its real parent: the new
      previous sibling is the one two places up, so the task ends one place
      higher under the same parent. */
  lemma MoveChildUp(p: TaskProps, index: int, lists: Board, find: FindTaskFn)
    requires FindsRequested(find)
    requires 0 < index < |p.task.children| && p.task.children[index - 1].id != "" && p.task.id != ""
    requires FindList(lists, p.listId).Some?
    requires find(FindList(lists, p.listId).value.uncompletedTasks, p.task.id) == Some(p.task)
    ensures var r := MoveTaskUp(ChildProps(p, index), lists, find);
            && r.Success? && r.value.parentId == Some(p.task.id)
            && r.value.previousId == (if index > 1 then Some(p.task.children[index - 2].id) else None)
  {
  }

  /** Moving a task down: the new previous sibling is its current next
      sibling, under the same parent. */
  lemma MoveChildDown(p: TaskProps, index: int)
    requires 0 <= index < |p.task.children| - 1 && p.task.children[index + 1].id != ""
    ensures var r := MoveTaskDown(ChildProps(p, index));
            && r.Success? && r.value.parentId == Some(p.task.id)
            && r.value.previousId == Some(p.task.children[index + 1].id)
  {
  }

  // ---------------------------------------------------------------------------
  // The test scenarios on the mock board

  /** The props of task-5 of list-2 as the tests render them. */
  function MockTaskProps(): TaskProps {
    TopLevelProps("list-2", [], MockBoard()[1].uncompletedTasks, 1)
  }

  lemma MockScenarios(find: FindTaskFn)
    requires FindsRequested(find)
    requires find(MockBoard()[1].uncompletedTasks, "task-4").Some?
    ensures var r := IndentTask(MockTaskProps(), MockBoard(), find);
            r.Success? && r.value.parentId == Some("task-4") && r.value.destinationListId == Some("list-2")
    ensures MoveTaskToTop(MockTaskProps()) == Success(TaskMoved("list-2", "task-5", None, None, Some("list-2")))
    ensures MoveTaskUp(MockTaskProps(), MockBoard(), find) == Success(TaskMoved("list-2", "task-5", None, None, Some("list-2")))
    ensures MoveTaskDown(MockTaskProps()) == Success(TaskMoved("list-2", "task-5", None, Some("task-6"), Some("list-2")))
    ensures MoveTaskToBottom(MockTaskProps(), MockBoard()) == Success(TaskMoved("list-2", "task-5", None, Some("task-7"), Some("list-2")))
    ensures MoveTaskToList(MockTaskProps(), "list-1") == TaskMoved("list-2", "task-5", None, None, Some("list-1"))
    ensures var inner := ChildProps(MockTaskProps(), 0);
            UnindentTask(inner) == Success(TaskMoved("list-2", "task-8", None, Some("task-5"), Some("list-2")))
  {
    var b := MockBoard();
    assert FindList(b, "list-2") == Some(b[1]);
  }
}
