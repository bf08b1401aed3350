/** The kanban state engine of `context.tsx` as written: a board reducer over
    flat lists of integer-keyed tasks, and the undo/redo history reducer that
    wraps it. Every case returns a fresh board; the two cases that `splice`
    into a copy are written with `JsArray.SpliceInsert`. */
module Context {
  import opened Wrappers
  import opened JsArray

  datatype Task = Task(id: int, text: string, done: bool)

  datatype List = List(id: int, name: string, uncompletedTasks: seq<Task>, completedTasks: seq<Task>)

  type Board = seq<List>

  datatype History = History(past: seq<Board>, present: Board, future: seq<Board>)

  /** The actions with the fields the reducer reads. `TaskAdded` carries the
      fresh id that the source takes from the clock; every action type the
      reducer has no case for (list/cleared, list/inserted, task/inserted, ...)
      is `Other`. */
  datatype Action =
    | BoardUndo
    | BoardRedo
    | ListDeleted(listId: int)
    | ListMoved(fromIndex: int, toIndex: int)
    | ListRenamed(listId: int, name: string)
    | TaskAdded(listId: int, newTaskId: int)
    | TaskDeleted(taskId: int)
    | TaskMoved(fromListId: int, fromIndex: int, toListId: int, toIndex: int)
    | TaskRenamed(taskId: int, text: string)
    | TaskToggled(taskId: int)
    | Other(kind: string)

  // ---------------------------------------------------------------------------
  // Identity and counting

  predicate HasList(lists: Board, listId: int) {
    exists i :: 0 <= i < |lists| && lists[i].id == listId
  }

  predicate UniqueListIds(lists: Board) {
    forall i, j :: 0 <= i < j < |lists| ==> lists[i].id != lists[j].id
  }

  predicate HasTask(ts: seq<Task>, id: int) {
    exists i :: 0 <= i < |ts| && ts[i].id == id
  }

  predicate UniqueTaskIds(ts: seq<Task>) {
    forall i, j :: 0 <= i < j < |ts| ==> ts[i].id != ts[j].id
  }

  /** How many tasks of `ts` carry the id `id`. */
  function CountId(ts: seq<Task>, id: int): nat {
    if ts == [] then 0
    else (if ts[0].id == id then 1 else 0) + CountId(ts[1..], id)
  }

  /** Number of tasks held by one list. */
  function ListSize(l: List): nat {
    |l.uncompletedTasks| + |l.completedTasks|
  }

  /** Number of tasks on the whole board. */
  function TotalTasks(lists: Board): nat {
    if lists == [] then 0 else TotalTasks(lists[..|lists| - 1]) + ListSize(lists[|lists| - 1])
  }

  // ---------------------------------------------------------------------------
  // Array callbacks used by the cases

  /** `ts.filter((task) => task.id !== id)`. */
  function WithoutTask(ts: seq<Task>, id: int): (r: seq<Task>)
    ensures forall t :: t in r <==> t in ts && t.id != id
    ensures |r| == |ts| - CountId(ts, id)
    ensures !HasTask(ts, id) ==> r == ts
  {
    if ts == [] then []
    else
      assert !HasTask(ts, id) ==> !HasTask(ts[1..], id) by {
        if HasTask(ts[1..], id) {
          var i :| 0 <= i < |ts[1..]| && ts[1..][i].id == id;
          assert ts[i + 1].id == id;
        }
      }
      (if ts[0].id != id then [ts[0]] else []) + WithoutTask(ts[1..], id)
  }

  /** `ts.find((task) => task.id === id)`: the first task with the id. */
  function FirstWithId(ts: seq<Task>, id: int): (r: Option<Task>)
    ensures r.Some? <==> HasTask(ts, id)
    ensures r.Some? ==> exists k :: 0 <= k < |ts| && ts[k] == r.value && r.value.id == id
                                   && forall j :: 0 <= j < k ==> ts[j].id != id
  {
    if ts == [] then None
    else if ts[0].id == id then Some(ts[0])
    else
      var r := FirstWithId(ts[1..], id);
      assert HasTask(ts, id) ==> HasTask(ts[1..], id) by {
        if HasTask(ts, id) {
          var i :| 0 <= i < |ts| && ts[i].id == id;
          assert i > 0 && ts[1..][i - 1].id == id;
        }
      }
      assert r.Some? ==> exists k :: 0 <= k < |ts| && ts[k] == r.value && r.value.id == id
                                   && forall j :: 0 <= j < k ==> ts[j].id != id by {
        if r.Some? {
          var k :| 0 <= k < |ts[1..]| && ts[1..][k] == r.value && r.value.id == id
                   && forall j :: 0 <= j < k ==> ts[1..][j].id != id;
          assert ts[k + 1] == r.value;
          assert forall j :: 0 <= j < k + 1 ==> ts[j].id != id by {
            forall j | 0 <= j < k + 1 ensures ts[j].id != id {
              if j > 0 { assert ts[j] == ts[1..][j - 1]; }
            }
          }
        }
      }
      r
  }

  /** `ts.map((task) => task.id === id ? { ...task, text } : task)`. */
  function RenameIn(ts: seq<Task>, id: int, text: string): (r: seq<Task>)
    ensures |r| == |ts|
    ensures forall i :: 0 <= i < |r| ==> r[i].id == ts[i].id && r[i].done == ts[i].done
    ensures forall i :: 0 <= i < |r| ==> r[i].text == if ts[i].id == id then text else ts[i].text
  {
    seq(|ts|, i requires 0 <= i < |ts| => if ts[i].id == id then ts[i].(text := text) else ts[i])
  }

  // ---------------------------------------------------------------------------
  // The cases of boardReducer

  /** list/deleted: keep the lists whose id differs, in order. */
  function DeleteList(lists: Board, listId: int): (r: Board)
    ensures |r| <= |lists|
  {
    if lists == [] then []
    else
      (if lists[0].id != listId then [lists[0]] else []) + DeleteList(lists[1..], listId)
  }

  /** list/moved: take the list at `fromIndex` out and splice it back in at
      `toIndex` (clamped like `splice`). The source reads `lists[fromIndex]`
      unchecked, so the index must be in range. */
  function MoveList(lists: Board, fromIndex: int, toIndex: int): (r: Board)
    requires 0 <= fromIndex < |lists|
    ensures |r| == |lists|
    ensures multiset(r) == multiset(lists)
    ensures r[SpliceStart(toIndex, |lists| - 1)] == lists[fromIndex]
    ensures RemoveAt(r, SpliceStart(toIndex, |lists| - 1)) == RemoveAt(lists, fromIndex)
  {
    var rest := RemoveAt(lists, fromIndex);
    RemoveSpliced(rest, toIndex, lists[fromIndex]);
    SpliceInsert(rest, toIndex, lists[fromIndex])
  }

  /** list/renamed: lists with the id get the new name; nothing else changes. */
  function RenameList(lists: Board, listId: int, name: string): (r: Board)
    ensures |r| == |lists|
    ensures forall i :: 0 <= i < |r| ==>
              r[i].id == lists[i].id
              && r[i].uncompletedTasks == lists[i].uncompletedTasks
              && r[i].completedTasks == lists[i].completedTasks
    ensures forall i :: 0 <= i < |r| ==> r[i].name == if lists[i].id == listId then name else lists[i].name
  {
    seq(|lists|, i requires 0 <= i < |lists| => if lists[i].id == listId then lists[i].(name := name) else lists[i])
  }

  /** The task created by task/added. */
  /** The task `task/added` creates: open, with the placeholder text. */
  function NewTask(newTaskId: int): (t: Task)
    ensures t.id == newTaskId && t.text == "New task" && !t.done
  {
    Task(newTaskId, "New task", false)
  }

  /** task/added: every list with the id gets a new uncompleted task in front. */
  function AddTask(lists: Board, listId: int, newTaskId: int): (r: Board)
    ensures |r| == |lists|
    ensures forall i :: 0 <= i < |r| ==>
              r[i].id == lists[i].id && r[i].name == lists[i].name
              && r[i].completedTasks == lists[i].completedTasks
    ensures forall i :: 0 <= i < |r| ==>
              r[i].uncompletedTasks ==
                if lists[i].id == listId then [NewTask(newTaskId)] + lists[i].uncompletedTasks
                else lists[i].uncompletedTasks
  {
    seq(|lists|, i requires 0 <= i < |lists| =>
      if lists[i].id == listId
      then lists[i].(uncompletedTasks := [NewTask(newTaskId)] + lists[i].uncompletedTasks)
      else lists[i])
  }

  /** task/deleted: the id is filtered out of both collections of every list. */
  function DeleteTask(lists: Board, taskId: int): (r: Board)
    ensures |r| == |lists|
    ensures forall i :: 0 <= i < |r| ==> r[i].id == lists[i].id && r[i].name == lists[i].name
    ensures forall i :: 0 <= i < |r| ==>
              r[i].uncompletedTasks == WithoutTask(lists[i].uncompletedTasks, taskId)
              && r[i].completedTasks == WithoutTask(lists[i].completedTasks, taskId)
    ensures forall i, t :: 0 <= i < |r| ==>
              (t in r[i].uncompletedTasks <==> t in lists[i].uncompletedTasks && t.id != taskId)
              && (t in r[i].completedTasks <==> t in lists[i].completedTasks && t.id != taskId)
    ensures forall i :: 0 <= i < |r| ==>
              ListSize(r[i]) == ListSize(lists[i])
                - CountId(lists[i].uncompletedTasks, taskId) - CountId(lists[i].completedTasks, taskId)
  {
    seq(|lists|, i requires 0 <= i < |lists| =>
      lists[i].(uncompletedTasks := WithoutTask(lists[i].uncompletedTasks, taskId),
                completedTasks := WithoutTask(lists[i].completedTasks, taskId)))
  }

  /** What task/moved demands of the source list: one exists, and every list
      with that id has an uncompleted task at `fromIndex` (the source indexes
      it without a bounds check). */
  predicate MoveSourceValid(lists: Board, fromListId: int, fromIndex: int) {
    HasList(lists, fromListId)
    && forall i :: 0 <= i < |lists| && lists[i].id == fromListId ==>
         0 <= fromIndex < |lists[i].uncompletedTasks|
  }

  /** The value `taskToMove` holds after the removal pass: it is assigned in
      every list with the source id, so the last such list wins. */
  function TaskToMove(lists: Board, fromListId: int, fromIndex: int): (t: Task)
    requires MoveSourceValid(lists, fromListId, fromIndex)
    ensures exists i :: 0 <= i < |lists| && lists[i].id == fromListId
                        && t == lists[i].uncompletedTasks[fromIndex]
                        && forall j :: i < j < |lists| ==> lists[j].id != fromListId
  {
    var n := |lists|;
    if lists[n - 1].id == fromListId then lists[n - 1].uncompletedTasks[fromIndex]
    else
      assert MoveSourceValid(lists[..n - 1], fromListId, fromIndex) by {
        var i :| 0 <= i < n && lists[i].id == fromListId;
        assert i < n - 1 && lists[..n - 1][i].id == fromListId;
      }
      TaskToMove(lists[..n - 1], fromListId, fromIndex)
  }

  /** The first pass of task/moved: each source list drops the task at
      `fromIndex`, together with every other task sharing its id. */
  function RemoveMoved(lists: Board, fromListId: int, fromIndex: int): (r: Board)
    requires MoveSourceValid(lists, fromListId, fromIndex)
    ensures |r| == |lists|
    ensures forall i :: 0 <= i < |r| ==>
              r[i].id == lists[i].id && r[i].name == lists[i].name
              && r[i].completedTasks == lists[i].completedTasks
    ensures forall i :: 0 <= i < |r| && lists[i].id != fromListId ==> r[i] == lists[i]
    ensures forall i :: 0 <= i < |r| && lists[i].id == fromListId ==>
              r[i].uncompletedTasks ==
                WithoutTask(lists[i].uncompletedTasks, lists[i].uncompletedTasks[fromIndex].id)
  {
    seq(|lists|, i requires 0 <= i < |lists| =>
      if lists[i].id == fromListId
      then lists[i].(uncompletedTasks :=
             WithoutTask(lists[i].uncompletedTasks, lists[i].uncompletedTasks[fromIndex].id))
      else lists[i])
  }

  /** The second pass of task/moved: each destination list gets `t` spliced
      into a copy of its uncompleted tasks at `toIndex`. */
  function InsertMoved(lists: Board, toListId: int, toIndex: int, t: Task): (r: Board)
    ensures |r| == |lists|
    ensures forall i :: 0 <= i < |r| ==>
              r[i].id == lists[i].id && r[i].name == lists[i].name
              && r[i].completedTasks == lists[i].completedTasks
    ensures forall i :: 0 <= i < |r| && lists[i].id != toListId ==> r[i] == lists[i]
    ensures forall i :: 0 <= i < |r| && lists[i].id == toListId ==>
              r[i].uncompletedTasks == SpliceInsert(lists[i].uncompletedTasks, toIndex, t)
  {
    seq(|lists|, i requires 0 <= i < |lists| =>
      if lists[i].id == toListId
      then lists[i].(uncompletedTasks := SpliceInsert(lists[i].uncompletedTasks, toIndex, t))
      else lists[i])
  }

  /** task/moved: remove the task at `fromIndex` of the source list and
      splice it into the destination list at `toIndex`. */
  function MoveTask(lists: Board, fromListId: int, fromIndex: int, toListId: int, toIndex: int): (r: Board)
    requires MoveSourceValid(lists, fromListId, fromIndex)
    ensures |r| == |lists|
    ensures forall i :: 0 <= i < |r| ==>
              r[i].id == lists[i].id && r[i].name == lists[i].name
              && r[i].completedTasks == lists[i].completedTasks
    ensures forall i :: 0 <= i < |r| && lists[i].id != fromListId && lists[i].id != toListId ==>
              r[i] == lists[i]
  {
    var t := TaskToMove(lists, fromListId, fromIndex);
    InsertMoved(RemoveMoved(lists, fromListId, fromIndex), toListId, toIndex, t)
  }

  /** task/renamed: the text of every task with the id, in both collections
      of every list, is replaced. */
  function RenameTask(lists: Board, taskId: int, text: string): (r: Board)
    ensures |r| == |lists|
    ensures forall i :: 0 <= i < |r| ==>
              r[i].id == lists[i].id && r[i].name == lists[i].name
              && r[i].uncompletedTasks == RenameIn(lists[i].uncompletedTasks, taskId, text)
              && r[i].completedTasks == RenameIn(lists[i].completedTasks, taskId, text)
  {
    seq(|lists|, i requires 0 <= i < |lists| =>
      lists[i].(uncompletedTasks := RenameIn(lists[i].uncompletedTasks, taskId, text),
                completedTasks := RenameIn(lists[i].completedTasks, taskId, text)))
  }

  /** task/toggled on one list: the first match among the uncompleted tasks
      moves, marked done, to the front of the completed tasks; failing that,
      the first match among the completed tasks moves, marked not done, to
      the front of the uncompleted tasks; otherwise the list is unchanged. */
  function ToggleInList(l: List, taskId: int): (r: List)
    ensures r.id == l.id && r.name == l.name
    ensures HasTask(l.uncompletedTasks, taskId) ==>
              r.uncompletedTasks == WithoutTask(l.uncompletedTasks, taskId)
              && |r.completedTasks| == |l.completedTasks| + 1
              && r.completedTasks[1..] == l.completedTasks
              && r.completedTasks[0].id == taskId && r.completedTasks[0].done
              && r.completedTasks == [FirstWithId(l.uncompletedTasks, taskId).value.(done := true)] + l.completedTasks
    ensures !HasTask(l.uncompletedTasks, taskId) && HasTask(l.completedTasks, taskId) ==>
              r.completedTasks == WithoutTask(l.completedTasks, taskId)
              && |r.uncompletedTasks| == |l.uncompletedTasks| + 1
              && r.uncompletedTasks[1..] == l.uncompletedTasks
              && r.uncompletedTasks[0].id == taskId && !r.uncompletedTasks[0].done
              && r.uncompletedTasks == [FirstWithId(l.completedTasks, taskId).value.(done := false)] + l.uncompletedTasks
    ensures !HasTask(l.uncompletedTasks, taskId) && !HasTask(l.completedTasks, taskId) ==> r == l
  {
    match FirstWithId(l.uncompletedTasks, taskId)
    case Some(t) =>
      l.(uncompletedTasks := WithoutTask(l.uncompletedTasks, taskId),
         completedTasks := [t.(done := true)] + l.completedTasks)
    case None =>
      match FirstWithId(l.completedTasks, taskId)
      case Some(t) =>
        l.(uncompletedTasks := [t.(done := false)] + l.uncompletedTasks,
           completedTasks := WithoutTask(l.completedTasks, taskId))
      case None => l
  }

  /** task/toggled: toggles the task in every list. */
  function ToggleTask(lists: Board, taskId: int): (r: Board)
    ensures |r| == |lists|
    ensures forall i :: 0 <= i < |r| ==> r[i].id == lists[i].id && r[i].name == lists[i].name
    ensures forall i :: 0 <= i < |r| ==> r[i] == ToggleInList(lists[i], taskId)
    ensures forall i :: 0 <= i < |r| ==>
              (!HasTask(lists[i].uncompletedTasks, taskId) && !HasTask(lists[i].completedTasks, taskId)
               ==> r[i] == lists[i])
  {
    seq(|lists|, i requires 0 <= i < |lists| => ToggleInList(lists[i], taskId))
  }

  // ---------------------------------------------------------------------------
  // The two reducers

  /** What `boardReducer` needs to produce a well-formed board. */
  predicate BoardActionApplicable(lists: Board, a: Action) {
    match a
    case ListMoved(fromIndex, _) => 0 <= fromIndex < |lists|
    case TaskMoved(fromListId, fromIndex, _, _) => MoveSourceValid(lists, fromListId, fromIndex)
    case _ => true
  }

  function BoardReducer(lists: Board, a: Action): (r: Board)
    requires BoardActionApplicable(lists, a)
    ensures a.Other? || a.BoardUndo? || a.BoardRedo? ==> r == lists
    ensures !a.ListDeleted? ==> |r| == |lists|
    ensures a.ListDeleted? ==> |r| <= |lists|
  {
    match a
    case ListDeleted(listId) => DeleteList(lists, listId)
    case ListMoved(fromIndex, toIndex) => MoveList(lists, fromIndex, toIndex)
    case ListRenamed(listId, name) => RenameList(lists, listId, name)
    case TaskAdded(listId, newTaskId) => AddTask(lists, listId, newTaskId)
    case TaskDeleted(taskId) => DeleteTask(lists, taskId)
    case TaskMoved(fromListId, fromIndex, toListId, toIndex) =>
      MoveTask(lists, fromListId, fromIndex, toListId, toIndex)
    case TaskRenamed(taskId, text) => RenameTask(lists, taskId, text)
    case TaskToggled(taskId) => ToggleTask(lists, taskId)
    case _ => lists
  }

  /** What `historyReducer` needs: undo reads `past[past.length - 1]` and
      redo reads `future[0]`, so those must exist (the UI only offers them
      then); every other action must suit the board reducer. */
  predicate HistoryActionApplicable(h: History, a: Action) {
    match a
    case BoardUndo => |h.past| > 0
    case BoardRedo => |h.future| > 0
    case _ => BoardActionApplicable(h.present, a)
  }

  function HistoryReducer(h: History, a: Action): (r: History)
    requires HistoryActionApplicable(h, a)
    ensures a.BoardUndo? ==>
              r.present == h.past[|h.past| - 1] && r.past + [r.present] == h.past
              && r.future == [h.present] + h.future
    ensures a.BoardRedo? ==>
              r.past == h.past + [h.present] && [r.present] + r.future == h.future
    ensures !a.BoardUndo? && !a.BoardRedo? ==>
              r.past == h.past + [h.present] && r.present == BoardReducer(h.present, a) && r.future == []
  {
    match a
    case BoardUndo => History(h.past[..|h.past| - 1], h.past[|h.past| - 1], [h.present] + h.future)
    case BoardRedo => History(h.past + [h.present], h.future[0], h.future[1..])
    case _ => History(h.past + [h.present], BoardReducer(h.present, a), [])
  }

  // ---------------------------------------------------------------------------
  // The initial value

  /** Every task id on the board, list by list, uncompleted before completed. */
  function BoardTaskIds(lists: Board): seq<int> {
    if lists == [] then []
    else
      BoardTaskIds(lists[..|lists| - 1])
      + seq(|lists[|lists| - 1].uncompletedTasks|, k requires 0 <= k < |lists[|lists| - 1].uncompletedTasks| =>
              lists[|lists| - 1].uncompletedTasks[k].id)
      + seq(|lists[|lists| - 1].completedTasks|, k requires 0 <= k < |lists[|lists| - 1].completedTasks| =>
              lists[|lists| - 1].completedTasks[k].id)
  }

  /** The seeded board: two lists with three and four open tasks. */
  function InitialBoard(): (b: Board)
    ensures UniqueListIds(b) && Distinct(BoardTaskIds(b))
    ensures |b| == 2 && TotalTasks(b) == 7
  {
    [ List(1, "Day off in Kyoto",
           [ Task(1, "Philosopher’s Path", false),
             Task(2, "Visit the temple", false),
             Task(3, "Drink matcha", false) ],
           []),
      List(2, "Day off in Tokyo",
           [ Task(4, "Visit Nezu Museum", false),
             Task(5, "Explore Shibuya Crossing", false),
             Task(6, "Tokyo Skytree observation deck", false),
             Task(7, "Visit Akihabara", false) ],
           []) ]
  }

  function InitialHistory(): (h: History)
    ensures h.past == [] && h.future == [] && h.present == InitialBoard()
  {
    History([], InitialBoard(), [])
  }
}
