/** The pure logic of the list component in `list.tsx`: the pre-order
    flattening of a list's task forest into the `taskIds` the tasks navigate
    by, the left/right reorder actions, the fallback from a categorised list
    name to a list id and the rename-only-if-changed guard. */
module ListComponent {
  import opened Wrappers
  import opened JsArray
  import opened TreeTypes
  import opened TaskComponent
  import Context
  import ContextLaws

  // ---------------------------------------------------------------------------
  // flattenTasks and taskIds

  /** The ids of a forest in depth-first pre-order, as the `reduce` in
      `flattenTasks` builds them: folded from the left, each task's id
      followed by the ids of its subtree. */
  function ForestIds(ts: seq<Task>): seq<string>
    decreases ts
  {
    if ts == [] then []
    else
      var last := ts[|ts| - 1];
      ForestIds(ts[..|ts| - 1]) + [last.id] + (if |last.children| > 0 then ForestIds(last.children) else [])
  }

  /** The ids of one task's subtree, the task first. */
  function SubtreeIds(t: Task): seq<string> {
    [t.id] + ForestIds(t.children)
  }

  /** `flattenTasks`: the accumulator is extended in place, task by task. */
  method FlattenTasks(tasks: seq<Task>) returns (acc: seq<string>)
    decreases tasks
    ensures acc == ForestIds(tasks)
  {
    acc := [];
    var i := 0;
    while i < |tasks|
      invariant 0 <= i <= |tasks|
      invariant acc == ForestIds(tasks[..i])
    {
      var task := tasks[i];
      assert tasks[..i + 1][..i] == tasks[..i];
      acc := acc + [task.id];
      if |task.children| > 0 {
        var sub := FlattenTasks(task.children);
        acc := acc + sub;
      }
      i := i + 1;
    }
    assert tasks[..i] == tasks;
  }

  /** The spread of the flattened uncompleted ids and completed ids. */
  function AllTaskIds(list: List): seq<string> {
    ForestIds(list.uncompletedTasks) + ForestIds(list.completedTasks)
  }

  /** `taskIds`, computed the way the component does. */
  method TaskIds(list: List) returns (ids: seq<string>)
    ensures ids == AllTaskIds(list)
    ensures |ids| == ForestCount(list.uncompletedTasks) + ForestCount(list.completedTasks)
  {
    var uncompletedTaskIds := FlattenTasks(list.uncompletedTasks);
    var completedTaskIds := FlattenTasks(list.completedTasks);
    ids := uncompletedTaskIds + completedTaskIds;
    ForestIdsLength(list.uncompletedTasks);
    ForestIdsLength(list.completedTasks);
  }

  /** Flattening distributes over concatenation: siblings keep their order. */
  lemma {:induction false} ForestIdsAppend(a: seq<Task>, b: seq<Task>)
    ensures ForestIds(a + b) == ForestIds(a) + ForestIds(b)
    decreases |b|
  {
    if b == [] {
      assert a + b == a;
    } else {
      var last := b[|b| - 1];
      assert (a + b)[..|a + b| - 1] == a + b[..|b| - 1];
      assert (a + b)[|a + b| - 1] == last;
      ForestIdsAppend(a, b[..|b| - 1]);
    }
  }

  /** A forest of one task flattens to that task's subtree. */
  lemma ForestIdsSingle(t: Task)
    ensures ForestIds([t]) == SubtreeIds(t)
  {
    assert [t][..0] == [];
  }

  /** Pre-order: the first task's id comes first, then its descendants,
      then the rest of the forest. */
  lemma ForestIdsCons(t: Task, ts: seq<Task>)
    ensures ForestIds([t] + ts) == [t.id] + ForestIds(t.children) + ForestIds(ts)
  {
    ForestIdsAppend([t], ts);
    ForestIdsSingle(t);
  }

  /** Every task's subtree is one contiguous block of the flattened ids,
      after the blocks of the siblings before it and before the blocks of
      the siblings after it. */
  lemma SubtreeBlock(ts: seq<Task>, k: int)
    requires 0 <= k < |ts|
    ensures ForestIds(ts) == ForestIds(ts[..k]) + SubtreeIds(ts[k]) + ForestIds(ts[k + 1..])
  {
    var before, here, rest := ts[..k], ts[k..], ts[k + 1..];
    assert here == [ts[k]] + rest;
    assert before + here == ts;
    ForestIdsAppend(before, here);
    ForestIdsCons(ts[k], rest);
    ConcatAssoc(ForestIds(before), SubtreeIds(ts[k]), ForestIds(rest));
  }

  /** The first top-level task's block opens the flattened ids. */
  lemma ForestIdsFirst(ts: seq<Task>)
    requires ts != []
    ensures ForestIds(ts) == SubtreeIds(ts[0]) + ForestIds(ts[1..])
  {
    assert ts == [ts[0]] + ts[1..];
    ForestIdsCons(ts[0], ts[1..]);
  }

  /** The flattened ids number the nodes of the forest, which is the sum of
      `1 + countDescendants` over its top-level tasks. */
  lemma {:induction false} ForestIdsLength(ts: seq<Task>)
    ensures |ForestIds(ts)| == ForestCount(ts)
    decreases ts, 0
  {
    if ts != [] {
      ForestIdsLength(ts[..|ts| - 1]);
      SubtreeLength(ts[|ts| - 1]);
    }
  }

  /** `countDescendants(t)` is the number of nodes below `t`. */
  lemma {:induction false} SubtreeLength(t: Task)
    ensures CountDescendants(t) == |ForestIds(t.children)|
    ensures |SubtreeIds(t)| == 1 + CountDescendants(t)
    decreases t, 1
  {
    ForestIdsLength(t.children);
  }

  /** The subtree of task-5 on the mock board. */
  lemma MockSubtreeIds()
    ensures SubtreeIds(MockBoard()[1].uncompletedTasks[1]) == ["task-5", "task-8", "task-9", "task-10"]
  {
    var cs := MockBoard()[1].uncompletedTasks[1].children;
    ForestIdsFirst(cs);
    ForestIdsFirst(cs[1..]);
    ForestIdsFirst(cs[2..]);
  }

  /** The ids list-2 of the mock board renders with. */
  lemma MockTaskIds()
    ensures AllTaskIds(MockBoard()[1]) == ["task-4", "task-5", "task-8", "task-9", "task-10", "task-6", "task-7"]
  {
    var ts := MockBoard()[1].uncompletedTasks;
    MockSubtreeIds();
    ForestIdsFirst(ts);
    ForestIdsFirst(ts[1..]);
    ForestIdsFirst(ts[2..]);
    ForestIdsFirst(ts[3..]);
  }

  /** Keyboard navigation on list-2 walks into and out of task-5's subtree. */
  lemma MockFlatNavigation()
    ensures FlatNextId(AllTaskIds(MockBoard()[1]), "task-5") == Some("task-8")
    ensures FlatPreviousId(AllTaskIds(MockBoard()[1]), "task-6") == Some("task-10")
  {
    MockTaskIds();
    var ids := AllTaskIds(MockBoard()[1]);
    assert IndexOf(ids, "task-5") == 1;
    assert IndexOf(ids, "task-6") == 5;
  }

  // ---------------------------------------------------------------------------
  // Reorder actions

  function MoveListLeft(listIndex: int): (a: Action)
    ensures a.ListMoved? && a.startIndex == listIndex && a.endIndex == listIndex - 1
  {
    ListMoved(listIndex, listIndex - 1)
  }

  function MoveListRight(listIndex: int): (a: Action)
    ensures a.ListMoved? && a.startIndex == listIndex && a.endIndex == listIndex + 1
  {
    ListMoved(listIndex, listIndex + 1)
  }

  /** The menu item is disabled when `listIndex === 0`: for a list on the
      board, it is enabled exactly when the list has a left neighbour. */
  function MoveLeftEnabled(listIndex: int): (enabled: bool)
    ensures 0 <= listIndex ==> (enabled <==> listIndex >= 1)
  {
    listIndex != 0
  }

  /** The menu item is disabled when `listIndex === boardLength - 1`: for a
      list on the board, it is enabled exactly when the list has a right
      neighbour. */
  function MoveRightEnabled(listIndex: int, boardLength: int): (enabled: bool)
    ensures listIndex < boardLength ==> (enabled <==> listIndex + 1 < boardLength)
  {
    listIndex != boardLength - 1
  }

  /** For a list on the board, an enabled move stays on the board. */
  lemma EnabledMovesStayOnBoard(listIndex: int, boardLength: int)
    requires 0 <= listIndex < boardLength
    ensures MoveLeftEnabled(listIndex) <==> 0 <= MoveListLeft(listIndex).endIndex < boardLength
    ensures MoveRightEnabled(listIndex, boardLength) <==> 0 <= MoveListRight(listIndex).endIndex < boardLength
  {
  }

  /** The `list/moved` branch of the reducer in `context.tsx` on an action
      that carries only `startIndex` and `endIndex`: `fromIndex` and
      `toIndex` read as `undefined`, no index equals `undefined` so the
      filter keeps every list, and `splice(undefined, 0, undefined)` inserts
      an `undefined` entry in front (`None` here). */
  function ListMovedWithoutIndices(lists: Context.Board): (r: seq<Option<Context.List>>)
    ensures |r| == |lists| + 1 && r[0] == None
    ensures forall i :: 0 <= i < |lists| ==> r[i + 1] == Some(lists[i])
  {
    [None] + Present(lists)
  }

  function Present(lists: Context.Board): (r: seq<Option<Context.List>>)
    ensures |r| == |lists|
  {
    seq(|lists|, i requires 0 <= i < |lists| => Some(lists[i]))
  }

  /** The menu's move-right on a two-list board, as written: the reducer
      does not swap the lists, it returns three entries, the first `undefined`. */
  lemma MenuMoveAsWrittenAddsUndefined(lists: Context.Board)
    requires |lists| == 2
    ensures var r := ListMovedWithoutIndices(lists);
            |r| == 3 && r[0] == None && r != Present(Context.MoveList(lists, 0, 1))
  {
  }

  /** The `list/moved` action the reducer reads, with the menu's
      `startIndex`/`endIndex` as its `fromIndex`/`toIndex`. */
  function ReducerListMoved(a: Action): (r: Context.Action)
    requires a.ListMoved?
    ensures r.ListMoved? && r.fromIndex == a.startIndex && r.toIndex == a.endIndex
  {
    Context.ListMoved(a.startIndex, a.endIndex)
  }

  /** With the indices read under the names the menu sends, an enabled
      "Move left" swaps the list with its left neighbour. */
  lemma MenuMoveLeftSwaps(lists: Context.Board, listIndex: int)
    requires 0 <= listIndex < |lists| && MoveLeftEnabled(listIndex)
    ensures Context.BoardReducer(lists, ReducerListMoved(MoveListLeft(listIndex)))
            == lists[..listIndex - 1] + [lists[listIndex], lists[listIndex - 1]] + lists[listIndex + 1..]
  {
    ContextLaws.MoveListLeftSwaps(lists, listIndex);
  }

  /** ... and an enabled "Move right" swaps it with its right neighbour. */
  lemma MenuMoveRightSwaps(lists: Context.Board, listIndex: int)
    requires 0 <= listIndex < |lists| && MoveRightEnabled(listIndex, |lists|)
    ensures Context.BoardReducer(lists, ReducerListMoved(MoveListRight(listIndex)))
            == lists[..listIndex] + [lists[listIndex + 1], lists[listIndex]] + lists[listIndex + 2..]
  {
    ContextLaws.MoveListRightSwaps(lists, listIndex);
  }

  /** Moving right then left from the new position gives the board back. */
  lemma MenuMoveRightThenLeft(lists: Context.Board, listIndex: int)
    requires 0 <= listIndex < |lists| && MoveRightEnabled(listIndex, |lists|)
    ensures var moved := Context.BoardReducer(lists, ReducerListMoved(MoveListRight(listIndex)));
            Context.BoardReducer(moved, ReducerListMoved(MoveListLeft(listIndex + 1))) == lists
  {
    var moved := Context.MoveList(lists, listIndex, listIndex + 1);
    assert Context.BoardReducer(lists, ReducerListMoved(MoveListRight(listIndex))) == moved;
    assert Context.BoardReducer(moved, ReducerListMoved(MoveListLeft(listIndex + 1)))
        == Context.MoveList(moved, listIndex + 1, listIndex);
    ContextLaws.MoveListInverse(lists, listIndex, listIndex + 1);
  }

  // ---------------------------------------------------------------------------
  // The categorize fallback

  function ListIds(lists: Board): (r: seq<string>)
    ensures |r| == |lists| && forall i :: 0 <= i < |lists| ==> r[i] == lists[i].id
  {
    seq(|lists|, i requires 0 <= i < |lists| => lists[i].id)
  }

  function ListNames(lists: Board): (r: seq<string>)
    ensures |r| == |lists| && forall i :: 0 <= i < |lists| ==> r[i] == lists[i].name
  {
    seq(|lists|, i requires 0 <= i < |lists| => lists[i].name)
  }

  /** The destination for a task whose categorised list name is
      `destinationListName`: the id of the first list with that name, or the
      current list when no list has it. */
  function DestinationListId(lists: Board, listId: string, destinationListName: string): (r: string)
    ensures destinationListName !in ListNames(lists) ==> r == listId
    ensures forall k :: (0 <= k < |lists| && ListNames(lists)[k] == destinationListName
                         && destinationListName !in ListNames(lists)[..k]) ==> r == lists[k].id
  {
    var index := IndexOf(ListNames(lists), destinationListName);
    if index != -1 then ListIds(lists)[index] else listId
  }

  /** The destination is always the current list or a list on the board
      carrying the categorised name. */
  lemma DestinationIsNamedOrCurrent(lists: Board, listId: string, destinationListName: string)
    ensures var r := DestinationListId(lists, listId, destinationListName);
            r == listId || exists k :: 0 <= k < |lists| && lists[k].id == r && lists[k].name == destinationListName
  {
    var index := IndexOf(ListNames(lists), destinationListName);
    if index != -1 {
      assert lists[index].name == destinationListName;
    }
  }

  // ---------------------------------------------------------------------------
  // Rename guard

  /** The rename dispatched when editing stops: only when the name changed. */
  function RenameListOnEditEnd(list: List, isEditing: bool, name: string): (r: Option<Action>)
    ensures r.Some? <==> !isEditing && name != list.name
    ensures r.Some? ==> r.value == ListRenamed(list.id, name)
  {
    if !isEditing && name != list.name then Some(ListRenamed(list.id, name)) else None
  }

  /** Once the rename has been applied to the list, the guard is quiet. */
  lemma RenameSettles(list: List, name: string)
    ensures RenameListOnEditEnd(list.(name := name), false, name) == None
  {
  }
}
