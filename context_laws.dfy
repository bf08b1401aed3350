/** Laws of the reducers in `context.tsx`: what each board action keeps and
    changes, task counts, and the undo/redo inverse laws. */
module ContextLaws {
  import opened Wrappers
  import opened JsArray
  import opened Context

  // ---------------------------------------------------------------------------
  // Counting over a board

  /** Replacing one list changes the board total by the difference in size. */
  lemma {:induction false} TotalTasksUpdate(lists: Board, k: int, l: List)
    requires 0 <= k < |lists|
    ensures TotalTasks(lists[k := l]) == TotalTasks(lists) - ListSize(lists[k]) + ListSize(l)
  {
    var n := |lists|;
    var u := lists[k := l];
    assert u[..n - 1] == if k == n - 1 then lists[..n - 1] else lists[..n - 1][k := l];
    if k < n - 1 {
      TotalTasksUpdate(lists[..n - 1], k, l);
    }
  }

  /** Occurrences of an id in the tasks of a board. */
  function BoardCountId(lists: Board, id: int): nat {
    if lists == [] then 0
    else
      BoardCountId(lists[..|lists| - 1], id)
      + CountId(lists[|lists| - 1].uncompletedTasks, id) + CountId(lists[|lists| - 1].completedTasks, id)
  }

  lemma {:induction false} CountIdBound(ts: seq<Task>, id: int)
    ensures CountId(ts, id) <= |ts|
  {
    if ts != [] { CountIdBound(ts[1..], id); }
  }

  /** A task id held once makes `CountId` equal to one. */
  lemma {:induction false} CountIdUnique(ts: seq<Task>, k: int)
    requires UniqueTaskIds(ts) && 0 <= k < |ts|
    ensures CountId(ts, ts[k].id) == 1
  {
    var id := ts[k].id;
    if k == 0 {
      CountIdAbsent(ts[1..], id);
    } else {
      CountIdUnique(ts[1..], k - 1);
    }
  }

  lemma {:induction false} CountIdAbsent(ts: seq<Task>, id: int)
    requires forall t :: t in ts ==> t.id != id
    ensures CountId(ts, id) == 0
  {
    if ts != [] { CountIdAbsent(ts[1..], id); }
  }

  /** task/deleted removes exactly the tasks carrying the id, board-wide. */
  lemma {:induction false} DeleteTaskCount(lists: Board, taskId: int)
    ensures TotalTasks(DeleteTask(lists, taskId)) == TotalTasks(lists) - BoardCountId(lists, taskId)
  {
    var n := |lists|;
    if n > 0 {
      var r := DeleteTask(lists, taskId);
      assert DeleteTask(lists[..n - 1], taskId) == r[..n - 1];
      DeleteTaskCount(lists[..n - 1], taskId);
      CountIdBound(lists[n - 1].uncompletedTasks, taskId);
      CountIdBound(lists[n - 1].completedTasks, taskId);
    }
  }

  /** task/added adds exactly one task to a board with unique list ids. */
  lemma AddTaskCount(lists: Board, listId: int, newTaskId: int)
    requires UniqueListIds(lists) && HasList(lists, listId)
    ensures TotalTasks(AddTask(lists, listId, newTaskId)) == TotalTasks(lists) + 1
  {
    var k :| 0 <= k < |lists| && lists[k].id == listId;
    var r := AddTask(lists, listId, newTaskId);
    assert r == lists[k := r[k]];
    TotalTasksUpdate(lists, k, r[k]);
  }

  // ---------------------------------------------------------------------------
  // list/deleted

  /** list/deleted keeps exactly the lists whose id differs. */
  lemma {:induction false} DeleteListMembers(lists: Board, listId: int)
    ensures forall l :: l in DeleteList(lists, listId) <==> l in lists && l.id != listId
  {
    if lists != [] {
      DeleteListMembers(lists[1..], listId);
      assert lists == [lists[0]] + lists[1..];
    }
  }

  /** Deleting an id no list carries changes nothing. */
  lemma {:induction false} DeleteListAbsent(lists: Board, listId: int)
    requires !HasList(lists, listId)
    ensures DeleteList(lists, listId) == lists
  {
    if lists != [] {
      var tail := lists[1..];
      assert !HasList(tail, listId) by {
        forall i | 0 <= i < |tail| ensures tail[i].id != listId {
          assert tail[i] == lists[i + 1];
        }
      }
      DeleteListAbsent(tail, listId);
      assert lists[0].id != listId;
      assert [lists[0]] + tail == lists;
    }
  }

  lemma {:induction false} DeleteListAppend(a: Board, b: Board, listId: int)
    ensures DeleteList(a + b, listId) == DeleteList(a, listId) + DeleteList(b, listId)
  {
    if a == [] {
      assert a + b == b;
    } else {
      var rest := a[1..];
      assert (a + b)[0] == a[0] && (a + b)[1..] == rest + b;
      var head := if a[0].id != listId then [a[0]] else [];
      assert DeleteList(a + b, listId) == head + DeleteList(rest + b, listId);
      assert DeleteList(a, listId) == head + DeleteList(rest, listId);
      DeleteListAppend(rest, b, listId);
      assert head + (DeleteList(rest, listId) + DeleteList(b, listId))
          == (head + DeleteList(rest, listId)) + DeleteList(b, listId);
    }
  }

  lemma UniqueListIdsTail(lists: Board)
    requires UniqueListIds(lists) && |lists| > 0
    ensures UniqueListIds(lists[1..])
    ensures forall i :: 0 <= i < |lists[1..]| ==> lists[1..][i].id != lists[0].id
  {
    var tail := lists[1..];
    forall i | 0 <= i < |tail| ensures tail[i] == lists[i + 1] { }
  }

  /** Deleting the id of the head of a board with unique ids drops the head. */
  lemma DeleteListHead(lists: Board)
    requires UniqueListIds(lists) && |lists| > 0
    ensures DeleteList(lists, lists[0].id) == lists[1..]
  {
    UniqueListIdsTail(lists);
    assert !HasList(lists[1..], lists[0].id);
    DeleteListAbsent(lists[1..], lists[0].id);
  }

  /** With unique ids, deleting a present list removes exactly its slot and
      keeps the others in order. */
  lemma {:induction false} DeleteListRemovesSlot(lists: Board, k: int)
    requires UniqueListIds(lists) && 0 <= k < |lists|
    ensures DeleteList(lists, lists[k].id) == lists[..k] + lists[k + 1..]
  {
    if k == 0 {
      DeleteListHead(lists);
    } else {
      var tail := lists[1..];
      UniqueListIdsTail(lists);
      assert tail[k - 1] == lists[k];
      DeleteListRemovesSlot(tail, k - 1);
      var id := lists[k].id;
      assert lists[0].id != id;
      assert DeleteList(lists, id) == [lists[0]] + DeleteList(tail, id);
      assert lists[..k] == [lists[0]] + tail[..k - 1];
      assert lists[k + 1..] == tail[k..];
      assert [lists[0]] + (tail[..k - 1] + tail[k..]) == lists[..k] + lists[k + 1..];
    }
  }

  // ---------------------------------------------------------------------------
  // list/moved

  /** Moving a list back to where it came from restores the board. */
  lemma MoveListInverse(lists: Board, i: int, j: int)
    requires 0 <= i < |lists| && 0 <= j < |lists|
    ensures MoveList(MoveList(lists, i, j), j, i) == lists
  {
    var r := MoveList(lists, i, j);
    assert SpliceStart(j, |lists| - 1) == j;
    assert RemoveAt(r, j) == RemoveAt(lists, i);
    SpliceRemoved(lists, i);
  }

  /** Moving list `i` to `i - 1` (the "move left" request) swaps it with its
      left neighbour. */
  lemma MoveListLeftSwaps(lists: Board, i: int)
    requires 0 < i < |lists|
    ensures MoveList(lists, i, i - 1) == lists[..i - 1] + [lists[i], lists[i - 1]] + lists[i + 1..]
  {
    var r := MoveList(lists, i, i - 1);
    var s := lists[..i - 1] + [lists[i], lists[i - 1]] + lists[i + 1..];
    assert SpliceStart(i - 1, |lists| - 1) == i - 1;
    var q := RemoveAt(lists, i);
    forall j | 0 <= j < |lists| ensures r[j] == s[j] {
      if j < i - 1 {
        assert r[j] == r[..i - 1][j] == q[..i - 1][j] == q[j] == lists[j];
      } else if j == i {
        assert r[j] == r[i..][0] == q[i - 1..][0] == q[i - 1] == lists[i - 1];
      } else if j > i {
        assert r[j] == r[i..][j - i] == q[i - 1..][j - i] == q[j - 1] == lists[j];
      }
    }
  }

  /** Moving list `i` to `i + 1` (the "move right" request) swaps it with its
      right neighbour. */
  lemma MoveListRightSwaps(lists: Board, i: int)
    requires 0 <= i < |lists| - 1
    ensures MoveList(lists, i, i + 1) == lists[..i] + [lists[i + 1], lists[i]] + lists[i + 2..]
  {
    var r := MoveList(lists, i, i + 1);
    var s := lists[..i] + [lists[i + 1], lists[i]] + lists[i + 2..];
    assert SpliceStart(i + 1, |lists| - 1) == i + 1;
    var q := RemoveAt(lists, i);
    forall j | 0 <= j < |lists| ensures r[j] == s[j] {
      if j <= i {
        assert r[j] == r[..i + 1][j] == q[..i + 1][j] == q[j];
      } else if j > i + 1 {
        assert r[j] == r[i + 2..][j - i - 2] == q[i + 1..][j - i - 2] == q[j - 1] == lists[j];
      }
    }
  }

  // ---------------------------------------------------------------------------
  // list/renamed and task/renamed

  /** Renaming an absent list changes nothing. */
  lemma RenameListAbsent(lists: Board, listId: int, name: string)
    requires !HasList(lists, listId)
    ensures RenameList(lists, listId, name) == lists
  {
    var r := RenameList(lists, listId, name);
    forall i | 0 <= i < |lists| ensures r[i] == lists[i] {
      assert lists[i].id != listId;
    }
  }

  /** A second rename of the same list overrides the first. */
  lemma RenameListTwice(lists: Board, listId: int, a: string, b: string)
    ensures RenameList(RenameList(lists, listId, a), listId, b) == RenameList(lists, listId, b)
  {
    var l := RenameList(RenameList(lists, listId, a), listId, b);
    var r := RenameList(lists, listId, b);
    forall i | 0 <= i < |lists| ensures l[i] == r[i] { }
  }

  /** task/renamed keeps every task's id and done flag, so the ids and sizes
      of all collections stay the same. */
  lemma RenameTaskKeepsShape(lists: Board, taskId: int, text: string)
    ensures TotalTasks(RenameTask(lists, taskId, text)) == TotalTasks(lists)
    ensures BoardTaskIds(RenameTask(lists, taskId, text)) == BoardTaskIds(lists)
  {
    var n := |lists|;
    if n > 0 {
      var r := RenameTask(lists, taskId, text);
      assert RenameTask(lists[..n - 1], taskId, text) == r[..n - 1];
      RenameTaskKeepsShape(lists[..n - 1], taskId, text);
    }
  }

  // ---------------------------------------------------------------------------
  // task/moved

  /** What the count law needs of a task/moved request: unique list ids,
      both lists present, the index in range and the moved task's id held
      once in its list. */
  predicate MoveWellFormed(lists: Board, fromListId: int, fromIndex: int, toListId: int) {
    && UniqueListIds(lists)
    && HasList(lists, toListId)
    && MoveSourceValid(lists, fromListId, fromIndex)
    && forall i :: 0 <= i < |lists| && lists[i].id == fromListId ==> UniqueTaskIds(lists[i].uncompletedTasks)
  }

  /** The removal pass of task/moved detaches exactly one task. */
  lemma RemoveMovedCount(lists: Board, fromListId: int, fromIndex: int, kf: int)
    requires MoveSourceValid(lists, fromListId, fromIndex) && UniqueListIds(lists)
    requires 0 <= kf < |lists| && lists[kf].id == fromListId
    requires UniqueTaskIds(lists[kf].uncompletedTasks)
    ensures TotalTasks(RemoveMoved(lists, fromListId, fromIndex)) == TotalTasks(lists) - 1
  {
    var mid := RemoveMoved(lists, fromListId, fromIndex);
    assert mid == lists[kf := mid[kf]];
    CountIdUnique(lists[kf].uncompletedTasks, fromIndex);
    TotalTasksUpdate(lists, kf, mid[kf]);
  }

  /** The insertion pass of task/moved attaches exactly one task. */
  lemma InsertMovedCount(lists: Board, toListId: int, toIndex: int, t: Task, kt: int)
    requires UniqueListIds(lists) && 0 <= kt < |lists| && lists[kt].id == toListId
    ensures TotalTasks(InsertMoved(lists, toListId, toIndex, t)) == TotalTasks(lists) + 1
  {
    var r := InsertMoved(lists, toListId, toIndex, t);
    assert r == lists[kt := r[kt]];
    TotalTasksUpdate(lists, kt, r[kt]);
  }

  /** task/moved over a well-formed board detaches exactly one task and
      attaches exactly one: the board total is unchanged. */
  lemma MoveTaskPreservesCount(lists: Board, fromListId: int, fromIndex: int, toListId: int, toIndex: int)
    requires MoveWellFormed(lists, fromListId, fromIndex, toListId)
    ensures TotalTasks(MoveTask(lists, fromListId, fromIndex, toListId, toIndex)) == TotalTasks(lists)
  {
    var kf :| 0 <= kf < |lists| && lists[kf].id == fromListId;
    var kt :| 0 <= kt < |lists| && lists[kt].id == toListId;
    var t := TaskToMove(lists, fromListId, fromIndex);
    var mid := RemoveMoved(lists, fromListId, fromIndex);
    RemoveMovedCount(lists, fromListId, fromIndex, kf);
    assert UniqueListIds(mid) by {
      forall i, j | 0 <= i < j < |mid| ensures mid[i].id != mid[j].id {
        assert mid[i].id == lists[i].id && mid[j].id == lists[j].id;
      }
    }
    InsertMovedCount(mid, toListId, toIndex, t, kt);
  }

  /** task/moved over a well-formed board: the moved task is the one that
      stood at `fromIndex`, it lands at the clamped `toIndex` of the
      destination, and the destination's other tasks keep their order. */
  lemma MoveTaskPlacement(lists: Board, fromListId: int, fromIndex: int, toListId: int, toIndex: int, kf: int, kt: int)
    requires MoveWellFormed(lists, fromListId, fromIndex, toListId)
    requires 0 <= kf < |lists| && lists[kf].id == fromListId
    requires 0 <= kt < |lists| && lists[kt].id == toListId
    ensures var r := MoveTask(lists, fromListId, fromIndex, toListId, toIndex);
            var before := RemoveMoved(lists, fromListId, fromIndex)[kt].uncompletedTasks;
            var k := SpliceStart(toIndex, |before|);
            && r[kt].uncompletedTasks[k] == lists[kf].uncompletedTasks[fromIndex]
            && RemoveAt(r[kt].uncompletedTasks, k) == before
            && (kf != kt ==> before == lists[kt].uncompletedTasks)
            && (kf == kt ==> before == WithoutTask(lists[kf].uncompletedTasks, lists[kf].uncompletedTasks[fromIndex].id))
            && (kf != kt ==> r[kf].uncompletedTasks
                             == WithoutTask(lists[kf].uncompletedTasks, lists[kf].uncompletedTasks[fromIndex].id))
  {
    var t := TaskToMove(lists, fromListId, fromIndex);
    var i :| 0 <= i < |lists| && lists[i].id == fromListId
             && t == lists[i].uncompletedTasks[fromIndex]
             && forall j :: i < j < |lists| ==> lists[j].id != fromListId;
    assert i == kf;
    var before := RemoveMoved(lists, fromListId, fromIndex)[kt].uncompletedTasks;
    RemoveSpliced(before, toIndex, t);
    if kf != kt {
      assert lists[kf].id != toListId;
    }
  }

  // ---------------------------------------------------------------------------
  // task/toggled

  /** Toggling keeps the number of tasks of a list whose collections hold
      each id at most once. */
  lemma ToggleInListKeepsSize(l: List, taskId: int)
    requires UniqueTaskIds(l.uncompletedTasks) && UniqueTaskIds(l.completedTasks)
    ensures ListSize(ToggleInList(l, taskId)) == ListSize(l)
  {
    if HasTask(l.uncompletedTasks, taskId) {
      var k :| 0 <= k < |l.uncompletedTasks| && l.uncompletedTasks[k].id == taskId;
      CountIdUnique(l.uncompletedTasks, k);
    } else if HasTask(l.completedTasks, taskId) {
      var k :| 0 <= k < |l.completedTasks| && l.completedTasks[k].id == taskId;
      CountIdUnique(l.completedTasks, k);
    }
  }

  /** A toggled uncompleted task leaves the uncompleted tasks and heads the
      completed ones; a toggled completed task (not also uncompleted) does
      the reverse. */
  lemma ToggleInListSwitchesSide(l: List, taskId: int)
    ensures HasTask(l.uncompletedTasks, taskId) ==>
              !HasTask(ToggleInList(l, taskId).uncompletedTasks, taskId)
              && HasTask(ToggleInList(l, taskId).completedTasks, taskId)
    ensures !HasTask(l.uncompletedTasks, taskId) && HasTask(l.completedTasks, taskId) ==>
              HasTask(ToggleInList(l, taskId).uncompletedTasks, taskId)
              && !HasTask(ToggleInList(l, taskId).completedTasks, taskId)
  {
    var r := ToggleInList(l, taskId);
    if HasTask(l.uncompletedTasks, taskId) {
      assert r.completedTasks[0].id == taskId;
      WithoutTaskHasNot(l.uncompletedTasks, taskId);
    } else if HasTask(l.completedTasks, taskId) {
      assert r.uncompletedTasks[0].id == taskId;
      WithoutTaskHasNot(l.completedTasks, taskId);
    }
  }

  lemma WithoutTaskHasNot(ts: seq<Task>, id: int)
    ensures !HasTask(WithoutTask(ts, id), id)
  {
  }

  /** One step of the filter: the head is kept exactly when its id differs. */
  lemma WithoutTaskStep(ts: seq<Task>, id: int)
    requires ts != []
    ensures WithoutTask(ts, id) == (if ts[0].id != id then [ts[0]] else []) + WithoutTask(ts[1..], id)
  {
  }

  /** `filter` distributes over concatenation: the kept tasks keep their
      order and their multiplicities. */
  lemma {:induction false} WithoutTaskAppend(a: seq<Task>, b: seq<Task>, id: int)
    ensures WithoutTask(a + b, id) == WithoutTask(a, id) + WithoutTask(b, id)
  {
    if a == [] {
      assert a + b == b;
    } else {
      var ab := a + b;
      assert ab[1..] == a[1..] + b;
      WithoutTaskStep(ab, id);
      WithoutTaskStep(a, id);
      WithoutTaskAppend(a[1..], b, id);
      ConcatAssoc(if a[0].id != id then [a[0]] else [], WithoutTask(a[1..], id), WithoutTask(b, id));
    }
  }

  /** A single task is kept exactly when its id differs. */
  lemma WithoutTaskSingle(t: Task, id: int)
    ensures WithoutTask([t], id) == if t.id != id then [t] else []
  {
    assert [t][1..] == [];
  }

  /** Filtering out the id of the unique head task drops just the head. */
  lemma WithoutUniqueHead(ts: seq<Task>)
    requires |ts| > 0 && UniqueTaskIds(ts)
    ensures WithoutTask(ts, ts[0].id) == ts[1..]
  {
    var id, tail := ts[0].id, ts[1..];
    assert !HasTask(tail, id) by {
      forall i | 0 <= i < |tail| ensures tail[i].id != id {
        assert tail[i] == ts[i + 1];
      }
    }
    assert WithoutTask(tail, id) == tail;
    assert WithoutTask(ts, id) == [] + WithoutTask(tail, id);
  }

  /** Toggling twice brings a task at the head of the uncompleted tasks back
      where it was, provided its id is unique there, absent from the
      completed tasks, and it was not done. */
  lemma ToggleTwiceAtHead(l: List, taskId: int)
    requires UniqueTaskIds(l.uncompletedTasks) && |l.uncompletedTasks| > 0
    requires !HasTask(l.completedTasks, taskId)
    requires l.uncompletedTasks[0].id == taskId && !l.uncompletedTasks[0].done
    ensures ToggleInList(ToggleInList(l, taskId), taskId) == l
  {
    var us := l.uncompletedTasks;
    assert HasTask(us, taskId);
    assert FirstWithId(us, taskId) == Some(us[0]);
    WithoutUniqueHead(us);
    var m := ToggleInList(l, taskId);
    assert m.uncompletedTasks == us[1..];
    assert m.completedTasks == [us[0].(done := true)] + l.completedTasks;
    WithoutTaskHasNot(us, taskId);
    assert !HasTask(m.uncompletedTasks, taskId);
    assert HasTask(m.completedTasks, taskId);
    assert FirstWithId(m.completedTasks, taskId) == Some(us[0].(done := true));
    assert WithoutTask(m.completedTasks, taskId) == l.completedTasks by {
      var cs := m.completedTasks;
      assert cs[0].id == taskId && cs[1..] == l.completedTasks;
    }
    assert [us[0]] + us[1..] == us;
  }

  // ---------------------------------------------------------------------------
  // The history reducer

  lemma HistoryLengthStep(h: History, a: Action)
    requires HistoryActionApplicable(h, a)
    ensures var r := HistoryReducer(h, a);
            a.BoardUndo? || a.BoardRedo? ==> |r.past| + 1 + |r.future| == |h.past| + 1 + |h.future|
    ensures !a.BoardUndo? && !a.BoardRedo? ==> |HistoryReducer(h, a).past| == |h.past| + 1
  {
    var r := HistoryReducer(h, a);
    if a.BoardUndo? {
      assert |r.past| + 1 == |h.past|;
    } else if a.BoardRedo? {
      assert 1 + |r.future| == |h.future|;
    }
  }

  /** Undoing an edit gives back the history's past and present, and keeps
      the edited board for redo. */
  lemma UndoAfterEdit(h: History, a: Action)
    requires !a.BoardUndo? && !a.BoardRedo? && BoardActionApplicable(h.present, a)
    ensures var u := HistoryReducer(HistoryReducer(h, a), BoardUndo);
            u.past == h.past && u.present == h.present && u.future == [BoardReducer(h.present, a)]
  {
    var s := HistoryReducer(h, a);
    assert s.past[..|s.past| - 1] == h.past;
  }

  /** Redo undoes an undo. */
  lemma RedoAfterUndo(h: History)
    requires |h.past| > 0
    ensures HistoryReducer(HistoryReducer(h, BoardUndo), BoardRedo) == h
  {
    var u := HistoryReducer(h, BoardUndo);
    assert u.past + [u.present] == h.past;
  }

  /** Undo undoes a redo. */
  lemma UndoAfterRedo(h: History)
    requires |h.future| > 0
    ensures HistoryReducer(HistoryReducer(h, BoardRedo), BoardUndo) == h
  {
    var r := HistoryReducer(h, BoardRedo);
    assert r.past[..|r.past| - 1] == h.past;
    assert [r.present] + r.future == h.future;
  }

  /** Undo then edit: the undone board is gone from the future. */
  lemma EditAfterUndoClearsFuture(h: History, a: Action)
    requires |h.past| > 0 && !a.BoardUndo? && !a.BoardRedo?
    requires BoardActionApplicable(h.past[|h.past| - 1], a)
    ensures var r := HistoryReducer(HistoryReducer(h, BoardUndo), a);
            r.future == [] && r.past == h.past && r.present == BoardReducer(h.past[|h.past| - 1], a)
  {
    var u := HistoryReducer(h, BoardUndo);
    assert u.past + [u.present] == h.past;
  }

  /** Rename, undo and redo on the seeded board. */
  lemma UndoChainScenario()
    ensures var h0 := InitialHistory();
            var h1 := HistoryReducer(h0, ListRenamed(1, "Kyoto Adventure"));
            var h2 := HistoryReducer(h1, BoardUndo);
            var h3 := HistoryReducer(h2, BoardRedo);
            && h1.present[0].name == "Kyoto Adventure" && |h1.past| == 1 && |h1.future| == 0
            && h2.present[0].name == "Day off in Kyoto" && |h2.past| == 0 && |h2.future| == 1
            && h3.present[0].name == "Kyoto Adventure" && |h3.past| == 1 && |h3.future| == 0
  {
  }
}
