# Kanban board state engine in Dafny

This project models the core state logic of a kanban board application. A
board is a sequence of lists. Each list has an id, a name, its uncompleted
tasks and its completed tasks. The model covers three parts:

- `context.tsx`. `boardReducer` turns a board and an action into a new board:
  delete, move and rename a list; add, delete, move, rename and toggle a task.
  `historyReducer` wraps it with an undo/redo history of past boards, the
  present board and future boards. `initialBoard` is the starting state. This
  file works on a flat variant of the data: tasks have integer ids and a
  `done` flag.
- `task.tsx`. These are the pure parts of the task component:
  - `countDescendants`;
  - the flat previous and next ids used for keyboard navigation;
  - the props a task passes to its children;
  - the keyboard move commands (indent, unindent, to top, up, down, to bottom,
    to another list), which each build a tree-shaped `task/moved` action;
  - the guard that sends a rename only when the text changed.
- `list.tsx`. These are the pure parts of the list component:
  - the pre-order flattening of a list's task forest into `taskIds`;
  - the move-left and move-right actions, and the menu's enabled state for
    them;
  - the fallback from a categorised list name to a list id;
  - the rename guard.

Modules:

- `Wrappers` holds `Option` and `Result`. A `tiny-invariant` guard in the
  source becomes a `Failure` carrying the guard's message.
- `JsArray` holds the JavaScript array operations the source uses:
  - `indexOf`, which returns the first index or -1;
  - `splice(start, 0, x)`, including its clamping of the start index;
  - removal by index.
- `Context` holds both reducers. `ContextLaws` holds the lemmas about them.
- `TreeTypes` holds the tree-shaped types the components work on, and the
  mock board their tests render.
- `TaskComponent` models `task.tsx`. `ListComponent` models `list.tsx`.

Four inputs from outside are parameters of the model:

- the new task's id, which the source takes from `Date.now()`;
- the typed text of a rename;
- the editing flag;
- the list name returned by the categorisation service.

`findTask` is imported by `task.tsx`, and its body is not part of this model.
The builders therefore take it as a function parameter `find`. They rely on
one fact about it: a task it returns has the requested id (`FindsRequested`).

JavaScript truthiness of a `string | null` value is written out as `Truthy`:
`null` and `""` are both falsy. `x ?? y` replaces only `null` and
`undefined`.

## Model

| member | source | states |
|---|---|---|
| JsArray.IndexOf | src/systems/kanban/components/task.tsx:119 | -1 exactly when the value is absent; otherwise the first position holding it |
| JsArray.SpliceInsert | src/systems/kanban/context.tsx:100-101 | `splice(start, 0, x)`: the value lands at the clamped start, the elements before it are kept, the rest shift right by one, and the contents gain exactly `x` |
| JsArray.RemoveAt | src/systems/kanban/context.tsx:97-98 | filtering out index `i` drops exactly that element and keeps the order of the others |
| JsArray.RemoveSpliced | src/systems/kanban/context.tsx:97-101 | removing the element just spliced in gives back the original sequence |
| JsArray.SpliceRemoved | src/systems/kanban/context.tsx:97-101 | splicing a removed element back at its index gives back the original sequence |
| Context.WithoutTask | src/systems/kanban/context.tsx:128-134 | `filter(task.id !== id)`: a task is kept exactly when its id differs, the result shortens by the number of matching tasks, and it is the identity when none match (order and multiplicity: `ContextLaws.WithoutTaskAppend`, `ContextLaws.WithoutTaskSingle`) |
| Context.FirstWithId | src/systems/kanban/context.tsx:184-189 | finds a task exactly when one has the id, and returns one with that id |
| Context.RenameIn | src/systems/kanban/context.tsx:172-176 | renames the tasks with the id and changes nothing else |
| Context.MoveList | src/systems/kanban/context.tsx:92-102 | a permutation of the board with the moved list at the clamped `toIndex`, and the other lists in their old order |
| Context.RenameList | src/systems/kanban/context.tsx:104-108 | renames the lists with the id; ids and tasks unchanged |
| Context.AddTask | src/systems/kanban/context.tsx:110-123 | prepends `New task` (not done, with the given id) to the uncompleted tasks of each list with the id; other lists unchanged |
| Context.DeleteTask | src/systems/kanban/context.tsx:125-136 | each list keeps its id and name, and each of its two task collections becomes `WithoutTask` of the old one, so the other tasks keep their order and multiplicity |
| Context.TaskToMove | src/systems/kanban/context.tsx:144-146 | the task is taken from a list with the source id, at `fromIndex` |
| Context.RemoveMoved | src/systems/kanban/context.tsx:144-155 | each source list loses the moved task's id; other lists unchanged |
| Context.InsertMoved | src/systems/kanban/context.tsx:157-165 | each destination list gets the task spliced in at `toIndex`; other lists unchanged |
| Context.MoveTask | src/systems/kanban/context.tsx:138-166 | same number of lists, same list ids and names; lists that are neither source nor destination are unchanged |
| Context.RenameTask | src/systems/kanban/context.tsx:168-179 | renames the task in both collections of every list and keeps the shape |
| Context.ToggleInList | src/systems/kanban/context.tsx:181-219 | when an uncompleted task has the id, the first such task, with `done` set, is put in front of the old completed tasks and the id is filtered out of the uncompleted ones; otherwise the first completed task with the id, with `done` cleared, is put in front of the old uncompleted tasks and the id is filtered out of the completed ones; otherwise the list is unchanged |
| Context.ToggleTask | src/systems/kanban/context.tsx:181-219 | applies the toggle to every list; ids and names unchanged |
| Context.DeleteList | src/systems/kanban/context.tsx:88-90 | `filter(list.id !== listId)` never lengthens the board (its members and the absent-id case: `ContextLaws.DeleteListMembers`, `ContextLaws.DeleteListAbsent`) |
| Context.NewTask | src/systems/kanban/context.tsx:117 | the added task has the given id, the text `New task` and is not done |
| Context.BoardReducer | src/systems/kanban/context.tsx:84-225 | dispatches on the action; undo, redo and unknown actions leave the board unchanged, and only `list/deleted` can change its length |
| Context.HistoryReducer | src/systems/kanban/context.tsx:53-82 | undo pops the last past board and pushes the present to the front of the future; redo does the reverse; any other action pushes the present to the past, clears the future and reduces the board |
| Context.InitialBoard | src/systems/kanban/context.tsx:5-27 | two lists with distinct ids holding seven tasks with distinct ids |
| Context.InitialHistory | src/systems/kanban/context.tsx:29-33 | empty past and future around the initial board |
| ContextLaws.TotalTasksUpdate | src/systems/kanban/context.tsx:112-122 | replacing one list changes the task total by the difference in that list's size |
| ContextLaws.CountIdBound | src/systems/kanban/context.tsx:128-134 | a count of matching tasks never exceeds the number of tasks |
| ContextLaws.CountIdUnique | src/systems/kanban/context.tsx:128-134 | with unique ids, exactly one task matches a present id |
| ContextLaws.CountIdAbsent | src/systems/kanban/context.tsx:128-134 | no task matches an absent id |
| ContextLaws.DeleteTaskCount | src/systems/kanban/context.tsx:125-136 | deleting a task removes exactly the tasks carrying its id from the board total |
| ContextLaws.AddTaskCount | src/systems/kanban/context.tsx:110-123 | with unique list ids, adding to an existing list adds exactly one task |
| ContextLaws.DeleteListMembers | src/systems/kanban/context.tsx:88-90 | the remaining lists are exactly those with a different id |
| ContextLaws.DeleteListAbsent | src/systems/kanban/context.tsx:88-90 | deleting an id no list carries leaves the board unchanged |
| ContextLaws.DeleteListAppend | src/systems/kanban/context.tsx:88-90 | deleting distributes over concatenated boards |
| ContextLaws.UniqueListIdsTail | src/systems/kanban/context.tsx:88-90 | the tail of a board with unique ids has unique ids that differ from the head's |
| ContextLaws.DeleteListHead | src/systems/kanban/context.tsx:88-90 | with unique ids, deleting the first list's id drops exactly that list |
| ContextLaws.DeleteListRemovesSlot | src/systems/kanban/context.tsx:88-90 | with unique ids, deleting a list's id removes exactly its slot |
| ContextLaws.MoveListInverse | src/systems/kanban/context.tsx:92-102 | moving a list from `i` to `j` and back restores the board |
| ContextLaws.MoveListLeftSwaps | src/systems/kanban/context.tsx:92-102 | moving a list one place left swaps it with its neighbour |
| ContextLaws.MoveListRightSwaps | src/systems/kanban/context.tsx:92-102 | moving a list one place right swaps it with its neighbour |
| ContextLaws.RenameListAbsent | src/systems/kanban/context.tsx:104-108 | renaming a missing list changes nothing |
| ContextLaws.RenameListTwice | src/systems/kanban/context.tsx:104-108 | the second rename wins |
| ContextLaws.RenameTaskKeepsShape | src/systems/kanban/context.tsx:168-179 | renaming a task keeps the board's task total and its ids in order |
| ContextLaws.RemoveMovedCount | src/systems/kanban/context.tsx:144-155 | with unique ids, removing the moved task takes exactly one task off the board |
| ContextLaws.InsertMovedCount | src/systems/kanban/context.tsx:157-165 | with unique list ids, inserting into an existing list adds exactly one task |
| ContextLaws.MoveTaskPreservesCount | src/systems/kanban/context.tsx:138-166 | a well-formed move keeps the number of tasks on the board |
| ContextLaws.MoveTaskPlacement | src/systems/kanban/context.tsx:138-166 | the moved task sits at the clamped `toIndex` of the destination, whose other tasks are those it had once the source removal is applied; a source list that is not the destination loses exactly the moved task's id |
| ContextLaws.ToggleInListKeepsSize | src/systems/kanban/context.tsx:181-219 | with unique ids, toggling keeps the list's number of tasks |
| ContextLaws.ToggleInListSwitchesSide | src/systems/kanban/context.tsx:181-219 | a toggled task leaves the collection it was in |
| ContextLaws.WithoutTaskAppend | src/systems/kanban/context.tsx:128-134 | filtering distributes over concatenation, so the kept tasks keep their order and multiplicity |
| ContextLaws.WithoutTaskSingle | src/systems/kanban/context.tsx:128-134 | a single task is kept exactly when its id differs |
| ContextLaws.WithoutUniqueHead | src/systems/kanban/context.tsx:195-197 | with unique ids, filtering out the first task's id drops exactly that task |
| ContextLaws.ToggleTwiceAtHead | src/systems/kanban/context.tsx:181-219 | toggling the first uncompleted task twice restores the list |
| ContextLaws.HistoryLengthStep | src/systems/kanban/context.tsx:53-82 | undo and redo keep the total number of boards; an edit adds one past board |
| ContextLaws.UndoAfterEdit | src/systems/kanban/context.tsx:57-80 | undo right after an edit restores the board before it |
| ContextLaws.RedoAfterUndo | src/systems/kanban/context.tsx:57-71 | redo after undo restores the whole history |
| ContextLaws.UndoAfterRedo | src/systems/kanban/context.tsx:57-71 | undo after redo restores the whole history |
| ContextLaws.EditAfterUndoClearsFuture | src/systems/kanban/context.tsx:57-80 | an edit after undo clears the future |
| ContextLaws.UndoChainScenario | src/systems/kanban/context.tsx:29-82 | from the initial history, rename list 1, undo, then redo: each step yields the expected history |
| TreeTypes.FindList | src/systems/kanban/components/task.tsx:143 | `lists.find`: none exactly when no list has the id, else the first list with it |
| TaskComponent.CountDescendants | src/systems/kanban/components/task.tsx:61-66 | a leaf has no descendants, and a task has at least as many descendants as children |
| TaskComponent.ForestCount | src/systems/kanban/components/task.tsx:62-65 | the reduce counts at least one per top-level task |
| TaskComponent.SiblingId | src/systems/kanban/components/task.tsx:686-687 | `children[i]?.id ?? null`: the sibling's id exactly when `i` is in range |
| TaskComponent.CurrentLevel | src/systems/kanban/components/task.tsx:103 | the level is 0 exactly when the task has no ancestors |
| TaskComponent.ParentId | src/systems/kanban/components/task.tsx:106-107 | present exactly at level 1 or deeper, and then the last ancestor |
| TaskComponent.GrandparentId | src/systems/kanban/components/task.tsx:104-105 | present exactly at level 2 or deeper, and then the ancestor before the parent |
| TaskComponent.ChildProps | src/systems/kanban/components/task.tsx:678-695 | a child's ancestors are the task's ancestors followed by the task, so the task is its parent and the task's parent its grandparent; its previous and next ids are the neighbouring children's ids (`SiblingId`); same list and `taskIds` |
| TaskComponent.TopLevelProps | src/systems/kanban/components/list.tsx:471-484 | a top-level task has no ancestors, so no parent and level 0; its previous and next ids are the neighbouring top-level ids (`SiblingId`); it gets the list's `taskIds` |
| TaskComponent.FlatPreviousId | src/systems/kanban/components/task.tsx:119-120 | null for an absent task or one at flat index 0; otherwise the id before its first occurrence |
| TaskComponent.FlatNextId | src/systems/kanban/components/task.tsx:119-122 | null at the last flat index, otherwise the id after the task; an absent task gets the first id |
| TaskComponent.FlatPreviousThenNext | src/systems/kanban/components/task.tsx:119-122 | with distinct ids, the flat next of the flat previous of a task is that task |
| TaskComponent.FlatNextThenPrevious | src/systems/kanban/components/task.tsx:119-122 | with distinct ids, the flat previous of the flat next of a listed task is that task |
| TaskComponent.IndentTask | src/systems/kanban/components/task.tsx:140-162 | succeeds exactly when there is a truthy previous id, the list exists and the previous task is found; fails with each guard's message in order; on success the previous sibling is the parent and its last child is the previous id (none when childless), and the task stays in the same list |
| TaskComponent.UnindentTask | src/systems/kanban/components/task.tsx:165-176 | fails exactly when there is no truthy parent; otherwise the grandparent is the parent and the old parent is the previous id |
| TaskComponent.MoveTaskToTop | src/systems/kanban/components/task.tsx:182-191 | fails exactly at level 0 with no previous sibling; otherwise moves to the top level, first position, same list |
| TaskComponent.UpSiblings | src/systems/kanban/components/task.tsx:199-204 | the siblings are the list's uncompleted tasks when the parent id is falsy; otherwise they are the found parent's children, and none exactly when the parent is not found |
| TaskComponent.MoveTaskUp | src/systems/kanban/components/task.tsx:193-216 | succeeds exactly when there is a truthy previous id, the list exists and the siblings are found; fails with each guard's message; on success keeps the parent, and the previous id is the sibling at `index - 2` (none when `index <= 1`) |
| TaskComponent.MoveTaskDown | src/systems/kanban/components/task.tsx:218-229 | fails exactly when there is no truthy next sibling; otherwise keeps the parent and puts the task after its next sibling |
| TaskComponent.MoveTaskToBottom | src/systems/kanban/components/task.tsx:231-249 | succeeds exactly when the task is nested or has a truthy next id and the list exists; fails as the guards say; on success the task goes to the top level after the list's last top-level uncompleted task |
| TaskComponent.MoveTaskToList | src/systems/kanban/components/task.tsx:255-262 | top level, first position, in the chosen list |
| TaskComponent.RenameTaskOnEditEnd | src/systems/kanban/components/task.tsx:397-403 | a rename is dispatched exactly when editing stopped and the text differs |
| TaskComponent.UnindentChild | src/systems/kanban/components/task.tsx:165-176 | a rendered child of a task with a non-empty id can be unindented, and lands right after that task under the task's own parent |
| TaskComponent.IndentChild | src/systems/kanban/components/task.tsx:140-162 | a rendered child that is not first is indented under its previous sibling |
| TaskComponent.MoveChildUp | src/systems/kanban/components/task.tsx:193-216 | a rendered child moved up goes after the sibling two places up, under the same parent |
| TaskComponent.MoveChildDown | src/systems/kanban/components/task.tsx:218-229 | a rendered child moved down goes after its next sibling, under the same parent |
| TaskComponent.MockScenarios | src/systems/kanban/components/task.test.tsx:156-352 | the actions each command builds for task-5 of list-2 on the mock board, and for task-5's first child |
| ListComponent.FlattenTasks | src/systems/kanban/components/list.tsx:101-110 | the accumulated ids are the pre-order flattening of the forest |
| ListComponent.TaskIds | src/systems/kanban/components/list.tsx:112-114 | flattened uncompleted ids then flattened completed ids, one per node of both forests |
| ListComponent.ForestIdsAppend | src/systems/kanban/components/list.tsx:101-110 | flattening distributes over concatenation, so siblings keep their order |
| ListComponent.ForestIdsSingle | src/systems/kanban/components/list.tsx:101-110 | a single task flattens to its id followed by its descendants |
| ListComponent.ForestIdsCons | src/systems/kanban/components/list.tsx:101-110 | pre-order: the first task's id, then its descendants, then the rest |
| ListComponent.SubtreeBlock | src/systems/kanban/components/list.tsx:101-110 | each task's subtree is one contiguous block, after the blocks of earlier siblings and before those of later ones |
| ListComponent.ForestIdsFirst | src/systems/kanban/components/list.tsx:101-110 | the first top-level task's block opens the flattened ids |
| ListComponent.ForestIdsLength | src/systems/kanban/components/list.tsx:101-110 | the number of flattened ids is the sum of `1 + countDescendants` over the top-level tasks |
| ListComponent.SubtreeLength | src/systems/kanban/components/task.tsx:61-66 | `countDescendants` is the number of nodes strictly below the task |
| ListComponent.MockSubtreeIds | src/systems/kanban/mocks.tsx:19-26 | task-5's subtree flattens to task-5, task-8, task-9, task-10 |
| ListComponent.MockTaskIds | src/systems/kanban/mocks.tsx:13-30 | list-2's `taskIds` are task-4, task-5, task-8, task-9, task-10, task-6, task-7 |
| ListComponent.MockFlatNavigation | src/systems/kanban/components/task.tsx:119-122 | on list-2, the flat next id of task-5 is task-8, and the flat previous id of task-6 is task-10 |
| ListComponent.MoveListLeft | src/systems/kanban/components/list.tsx:166-171 | `startIndex` is the list's index and `endIndex` the one before it |
| ListComponent.MoveListRight | src/systems/kanban/components/list.tsx:173-178 | `startIndex` is the list's index and `endIndex` the one after it |
| ListComponent.MoveLeftEnabled | src/systems/kanban/components/list.tsx:413 | for a list on the board, move-left is enabled exactly when the list is not the first |
| ListComponent.MoveRightEnabled | src/systems/kanban/components/list.tsx:421 | for a list on the board, move-right is enabled exactly when the list is not the last |
| ListComponent.EnabledMovesStayOnBoard | src/systems/kanban/components/list.tsx:413-421 | for a list on the board, each menu item is enabled exactly when its target index is on the board |
| ListComponent.ListMovedWithoutIndices | src/systems/kanban/context.tsx:92-102 | the reducer's `list/moved` branch on an action without `fromIndex`/`toIndex` leaves every list in place and puts an `undefined` entry in front |
| ListComponent.MenuMoveAsWrittenAddsUndefined | src/systems/kanban/components/list.tsx:173-178 | on a two-list board, the menu's move-right yields three entries, the first `undefined`, instead of the swap |
| ListComponent.ReducerListMoved | src/systems/kanban/components/list.tsx:166-178 | the corrected action carries the menu's indices as `fromIndex`/`toIndex` |
| ListComponent.MenuMoveLeftSwaps | src/systems/kanban/components/list.tsx:166-171 | an enabled move-left, with the corrected action, swaps the list with its left neighbour |
| ListComponent.MenuMoveRightSwaps | src/systems/kanban/components/list.tsx:173-178 | an enabled move-right, with the corrected action, swaps the list with its right neighbour |
| ListComponent.MenuMoveRightThenLeft | src/systems/kanban/components/list.tsx:166-178 | moving right, then left from the new index, restores the board |
| ListComponent.ListIds | src/systems/kanban/components/list.tsx:129 | the ids of the lists in board order |
| ListComponent.ListNames | src/systems/kanban/components/list.tsx:130 | the names of the lists in board order |
| ListComponent.DestinationListId | src/systems/kanban/components/list.tsx:144-145 | the id of the first list with the categorised name, or the current list when no list has it |
| ListComponent.DestinationIsNamedOrCurrent | src/systems/kanban/components/list.tsx:144-145 | the destination is the current list or a list on the board with that name |
| ListComponent.RenameListOnEditEnd | src/systems/kanban/components/list.tsx:239-245 | a rename is dispatched exactly when editing stopped and the name differs |
| ListComponent.RenameSettles | src/systems/kanban/components/list.tsx:239-245 | once the new name is applied, the guard dispatches nothing more |

## Findings

| source | as written | input that shows it | evidently intended | confidence | as-written member | corrected member |
|---|---|---|---|---|---|---|
| src/systems/kanban/context.tsx:92-102 with src/systems/kanban/components/list.tsx:166-178 | The reducer reads `fromIndex` and `toIndex`. The list menu sends `startIndex` and `endIndex`, which is also what the `Action` type declares for `list/moved` | Two lists; "Move right" on the first list sends `startIndex: 0, endIndex: 1`, and the reducer returns `[undefined, list-1, list-2]` | The first two lists swap | medium, not executed | ListComponent.MenuMoveAsWrittenAddsUndefined | ListComponent.MenuMoveRightSwaps |

The reducer in the finding reads every missing field as `undefined`:

- `lists[undefined]` gives the list to move as `undefined`;
- the filter keeps every list, because no index equals `undefined`;
- `splice(undefined, 0, undefined)` inserts `undefined` at index 0.

The drag-and-drop path in `board.tsx` does send `fromIndex` and `toIndex`, so
only the menu and keyboard path is affected. The corrected action
(`ListComponent.ReducerListMoved`) passes the menu's indices under the names
the reducer reads. With it, move-left and move-right swap neighbours
(`ListComponent.MenuMoveLeftSwaps`, `ListComponent.MenuMoveRightSwaps`). The
test in `context.test.tsx:188-196` dispatches `startIndex`/`endIndex` and
expects that swap.

## Code and test disagreements

Where `context.tsx` and the repository's tests or types disagree, the model
follows the code:

- Undo with an empty past and redo with an empty future:
  - The model requires a non-empty past or future (`Context.HistoryActionApplicable`).
  - The code reads `past[past.length - 1]` or `future[0]`, which is `undefined`, and makes it the present board.
  - The tests `context.test.tsx:67-76` and `context.test.tsx:112-121` expect no change.
- `types.ts:1-26` declares tree-shaped actions that the reducer in `context.tsx` does not handle:
  - `list/cleared`, `list/inserted` and `task/inserted` with `parentId`/`previousId` have no case and fall to `default`. The model represents them as `Context.Other`, which leaves the board unchanged.
  - `task/moved` as the task component builds it carries `taskId`, `parentId`, `previousId` and `destinationListId`. The reducer's `task/moved` branch reads `fromListId`, `fromIndex`, `toListId` and `toIndex` instead. With those missing, no list id matches and the lists come back as they were. `Context.MoveTask` models the flat action that the branch reads; the component's tree-shaped action is modelled only as the value the builders in `TaskComponent` return.
- The types differ. `context.tsx` works on integer task ids and a `done` flag. The components work on string ids and nested `children`. The model keeps these as two separate data models: `Context` for the reducer, `TreeTypes` for the components.

## Left out

- React plumbing is not modelled, because it is UI behaviour rather than state logic. This covers:
  - contexts, providers and hooks;
  - `useState` fields;
  - focus and selection handling;
  - hotkey wiring;
  - portals;
  - drag-and-drop setup and drop-instruction decoding.
- `console.log` in `boardReducer` is output only.
- `Date.now()` for a new task's id is a parameter (`newTaskId`).
- `distributeTasks` is not modelled: its `fetch` calls to the categorisation service and `Promise.all` are network I/O. The `list/distributed` action it sends has no case in the reducer. Only the name-to-id fallback inside it is modelled (`ListComponent.DestinationListId`).
- The task-generation and categorisation API routes are network and language-model calls.
- `findTask`'s body is not part of this model. The builders use it through the parameter `find`, and assume only that a returned task has the requested id.
- Context.DeleteList: its own contract only bounds the length. Its membership and absent-id properties are stated separately, in `ContextLaws.DeleteListMembers` and `ContextLaws.DeleteListAbsent`, so that proofs about it stay small.
- Context.HistoryReducer: requires a non-empty past for undo and a non-empty future for redo; the code makes `undefined` the present board instead.
- Context.MoveList: requires `fromIndex` on the board; the code would insert an `undefined` list instead.
- Context.MoveTask: requires a list with the source id and `fromIndex` in range in each such list; the code would fail on `taskToMove.id` or insert `undefined` instead.
- Context.BoardReducer: carries the two requirements above for `list/moved` and `task/moved`.
- `ContextLaws.ToggleTwiceAtHead` is proved only for the first uncompleted task. Toggling twice from any other position moves the task to the front, so it does not restore the list.
