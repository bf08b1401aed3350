/** The tree-shaped data model of `types.ts` that the UI components work on:
    tasks with nested children, lists holding an uncompleted forest and a
    completed collection, and the actions the components dispatch. */
module TreeTypes {
  import opened Wrappers

  datatype Task = Task(id: string, text: string, children: seq<Task>)

  datatype List = List(id: string, name: string, uncompletedTasks: seq<Task>, completedTasks: seq<Task>)

  type Board = seq<List>

  /** The actions of `types.ts` that the modelled builders produce; an
      optional field left `undefined` is `None`. */
  datatype Action =
    | ListMoved(startIndex: int, endIndex: int)
    | ListRenamed(listId: string, name: string)
    | TaskMoved(listId: string, taskId: string, parentId: Option<string>,
                previousId: Option<string>, destinationListId: Option<string>)
    | TaskRenamed(listId: string, taskId: string, text: string)

  /** JavaScript truthiness of a `string | null` value: `null` and the empty
      string are falsy. */
  predicate Truthy(s: Option<string>) {
    s.Some? && s.value != ""
  }

  /** `lists.find((list) => list.id === listId)`. */
  function FindList(lists: Board, listId: string): (r: Option<List>)
    ensures r.None? <==> forall i :: 0 <= i < |lists| ==> lists[i].id != listId
    ensures r.Some? ==> exists k :: 0 <= k < |lists| && lists[k] == r.value && r.value.id == listId
                                   && forall j :: 0 <= j < k ==> lists[j].id != listId
  {
    if lists == [] then None
    else if lists[0].id == listId then Some(lists[0])
    else
      var r := FindList(lists[1..], listId);
      assert r.None? ==> forall i :: 0 <= i < |lists| ==> lists[i].id != listId by {
        if r.None? {
          forall i | 0 <= i < |lists| ensures lists[i].id != listId {
            if i > 0 { assert lists[i] == lists[1..][i - 1]; }
          }
        }
      }
      assert r.Some? ==> exists k :: 0 <= k < |lists| && lists[k] == r.value && r.value.id == listId
                                   && forall j :: 0 <= j < k ==> lists[j].id != listId by {
        if r.Some? {
          var k :| 0 <= k < |lists[1..]| && lists[1..][k] == r.value && r.value.id == listId
                   && forall j :: 0 <= j < k ==> lists[1..][j].id != listId;
          assert lists[k + 1] == r.value;
          forall j | 0 <= j < k + 1 ensures lists[j].id != listId {
            if j > 0 { assert lists[j] == lists[1..][j - 1]; }
          }
        }
      }
      r
  }

  /** The mock board the component tests render. */
  function MockBoard(): Board {
    [ List("list-1", "Day off in Kyoto",
           [ Task("task-1", "Philosopher’s Path", []),
             Task("task-2", "Visit the temple", []) ],
           [ Task("task-3", "Drink matcha", []) ]),
      List("list-2", "Day off in Tokyo",
           [ Task("task-4", "Explore Shibuya Crossing", []),
             Task("task-5", "Visit Nezu Museum",
                  [ Task("task-8", "Visit the museum", []),
                    Task("task-9", "Visit the garden", []),
                    Task("task-10", "Visit the café", []) ]),
             Task("task-6", "Climb Tokyo Skytree", []),
             Task("task-7", "Visit Akihabara", []) ],
           []) ]
  }
}
