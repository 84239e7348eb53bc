# To-do list data layer, modelled in Dafny

This project models the in-memory data layer of the single-file to-do application
`To-DoList_DSA1.py`. It has three structures that the application keeps in step:

- the **task list**: a singly linked list of `Task` records in insertion order;
- the **search table**: a dictionary from each tag to the ordered bucket of tasks indexed under it;
- the **undo stack**: the log of reversible actions, `('add', name)` or `('delete', task)`.

The model also covers the application's `add_task`, `delete_task` and `undo` commands. They
drive all three structures, and the values typed at the prompt become parameters.

Modules, one per file:

- `Tasks` (`tasks.dfy`): the `Task` record and its normalisation of missing tags. It also has
  the task's dictionary form (`to_dict`) and the reading of a saved record back into a task.
- `TaskList` (`task_list.dfy`): `TaskNode` and `LinkedList` as classes over real `next`
  pointers. A ghost sequence of nodes and a ghost sequence of tasks (`Contents`) mirror the
  chain. The methods are proved against value-level definitions:
  - `AddTask` leaves the old contents followed by the task;
  - `DeleteTaskByName` and `FindTask` against `FirstIndex`, `Lookup` and `RemoveFirst`;
  - `ToList` against `ToDict`.
- `UndoStack` (`undo_stack.dfy`): the `Action` datatype and the `Stack` class over a `seq`.
- `TagIndex` (`tag_index.dfy`): the `HashTable` class over a `map<string, seq<Task>>`.
  Its two loops are proved against the functions `Indexed` and `Removed`. Lemmas then give
  the effect on every bucket.
- `TodoApp` (`todo_app.dfy`): the application's three globals as one `App` object. It has
  these parts:
  - The value-level steps `AddStep`, `DeleteStep` and `UndoStep`. `AddTask`, `DeleteTask`
    and `Undo` are each proved to follow their step exactly.
  - The undo round trips.
  - The conditions under which list and index stay consistent.
  - The proof that, without editing, undo never meets a missing task.

How the program behaves, as modelled here:

- **Task names are not unique.** Lookup, deletion and undo of an add all act on the first task
  in list order with the name. A later task of the same name is shadowed.
  `UndoAfterAddShadowed` shows what undo then does: it removes the EARLIER task, and the new
  task loses its search entries for the tags the two tasks share.
- **Undoing an add needs the task to still be there.** When no task of the recorded name is
  left, `delete_task_by_name` returns `None` (To-DoList_DSA1.py:207). `remove_task(None)`
  then fails on `None.tags` (To-DoList_DSA1.py:208). The undo stack has already been popped
  by then (To-DoList_DSA1.py:203), and nothing in the menu loop (To-DoList_DSA1.py:228-259)
  catches the error, so the program stops. The model makes this a precondition, `CanUndo`,
  of `UndoStep` and `App.Undo`. `Replay` proves that add, delete and undo alone never break
  the precondition, starting from any loaded list with an empty log. Only editing, which can
  rename a task, can make undo fail.
- **The index is not "one entry per task and tag".** A tag repeated in a task's tag list
  adds the task to that bucket once per occurrence. Unindexing removes every entry of the
  name from the task's buckets, including entries of other tasks that share the name.
  Undoing an add of a name no listed task has leaves the buckets that the add created in
  place, empty (`UndoAfterAdd`); when an earlier task has the name, those buckets keep the
  new task (`UndoAfterAddShadowed`).
- **Undoing a delete appends the task at the end of the list**, not at its old position.
- **The index holds only listed tasks under their own tags** (`Sound`). Add, delete and
  undo keep this, and `Replay` carries it, so it holds in every state those commands reach.
  With it, add then undo of a new name restores every search result (`UndoAfterAdd`).
- **Full consistency is conditional.** "Every bucket is exactly the list's tasks carrying that
  tag, and names are unique" is not enforced by the program. `AddKeepsConsistent`,
  `DeleteKeepsConsistent` and `UndoKeepsConsistent` state when each operation keeps it.

## Model

| member | source | states |
|---|---|---|
| Tasks.NewTask | To-DoList_DSA1.py:6-12 | every field is stored as given; the tag list is empty exactly when none or an empty list was passed, and otherwise is the list passed |
| Tasks.ToDict | To-DoList_DSA1.py:14-22 | the record has exactly the six field names, each bound to the matching field of the task: text for the five scalar fields, the tag list for `tags` |
| Tasks.FromDict | To-DoList_DSA1.py:127-134 | a record is read exactly when the five scalar keys hold text and `tags` holds a list or null; the task read is the one built from those five texts and that tag list, a null list giving no tags |
| Tasks.DictRoundTrip | To-DoList_DSA1.py:14-22 | reading back the dictionary form of a task gives that same task |
| TaskList.FirstIndex | To-DoList_DSA1.py:64-70 | `None` exactly when no task has the name; otherwise the position of a task with that name, with no earlier one having it |
| TaskList.Lookup | To-DoList_DSA1.py:44-56 | the task found is in the list, has the name, and is the task at the first position of the name; none is found exactly when no task has the name |
| TaskList.LookupFirst | To-DoList_DSA1.py:47-53 | the task found is at some position with no earlier task of the name |
| TaskList.RemoveFirst | To-DoList_DSA1.py:44-56 | the list without its first task of the name, or unchanged when none has it (its properties are in `RemoveFirstShape`) |
| TaskList.RemoveFirstShape | To-DoList_DSA1.py:44-56 | removal leaves the list unchanged when no name matches; otherwise one shorter, earlier tasks in place, later ones moved up by one, and the multiset loses exactly the removed task |
| TaskList.RemoveFirstKeeps | To-DoList_DSA1.py:44-56 | every task other than the one removed is still in the list |
| TaskList.LookupAppend | To-DoList_DSA1.py:34-56 | after appending, a lookup finds the earlier task of that name if there is one, otherwise the appended task if it has the name |
| TaskList.RemoveFirstAppend | To-DoList_DSA1.py:34-56 | after appending, removal takes the earlier task of that name if there is one, otherwise the appended task if it has the name |
| TaskList.LinkedList.constructor | To-DoList_DSA1.py:31-32 | a new list is empty and well formed |
| TaskList.TaskNode.constructor | To-DoList_DSA1.py:26-28 | a new node holds the task and has no successor |
| TaskList.LinkedList.AddTask | To-DoList_DSA1.py:34-42 | the contents become the old contents with the task appended; the chain stays well formed and every object added to its footprint is new |
| TaskList.LinkedList.DeleteTaskByName | To-DoList_DSA1.py:44-56 | returns the first task of the name (or `None`), and the sequence loses exactly that task; no node is allocated or dropped from the footprint |
| TaskList.LinkedList.UnlinkHead | To-DoList_DSA1.py:51-52 | `head` moves to the second node; the contents lose their first task |
| TaskList.LinkedList.UnlinkAfter | To-DoList_DSA1.py:49-50 | `prev.next` skips the next node; the contents lose exactly the task at that position and the chain stays well formed |
| TaskList.LinkedList.FindTask | To-DoList_DSA1.py:64-70 | returns the node at the position of the first task of that name, or null when there is none; changes nothing |
| TaskList.LinkedList.ToList | To-DoList_DSA1.py:72-78 | one record per task, in list order, each the dictionary form of that task |
| UndoStack.Stack.constructor | To-DoList_DSA1.py:82-83 | a new stack is empty |
| UndoStack.Stack.Push | To-DoList_DSA1.py:85-86 | the action goes on top, the rest unchanged |
| UndoStack.Stack.Pop | To-DoList_DSA1.py:88-91 | on an empty stack returns `None` and changes nothing; otherwise returns the top action and removes only it |
| UndoStack.LastInFirstOut | To-DoList_DSA1.py:85-91 | two pushes pop back in reverse order and leave the stack as it was |
| TagIndex.HashTable.constructor | To-DoList_DSA1.py:95-96 | a new table is empty |
| TagIndex.Search | To-DoList_DSA1.py:110 | the bucket of a tag, or the empty sequence (stated of `HashTable.SearchTasks`) |
| TagIndex.Indexed | To-DoList_DSA1.py:98-102 | the table after the add loop, one tag at a time by `AddOne` (one iteration of lines 100-102) (stated by `IndexedKeys` and `IndexedAt`) |
| TagIndex.Removed | To-DoList_DSA1.py:104-107 | the table after the remove loop, one tag at a time by `RemoveOne` (one iteration of lines 106-107) (stated by `RemovedKeys` and `RemovedAt`) |
| TagIndex.Filter | To-DoList_DSA1.py:107 | the comprehension over a bucket, which is never longer than the bucket (membership and order in `FilterMembers` and `FilterConcat`) |
| TagIndex.HashTable.AddTask | To-DoList_DSA1.py:98-102 | buckets exist afterwards for the old tags and the task's tags only; each bucket is the old one followed by the task once per occurrence of its tag |
| TagIndex.IndexedKeys | To-DoList_DSA1.py:98-102 | indexing creates a bucket for each tag of the task and no other |
| TagIndex.IndexedAt | To-DoList_DSA1.py:98-102 | indexing appends the task to a bucket as many times as the tag occurs, and leaves other buckets alone |
| TagIndex.HashTable.RemoveTask | To-DoList_DSA1.py:104-107 | no bucket is created or dropped; the buckets of the task's tags lose exactly their entries of that name, the others are unchanged |
| TagIndex.RemovedKeys | To-DoList_DSA1.py:104-107 | unindexing keeps the set of tags |
| TagIndex.RemovedAt | To-DoList_DSA1.py:104-107 | unindexing filters the name out of the buckets of the given tags and leaves the other buckets alone |
| TagIndex.FilterMembers | To-DoList_DSA1.py:107 | an entry survives the filter exactly when it was there and has another name |
| TagIndex.FilterConcat | To-DoList_DSA1.py:107 | the filter keeps surviving entries in their order |
| TagIndex.FilterKeeps | To-DoList_DSA1.py:107 | a bucket with no entry of the name is left as it is |
| TagIndex.FilterIdempotent | To-DoList_DSA1.py:104-107 | unindexing a name twice from a bucket is the same as once |
| TagIndex.FilterRepeat | To-DoList_DSA1.py:107 | copies of a task are all dropped by the filter on its name and all kept by any other |
| TagIndex.UnindexAfterIndex | To-DoList_DSA1.py:98-107 | indexing then unindexing a task whose name is new to a bucket gives that bucket back; the tags present are the old ones plus the task's |
| TagIndex.HashTable.SearchTasks | To-DoList_DSA1.py:109-110 | the bucket of the keyword, or the empty sequence when there is none |
| TodoApp.App.constructor | To-DoList_DSA1.py:143-145 | the three structures start empty |
| TodoApp.AddStep | To-DoList_DSA1.py:156-160 | after an add the task's name can be found and the add can be undone |
| TodoApp.DeleteStep | To-DoList_DSA1.py:191-199 | a delete changes nothing exactly when no task has the name, and a delete that changes something can be undone |
| TodoApp.CanUndo | To-DoList_DSA1.py:206-208 | undo of an add needs a task of the recorded name; otherwise line 208 fails |
| TodoApp.UndoStep | To-DoList_DSA1.py:202-215 | an undo changes nothing exactly when the log is empty, and otherwise pops exactly the top action |
| TodoApp.App.AddTask | To-DoList_DSA1.py:148-161 | the list, table and log change exactly as `AddStep` says: append, index under each tag, push the add |
| TodoApp.App.DeleteTask | To-DoList_DSA1.py:190-199 | reports whether a task of that name existed; the state changes exactly as `DeleteStep` says, and not at all when none existed |
| TodoApp.App.Undo | To-DoList_DSA1.py:202-215 | reports whether the log was non-empty; pops exactly one action; the state changes exactly as `UndoStep` says |
| TodoApp.App.RevertAdd | To-DoList_DSA1.py:206-208 | the first task of the name leaves the list and is unindexed under its own tags |
| TodoApp.App.RevertDelete | To-DoList_DSA1.py:209-211 | the recorded task is appended to the list and indexed under its tags again |
| TodoApp.AddKeepsSound | To-DoList_DSA1.py:156-158 | adding keeps every indexed entry a listed task under one of its own tags |
| TodoApp.UnindexKeepsSound | To-DoList_DSA1.py:191-193 | removing the first task of a name from list and index keeps the index sound |
| TodoApp.DeleteKeepsSound | To-DoList_DSA1.py:191-195 | deleting keeps the index sound |
| TodoApp.UndoKeepsSound | To-DoList_DSA1.py:202-211 | undoing keeps the index sound |
| TodoApp.UndoAfterAdd | To-DoList_DSA1.py:202-208 | in a sound state (see `Sound`), add of a new name then undo restores the task list and the log, and every tag searches to its old bucket; only empty buckets for the added tags remain |
| TodoApp.UndoAfterAddShadowed | To-DoList_DSA1.py:205-208 | when an earlier task has the name, add then undo removes the earlier task and keeps the new one, which stays findable exactly under the tags the earlier task lacked |
| TodoApp.UndoAfterDelete | To-DoList_DSA1.py:209-211 | delete then undo puts the same task back at the end of the list and back at the end of its buckets, and restores the log |
| TodoApp.ProjectAppend | To-DoList_DSA1.py:98-102 | appending a task to the list appends it to the projection on each tag once per occurrence |
| TodoApp.ProjectMembers | To-DoList_DSA1.py:109-110 | a consistent bucket holds exactly the listed tasks that carry its tag |
| TodoApp.FilterProject | To-DoList_DSA1.py:104-107 | filtering a name out of a projected bucket equals projecting the list with that name filtered out |
| TodoApp.RemoveFirstIsFilter | To-DoList_DSA1.py:44-56 | with unique names, removing the first task of a name removes every task of it |
| TodoApp.RemoveFirstUnique | To-DoList_DSA1.py:44-56 | deleting keeps names unique |
| TodoApp.ConsistentSearch | To-DoList_DSA1.py:109-110 | in a consistent state, a task is found under a tag exactly when it is listed and carries the tag |
| TodoApp.AddKeepsConsistent | To-DoList_DSA1.py:156-158 | adding a task of a new name keeps a consistent state consistent |
| TodoApp.DeleteKeepsConsistent | To-DoList_DSA1.py:191-194 | deleting keeps a consistent state consistent |
| TodoApp.UndoKeepsConsistent | To-DoList_DSA1.py:202-211 | undo keeps a consistent state consistent when a re-inserted task's name is not taken |
| TodoApp.UndoAfterAddConsistent | To-DoList_DSA1.py:202-208 | in a consistent state, undo of an add of a new name restores the list and every search result |
| TodoApp.BuyMilkScenario | To-DoList_DSA1.py:148-161 | adding "Buy milk" tagged home and shopping makes "home" find exactly it; undo empties the list and that bucket |
| TodoApp.NamesAppend | To-DoList_DSA1.py:34-42 | the names of a concatenation are the names of both parts |
| TodoApp.NamesRemoveFirst | To-DoList_DSA1.py:44-56 | deleting a present name takes away one copy of it |
| TodoApp.UndoableStep | To-DoList_DSA1.py:202-211 | a state whose log can be unwound meets undo's precondition, and stays unwindable after the undo |
| TodoApp.AddKeepsUndoable | To-DoList_DSA1.py:156-160 | adding keeps the log unwindable |
| TodoApp.DeleteKeepsUndoable | To-DoList_DSA1.py:191-195 | deleting keeps the log unwindable |
| TodoApp.Replay | To-DoList_DSA1.py:202-208 | any run of add, delete and undo from a sound state with an empty log ends unwindable and sound, so no undo in it reaches a missing task |

## Left out

- `save_to_json` and `load_from_json` (file and JSON I/O, fixed path): not modelled. Reading a
  record is `FromDict`, and loading is `LinkedList.AddTask` plus `HashTable.AddTask` per
  record, with nothing pushed on the undo stack. Every loaded task is then listed and indexed
  under its own tags. That is why `Replay` starts from any `Sound` state with an empty log.
- The calls to `save_to_json` after each change: they write a file and leave the in-memory
  state as it is.
- `view_tasks`, `search_task`, the menu loop and all `input`/`print` plumbing: console I/O.
  Entered values are parameters. The tag list is a sequence of strings instead of the result
  of splitting the typed line on commas.
- `edit_task`: not modelled. It overwrites the fields of a task object that the list node
  and every bucket share, so the change shows through all of them. The model holds tasks as
  values and does not capture that aliasing. It also re-indexes under the new tags after
  overwriting the old ones, so old-tag entries survive, and a rename can leave an
  `('add', name)` entry whose task is gone.
- Task identity: buckets and the undo log hold references to the same task objects as the
  list. The model holds equal values instead, which gives the same results as long as tasks
  are not edited.
- Tasks.FromDict: it accepts only text for the five scalar fields and only a list or null for
  `tags`. The program would store any JSON value there, but saved files only ever contain
  those. A record missing one of the six keys makes the program raise `KeyError`
  (To-DoList_DSA1.py:128-133). Loading catches only `FileNotFoundError`
  (To-DoList_DSA1.py:137), so the program stops; the model returns `None` instead.
- TaskList.LinkedList.FindTask: it returns the node itself. The model states which node it is,
  but it does not model the caller's later writes through that node, since those belong to
  `edit_task`.
- TodoApp.App.Undo, TodoApp.UndoStep: the failure of `remove_task(None)` is not modelled as
  a behaviour. Instead it is the precondition `CanUndo`, and `Replay` shows that add, delete
  and undo alone always meet it.
