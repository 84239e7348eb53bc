/** The application's three structures (task list, search table, undo stack) and the
    add, delete and undo operations that change them together. */
module TodoApp {
  import opened Tasks
  import opened TaskList
  import opened UndoStack
  import opened TagIndex

  /** The abstract value of the three structures. */
  datatype State = State(tasks: seq<Task>, table: Table, log: seq<Action>)

  const Empty := State([], map[], [])

  /** Adding: append to the list, index under every tag, record the name. */
  function AddStep(s: State, t: Task): (r: State)
    ensures Lookup(r.tasks, t.taskName).Some? && CanUndo(r)
  {
    State(s.tasks + [t], Indexed(s.table, t.tags, t), s.log + [Added(t.taskName)])
  }

  /** Deleting: unlink the first task with that name, unindex it, record the task.
      Nothing changes when no task has that name. */
  function DeleteStep(s: State, name: string): (r: State)
    ensures r == s <==> Lookup(s.tasks, name).None?
    ensures Lookup(s.tasks, name).Some? ==> CanUndo(r)
  {
    match Lookup(s.tasks, name)
    case None => s
    case Some(t) => State(RemoveFirst(s.tasks, name), Removed(s.table, t.tags, t.taskName), s.log + [Deleted(t)])
  }

  /** Undo reverses an add only while a task of the recorded name is still present:
      otherwise the unindexing step is handed no task at all and fails. */
  predicate CanUndo(s: State)
  {
    s.log != [] && s.log[|s.log| - 1].Added? ==> Lookup(s.tasks, s.log[|s.log| - 1].name).Some?
  }

  /** Undoing: pop the last action; an add is reversed by deleting the first task of that
      name, a delete by appending the recorded task again. An empty log changes nothing. */
  function UndoStep(s: State): (r: State)
    requires CanUndo(s)
    ensures r == s <==> s.log == []
    ensures s.log != [] ==> r.log == s.log[..|s.log| - 1]
  {
    if s.log == [] then s
    else
      var rest := s.log[..|s.log| - 1];
      match s.log[|s.log| - 1]
      case Added(name) =>
        var t := Lookup(s.tasks, name).value;
        State(RemoveFirst(s.tasks, name), Removed(s.table, t.tags, t.taskName), rest)
      case Deleted(t) =>
        State(s.tasks + [t], Indexed(s.table, t.tags, t), rest)
  }

  class App {
    const taskList: LinkedList
    const searchTable: HashTable
    const undoStack: Stack

    ghost predicate Valid()
      reads this, taskList, taskList.Repr
    {
      taskList.Valid() && searchTable !in taskList.Repr && undoStack !in taskList.Repr
    }

    ghost function Abs(): State
      reads this, taskList, searchTable, undoStack
    {
      State(taskList.Contents, searchTable.table, undoStack.stack)
    }

    constructor ()
      ensures Valid() && Abs() == Empty
    {
      taskList := new LinkedList();
      searchTable := new HashTable();
      undoStack := new Stack();
    }

    /** Builds a task from the entered fields, adds it to the list and the search table,
        and records the add for undo. */
    method AddTask(taskName: string, categoryName: string, priority: string, duedate: string,
                   status: string, tags: seq<string>)
      requires Valid()
      modifies taskList.Repr, searchTable, undoStack
      ensures Valid()
      ensures Abs() == AddStep(old(Abs()), NewTask(taskName, categoryName, priority, duedate, status, Some(tags)))
    {
      var task := NewTask(taskName, categoryName, priority, duedate, status, Some(tags));
      taskList.AddTask(task);
      searchTable.AddTask(task);
      undoStack.Push(Added(taskName));
    }

    /** Deletes the first task named `taskName` from the list and the search table and
        records it for undo; reports whether there was one. */
    method DeleteTask(taskName: string) returns (found: bool)
      requires Valid()
      modifies taskList.Repr, searchTable, undoStack
      ensures Valid()
      ensures found <==> Lookup(old(taskList.Contents), taskName).Some?
      ensures Abs() == DeleteStep(old(Abs()), taskName)
    {
      ghost var s := Abs();
      var deleted := taskList.DeleteTaskByName(taskName);
      assert taskList.Contents == RemoveFirst(s.tasks, taskName) && deleted == Lookup(s.tasks, taskName);
      assert searchTable.table == s.table && undoStack.stack == s.log;
      if deleted.Some? {
        var task := deleted.value;
        searchTable.RemoveTask(task);
        undoStack.Push(Deleted(task));
        found := true;
        assert Abs() == State(RemoveFirst(s.tasks, taskName), Removed(s.table, task.tags, task.taskName),
                              s.log + [Deleted(task)]);
      } else {
        found := false;
        assert Abs() == s;
      }
    }

    /** Pops one action and reverses it; reports whether there was one. */
    method Undo() returns (undone: bool)
      requires Valid() && CanUndo(Abs())
      modifies taskList.Repr, searchTable, undoStack
      ensures Valid()
      ensures undone <==> old(undoStack.stack) != []
      ensures undone ==> undoStack.stack == old(undoStack.stack)[..|old(undoStack.stack)| - 1]
      ensures Abs() == UndoStep(old(Abs()))
    {
      var action := undoStack.Pop();
      undone := action.Some?;
      if action.Some? {
        match action.value
        case Added(name) =>
          RevertAdd(name);
        case Deleted(task) =>
          RevertDelete(task);
      }
    }

    /** The list and table half of undoing an add: the first task of that name leaves both. */
    method RevertAdd(name: string)
      requires Valid() && Lookup(taskList.Contents, name).Some?
      modifies taskList.Repr, searchTable
      ensures Valid()
      ensures var t := Lookup(old(taskList.Contents), name).value;
        taskList.Contents == RemoveFirst(old(taskList.Contents), name) &&
        searchTable.table == Removed(old(searchTable.table), t.tags, t.taskName)
    {
      var deleted := taskList.DeleteTaskByName(name);
      searchTable.RemoveTask(deleted.value);
    }

    /** The list and table half of undoing a delete: the task is appended and indexed again. */
    method RevertDelete(task: Task)
      requires Valid()
      modifies taskList.Repr, searchTable
      ensures Valid()
      ensures taskList.Contents == old(taskList.Contents) + [task]
      ensures searchTable.table == Indexed(old(searchTable.table), task.tags, task)
    {
      taskList.AddTask(task);
      searchTable.AddTask(task);
    }
  }

  // ----- The index holds only listed tasks, under their own tags -----

  /** Every entry of a bucket is a task of the list that carries the bucket's tag. Unlike
      full consistency, this holds in every state that loading, add, delete and undo reach
      (see `Replay`); editing a task's tags can break it. */
  ghost predicate Sound(s: State)
  {
    forall k, u :: u in Search(s.table, k) ==> u in s.tasks && k in u.tags
  }

  lemma AddKeepsSound(s: State, t: Task)
    requires Sound(s)
    ensures Sound(AddStep(s, t))
  {
    var a := AddStep(s, t);
    forall k, u | u in Search(a.table, k) ensures u in a.tasks && k in u.tags {
      IndexedAt(s.table, t.tags, t, k);
      var c := multiset(t.tags)[k];
      if u !in Search(s.table, k) {
        assert u in Repeat(t, c) && c > 0;
      }
    }
  }

  /** The table half of a delete (or of undoing an add): unindexing the first task of the
      name leaves only entries that are still listed. */
  lemma UnindexKeepsSound(s: State, name: string)
    requires Sound(s) && Lookup(s.tasks, name).Some?
    ensures Sound(State(RemoveFirst(s.tasks, name),
                        Removed(s.table, Lookup(s.tasks, name).value.tags, name), s.log))
  {
    var t := Lookup(s.tasks, name).value;
    var table := Removed(s.table, t.tags, name);
    forall k, u | u in Search(table, k) ensures u in RemoveFirst(s.tasks, name) && k in u.tags {
      RemovedAt(s.table, t.tags, name, k);
      if k in t.tags {
        FilterMembers(Search(s.table, k), name, u);
      }
      RemoveFirstKeeps(s.tasks, name, u);
    }
  }

  lemma DeleteKeepsSound(s: State, name: string)
    requires Sound(s)
    ensures Sound(DeleteStep(s, name))
  {
    if Lookup(s.tasks, name).Some? {
      UnindexKeepsSound(s, name);
    }
  }

  lemma UndoKeepsSound(s: State)
    requires Sound(s) && CanUndo(s)
    ensures Sound(UndoStep(s))
  {
    if s.log != [] {
      match s.log[|s.log| - 1]
      case Added(name) =>
        UnindexKeepsSound(s, name);
      case Deleted(t) =>
        AddKeepsSound(s, t);
    }
  }

  // ----- Undo reverses the last add or delete -----

  /** Adding a task whose name is new, then undoing, gives back the same task list and log,
      and every tag searches to the same bucket as before. The table may keep a new, empty
      bucket for each added tag. */
  lemma UndoAfterAdd(s: State, t: Task)
    requires Sound(s)
    requires forall u :: u in s.tasks ==> u.taskName != t.taskName
    ensures CanUndo(AddStep(s, t))
    ensures UndoStep(AddStep(s, t)).tasks == s.tasks
    ensures UndoStep(AddStep(s, t)).log == s.log
    ensures forall k :: Search(UndoStep(AddStep(s, t)).table, k) == Search(s.table, k)
    ensures UndoStep(AddStep(s, t)).table.Keys == s.table.Keys + set k | k in t.tags
  {
    var a := AddStep(s, t);
    LookupAppend(s.tasks, t, t.taskName);
    RemoveFirstAppend(s.tasks, t, t.taskName);
    assert Lookup(a.tasks, t.taskName) == Some(t) && RemoveFirst(a.tasks, t.taskName) == s.tasks;
    assert a.log[|a.log| - 1] == Added(t.taskName) && a.log[..|a.log| - 1] == s.log;
    assert UndoStep(a).table == Removed(Indexed(s.table, t.tags, t), t.tags, t.taskName);
    forall k
      ensures Search(UndoStep(a).table, k) == Search(s.table, k)
      ensures k in UndoStep(a).table <==> k in s.table || k in t.tags
    {
      assert forall u :: u in Search(s.table, k) ==> u in s.tasks;
      UnindexAfterIndex(s.table, t, k);
    }
  }

  /** Deleting the first task named `name`, then undoing, puts that same task back at the END
      of the list (not at its old position) and back into the bucket of each of its tags,
      after the entries that survived the delete; the log is as before. */
  lemma UndoAfterDelete(s: State, name: string)
    requires Lookup(s.tasks, name).Some?
    ensures CanUndo(DeleteStep(s, name))
    ensures
      var t := Lookup(s.tasks, name).value;
      var u := UndoStep(DeleteStep(s, name));
      u.tasks == RemoveFirst(s.tasks, name) + [t] &&
      u.log == s.log &&
      forall k :: Search(u.table, k) ==
        (if k in t.tags then Filter(Search(s.table, k), name) + Repeat(t, multiset(t.tags)[k])
         else Search(s.table, k))
  {
    var t := Lookup(s.tasks, name).value;
    var d := DeleteStep(s, name);
    assert d.log[|d.log| - 1] == Deleted(t) && d.log[..|d.log| - 1] == s.log;
    var u := UndoStep(d);
    forall k
      ensures Search(u.table, k) ==
        (if k in t.tags then Filter(Search(s.table, k), name) + Repeat(t, multiset(t.tags)[k])
         else Search(s.table, k))
    {
      RemovedAt(s.table, t.tags, name, k);
      IndexedAt(d.table, t.tags, t, k);
      if k !in t.tags {
        assert multiset(t.tags)[k] == 0;
        assert Repeat(t, 0) == [];
      }
    }
  }

  /** When an earlier task already has the added task's name, undoing the add removes that
      EARLIER task and keeps the new one. Unindexing uses the earlier task's tags, so the new
      task stays findable exactly under those of its tags the earlier task did not have. */
  lemma UndoAfterAddShadowed(s: State, t: Task)
    requires Lookup(s.tasks, t.taskName).Some?
    ensures CanUndo(AddStep(s, t))
    ensures UndoStep(AddStep(s, t)).tasks == RemoveFirst(s.tasks, t.taskName) + [t]
    ensures forall k :: k in t.tags ==>
      (t in Search(UndoStep(AddStep(s, t)).table, k) <==> k !in Lookup(s.tasks, t.taskName).value.tags)
  {
    var a := AddStep(s, t);
    LookupAppend(s.tasks, t, t.taskName);
    RemoveFirstAppend(s.tasks, t, t.taskName);
    assert a.log[|a.log| - 1] == Added(t.taskName) && a.log[..|a.log| - 1] == s.log;
    var u := UndoStep(a);
    var earlier := Lookup(s.tasks, t.taskName).value;
    assert u.table == Removed(a.table, earlier.tags, t.taskName);
    forall k | k in t.tags
      ensures t in Search(u.table, k) <==> k !in earlier.tags
    {
      RemovedAt(a.table, earlier.tags, t.taskName, k);
      IndexedAt(s.table, t.tags, t, k);
      if k in earlier.tags {
        FilterMembers(Search(a.table, k), t.taskName, t);
      } else {
        var c := multiset(t.tags)[k];
        assert Repeat(t, c)[0] == t;
        assert Search(a.table, k)[|Search(s.table, k)|] == t;
      }
    }
  }

  // ----- Index consistency, for the histories that keep names unique -----

  predicate UniqueNames(ts: seq<Task>)
  {
    forall i, j :: 0 <= i < j < |ts| ==> ts[i].taskName != ts[j].taskName
  }

  /** The bucket a consistent index holds for tag `k`: each task of `ts` in list order,
      once per occurrence of `k` among its tags. */
  function Project(ts: seq<Task>, k: string): seq<Task>
  {
    if ts == [] then []
    else Repeat(ts[0], multiset(ts[0].tags)[k]) + Project(ts[1..], k)
  }

  /** The list and the index agree: names are unique and every bucket is exactly the
      projection of the list on its tag. The program does not enforce this. */
  ghost predicate Consistent(s: State)
  {
    UniqueNames(s.tasks) && forall k :: Search(s.table, k) == Project(s.tasks, k)
  }

  lemma {:induction false} ProjectAppend(ts: seq<Task>, t: Task, k: string)
    ensures Project(ts + [t], k) == Project(ts, k) + Repeat(t, multiset(t.tags)[k])
  {
    if ts == [] {
      assert [t][1..] == [];
    } else {
      assert (ts + [t])[0] == ts[0] && (ts + [t])[1..] == ts[1..] + [t];
      ProjectAppend(ts[1..], t, k);
    }
  }

  /** A bucket of the projection holds tasks of the list that carry the tag, and all of them. */
  lemma {:induction false} ProjectMembers(ts: seq<Task>, k: string, x: Task)
    ensures x in Project(ts, k) <==> x in ts && k in x.tags
  {
    if ts != [] {
      ProjectMembers(ts[1..], k, x);
      assert ts == [ts[0]] + ts[1..];
      var c := multiset(ts[0].tags)[k];
      assert k in ts[0].tags <==> c > 0;
      if x == ts[0] && c > 0 {
        assert Repeat(x, c)[0] == x;
      }
    }
  }

  /** Dropping a name from a bucket is the same as dropping it from the list first. */
  lemma {:induction false} FilterProject(ts: seq<Task>, k: string, name: string)
    ensures Filter(Project(ts, k), name) == Project(Filter(ts, name), k)
  {
    if ts != [] {
      var head, rest := ts[0], ts[1..];
      var c := multiset(head.tags)[k];
      FilterConcat(Repeat(head, c), Project(rest, k), name);
      FilterRepeat(head, c, name);
      FilterProject(rest, k, name);
      var fr := Filter(rest, name);
      if head.taskName != name {
        assert Filter(ts, name) == [head] + fr;
        assert ([head] + fr)[0] == head && ([head] + fr)[1..] == fr;
        assert Project(Filter(ts, name), k) == Repeat(head, c) + Project(fr, k);
      } else {
        assert Filter(ts, name) == fr;
        assert Filter(Project(ts, k), name) == [] + Project(fr, k);
      }
    }
  }

  /** With unique names, removing the first task of a name removes every task of that name. */
  lemma {:induction false} RemoveFirstIsFilter(ts: seq<Task>, name: string)
    requires UniqueNames(ts)
    ensures RemoveFirst(ts, name) == Filter(ts, name)
  {
    if ts == [] {
    } else if ts[0].taskName == name {
      assert RemoveFirst(ts, name) == ts[1..];
      forall x | x in ts[1..] ensures x.taskName != name {
        var j :| 0 <= j < |ts[1..]| && ts[1..][j] == x;
        assert ts[j + 1] == x;
      }
      FilterKeeps(ts[1..], name);
    } else {
      UniqueTail(ts);
      RemoveFirstIsFilter(ts[1..], name);
      RemoveFirstCons(ts, name);
    }
  }

  lemma UniqueTail(ts: seq<Task>)
    requires ts != [] && UniqueNames(ts)
    ensures UniqueNames(ts[1..])
  {
    var rest := ts[1..];
    forall i, j | 0 <= i < j < |rest| ensures rest[i].taskName != rest[j].taskName {
      assert rest[i] == ts[i + 1] && rest[j] == ts[j + 1];
    }
  }

  lemma RemoveFirstUnique(ts: seq<Task>, name: string)
    requires UniqueNames(ts)
    ensures UniqueNames(RemoveFirst(ts, name))
  {
    RemoveFirstShape(ts, name);
    var r := RemoveFirst(ts, name);
    if FirstIndex(ts, name).Some? {
      var i := FirstIndex(ts, name).value;
      forall a, b | 0 <= a < b < |r| ensures r[a].taskName != r[b].taskName {
        var a' := if a < i then a else a + 1;
        var b' := if b < i then b else b + 1;
        assert r[a] == ts[a'] && r[b] == ts[b'];
      }
    }
  }

  /** In a consistent state, each task is in the bucket of each of its tags, and each bucket
      holds only tasks of the list that carry its tag. */
  lemma ConsistentSearch(s: State, x: Task, k: string)
    requires Consistent(s)
    ensures x in Search(s.table, k) <==> x in s.tasks && k in x.tags
  {
    ProjectMembers(s.tasks, k, x);
  }

  /** Adding a task with a new name keeps a consistent state consistent. */
  lemma AddKeepsConsistent(s: State, t: Task)
    requires Consistent(s)
    requires forall u :: u in s.tasks ==> u.taskName != t.taskName
    ensures Consistent(AddStep(s, t))
  {
    var a := AddStep(s, t);
    forall i, j | 0 <= i < j < |a.tasks| ensures a.tasks[i].taskName != a.tasks[j].taskName {
      if j == |s.tasks| {
        assert a.tasks[i] == s.tasks[i] && s.tasks[i] in s.tasks;
      }
    }
    forall k ensures Search(a.table, k) == Project(a.tasks, k) {
      IndexedAt(s.table, t.tags, t, k);
      ProjectAppend(s.tasks, t, k);
    }
  }

  /** Deleting keeps a consistent state consistent. */
  lemma DeleteKeepsConsistent(s: State, name: string)
    requires Consistent(s)
    ensures Consistent(DeleteStep(s, name))
  {
    if Lookup(s.tasks, name).Some? {
      var t := Lookup(s.tasks, name).value;
      var d := DeleteStep(s, name);
      RemoveFirstUnique(s.tasks, name);
      RemoveFirstIsFilter(s.tasks, name);
      forall k ensures Search(d.table, k) == Project(d.tasks, k) {
        RemovedAt(s.table, t.tags, name, k);
        FilterProject(s.tasks, k, name);
        if k !in t.tags {
          forall x | x in Project(s.tasks, k) ensures x.taskName != name {
            ProjectMembers(s.tasks, k, x);
            var i := FirstIndex(s.tasks, name).value;
            var j :| 0 <= j < |s.tasks| && s.tasks[j] == x;
            assert j == i || s.tasks[j].taskName != name;
          }
          FilterKeeps(Project(s.tasks, k), name);
        }
      }
    }
  }

  /** Undo keeps a consistent state consistent, provided a re-inserted task's name has not
      been taken again in the meantime. */
  lemma UndoKeepsConsistent(s: State)
    requires Consistent(s) && CanUndo(s)
    requires s.log != [] && s.log[|s.log| - 1].Deleted? ==>
      forall u :: u in s.tasks ==> u.taskName != s.log[|s.log| - 1].task.taskName
    ensures Consistent(UndoStep(s))
  {
    if s.log != [] {
      match s.log[|s.log| - 1]
      case Added(name) =>
        DeleteKeepsConsistent(s, name);
        assert UndoStep(s).tasks == DeleteStep(s, name).tasks;
        assert UndoStep(s).table == DeleteStep(s, name).table;
      case Deleted(t) =>
        AddKeepsConsistent(s, t);
    }
  }

  /** In a consistent state, an add of a new name is undone exactly as far as search can tell. */
  lemma UndoAfterAddConsistent(s: State, t: Task)
    requires Consistent(s)
    requires forall u :: u in s.tasks ==> u.taskName != t.taskName
    ensures UndoStep(AddStep(s, t)).tasks == s.tasks
    ensures forall k :: Search(UndoStep(AddStep(s, t)).table, k) == Search(s.table, k)
  {
    forall k, u | u in Search(s.table, k) ensures u in s.tasks && k in u.tags {
      ConsistentSearch(s, u, k);
    }
    UndoAfterAdd(s, t);
  }

  /** Adding "Buy milk" tagged home and shopping makes "home" find exactly that task;
      undoing it empties the list and the "home" bucket. */
  lemma BuyMilkScenario()
    ensures
      var t := NewTask("Buy milk", "Errands", "Low", "2024-01-01", "Pending", Some(["home", "shopping"]));
      var a := AddStep(Empty, t);
      Search(a.table, "home") == [t] &&
      UndoStep(a).tasks == [] && Search(UndoStep(a).table, "home") == []
  {
    var t := NewTask("Buy milk", "Errands", "Low", "2024-01-01", "Pending", Some(["home", "shopping"]));
    IndexedAt(map[], t.tags, t, "home");
    assert multiset(t.tags)["home"] == 1;
    assert Repeat(t, 1) == [t];
    UndoAfterAdd(Empty, t);
  }
  // ----- Without edits, undo never reaches a missing task -----

  /** The names of the tasks, with multiplicity. */
  function Names(ts: seq<Task>): (r: multiset<string>)
    ensures |r| == |ts|
  {
    if ts == [] then multiset{} else Names(ts[..|ts| - 1]) + multiset{ts[|ts| - 1].taskName}
  }

  lemma {:induction false} NamesAppend(a: seq<Task>, b: seq<Task>)
    ensures Names(a + b) == Names(a) + Names(b)
  {
    if b == [] {
      assert a + b == a;
    } else {
      var n := |b| - 1;
      var ab := a + b;
      assert ab[..|ab| - 1] == a + b[..n] && ab[|ab| - 1] == b[n];
      calc {
        Names(ab);
        Names(a + b[..n]) + multiset{b[n].taskName};
        { NamesAppend(a, b[..n]); }
        Names(a) + Names(b[..n]) + multiset{b[n].taskName};
        Names(a) + Names(b);
      }
    }
  }

  /** Removing the first task of a present name takes one copy of that name away. */
  lemma NamesRemoveFirst(ts: seq<Task>, name: string)
    requires Lookup(ts, name).Some?
    ensures Names(RemoveFirst(ts, name)) + multiset{name} == Names(ts)
  {
    var i := FirstIndex(ts, name).value;
    assert ts == ts[..i] + [ts[i]] + ts[i + 1..];
    NamesAppend(ts[..i] + [ts[i]], ts[i + 1..]);
    NamesAppend(ts[..i], [ts[i]]);
    NamesAppend(ts[..i], ts[i + 1..]);
    assert [ts[i]][..0] == [];
  }

  /** Unwinding `log` from the top, starting with the task names `names`, every undo of an
      add finds a task of the recorded name. */
  predicate UndoableFrom(names: multiset<string>, log: seq<Action>)
    decreases |log|
  {
    if log == [] then true
    else
      var rest := log[..|log| - 1];
      match log[|log| - 1]
      case Added(name) => name in names && UndoableFrom(names - multiset{name}, rest)
      case Deleted(t) => UndoableFrom(names + multiset{t.taskName}, rest)
  }

  predicate Undoable(s: State)
  {
    UndoableFrom(Names(s.tasks), s.log)
  }

  /** An undoable state can be undone, and what the undo leaves is undoable again. */
  lemma UndoableStep(s: State)
    requires Undoable(s)
    ensures CanUndo(s) && Undoable(UndoStep(s))
  {
    if s.log != [] {
      match s.log[|s.log| - 1]
      case Added(name) =>
        assert name in Names(s.tasks);
        if Lookup(s.tasks, name).None? {
          NamesAbsent(s.tasks, name);
          assert false;
        }
        NamesRemoveFirst(s.tasks, name);
        assert Names(UndoStep(s).tasks) == Names(s.tasks) - multiset{name};
      case Deleted(t) =>
        NamesAppend(s.tasks, [t]);
        assert [t][..0] == [];
    }
  }

  lemma {:induction false} NamesAbsent(ts: seq<Task>, name: string)
    requires forall t :: t in ts ==> t.taskName != name
    ensures name !in Names(ts)
  {
    if ts != [] {
      assert ts[|ts| - 1] in ts;
      assert forall t :: t in ts[..|ts| - 1] ==> t in ts;
      NamesAbsent(ts[..|ts| - 1], name);
    }
  }

  lemma AddKeepsUndoable(s: State, t: Task)
    requires Undoable(s)
    ensures Undoable(AddStep(s, t))
  {
    var a := AddStep(s, t);
    NamesAppend(s.tasks, [t]);
    assert [t][..0] == [];
    assert a.log[..|a.log| - 1] == s.log;
    assert Names(a.tasks) - multiset{t.taskName} == Names(s.tasks);
  }

  lemma DeleteKeepsUndoable(s: State, name: string)
    requires Undoable(s)
    ensures Undoable(DeleteStep(s, name))
  {
    if Lookup(s.tasks, name).Some? {
      var t := Lookup(s.tasks, name).value;
      var d := DeleteStep(s, name);
      NamesRemoveFirst(s.tasks, name);
      assert d.log[..|d.log| - 1] == s.log;
      assert Names(d.tasks) + multiset{t.taskName} == Names(s.tasks);
    }
  }

  /** A command of the menu that changes the three structures. */
  datatype Command = AddCommand(task: Task) | DeleteCommand(name: string) | UndoCommand

  /** Runs `cmds` from `start`, which may hold any loaded tasks (each listed and indexed)
      but an empty undo log: every undo along the way meets its precondition, so only editing
      can make undo fail, and the index keeps holding only listed tasks under their own tags. */
  function Replay(start: State, cmds: seq<Command>): (s: State)
    requires start.log == [] && Sound(start)
    ensures Undoable(s) && Sound(s)
  {
    if cmds == [] then start
    else
      var prev := Replay(start, cmds[..|cmds| - 1]);
      match cmds[|cmds| - 1]
      case AddCommand(t) =>
        AddKeepsUndoable(prev, t); AddKeepsSound(prev, t); AddStep(prev, t)
      case DeleteCommand(name) =>
        DeleteKeepsUndoable(prev, name); DeleteKeepsSound(prev, name); DeleteStep(prev, name)
      case UndoCommand =>
        UndoableStep(prev); UndoKeepsSound(prev); UndoStep(prev)
  }
}
