/** The singly linked list that keeps the tasks in insertion order. */
module TaskList {
  import opened Tasks

  /** Position of the first task named `name`, in list order. */
  function FirstIndex(ts: seq<Task>, name: string): (r: Option<nat>)
    ensures r.None? <==> forall j :: 0 <= j < |ts| ==> ts[j].taskName != name
    ensures r.Some? ==> r.value < |ts| && ts[r.value].taskName == name
    ensures r.Some? ==> forall j :: 0 <= j < r.value ==> ts[j].taskName != name
  {
    if ts == [] then None
    else if ts[0].taskName == name then Some(0)
    else
      match FirstIndex(ts[1..], name)
      case None => None
      case Some(i) => Some(i + 1)
  }

  /** The first task named `name`, if any. */
  function Lookup(ts: seq<Task>, name: string): (r: Option<Task>)
    ensures r.Some? ==> r.value in ts && r.value.taskName == name
    ensures r.None? <==> forall t :: t in ts ==> t.taskName != name
    ensures r.Some? ==> FirstIndex(ts, name).Some? && r.value == ts[FirstIndex(ts, name).value]
  {
    match FirstIndex(ts, name)
    case None => None
    case Some(i) => Some(ts[i])
  }

  /** The task found is the first task of the list with that name. */
  lemma LookupFirst(ts: seq<Task>, name: string)
    requires Lookup(ts, name).Some?
    ensures exists i ::
      0 <= i < |ts| && ts[i] == Lookup(ts, name).value && (forall j :: 0 <= j < i ==> ts[j].taskName != name)
  {
    var i := FirstIndex(ts, name).value;
    assert ts[i] == Lookup(ts, name).value;
  }

  /** The tasks without the first one named `name`; all of them when none is. */
  function RemoveFirst(ts: seq<Task>, name: string): seq<Task>
  {
    match FirstIndex(ts, name)
    case None => ts
    case Some(i) => ts[..i] + ts[i + 1..]
  }

  /** Removing the first task named `name` leaves every other task, in the same
      relative order: the tasks before it keep their places, the ones after it move up by one. */
  lemma RemoveFirstShape(ts: seq<Task>, name: string)
    ensures FirstIndex(ts, name).None? ==> RemoveFirst(ts, name) == ts
    ensures FirstIndex(ts, name).Some? ==>
      var i := FirstIndex(ts, name).value;
      var r := RemoveFirst(ts, name);
      |r| == |ts| - 1 &&
      (forall j :: 0 <= j < i ==> r[j] == ts[j]) &&
      (forall j :: i <= j < |r| ==> r[j] == ts[j + 1]) &&
      multiset(r) + multiset{ts[i]} == multiset(ts)
  {
    if FirstIndex(ts, name).Some? {
      var i := FirstIndex(ts, name).value;
      assert ts == ts[..i] + [ts[i]] + ts[i + 1..];
    }
  }

  /** Removing the first task of a name keeps every other task of the list. */
  lemma RemoveFirstKeeps(ts: seq<Task>, name: string, x: Task)
    requires x in ts && (Lookup(ts, name).None? || x != Lookup(ts, name).value)
    ensures x in RemoveFirst(ts, name)
  {
    RemoveFirstShape(ts, name);
    if FirstIndex(ts, name).Some? {
      var i := FirstIndex(ts, name).value;
      assert multiset(RemoveFirst(ts, name)) + multiset{ts[i]} == multiset(ts);
    }
  }

  /** Past a head of another name, removal works on the tail. */
  lemma RemoveFirstCons(ts: seq<Task>, name: string)
    requires ts != [] && ts[0].taskName != name
    ensures RemoveFirst(ts, name) == [ts[0]] + RemoveFirst(ts[1..], name)
  {
    var rest := ts[1..];
    match FirstIndex(rest, name)
    case None =>
      assert ts == [ts[0]] + rest;
    case Some(i) =>
      assert ts[..i + 1] == [ts[0]] + rest[..i];
      assert ts[i + 2..] == rest[i + 1..];
  }

  /** Past a head of another name, lookup works on the tail. */
  lemma LookupCons(ts: seq<Task>, name: string)
    requires ts != [] && ts[0].taskName != name
    ensures Lookup(ts, name) == Lookup(ts[1..], name)
  {
    match FirstIndex(ts[1..], name)
    case None =>
    case Some(i) =>
      assert ts[i + 1] == ts[1..][i];
  }

  /** Looking a name up after appending a task: the appended task is found only when no
      earlier task has that name. */
  lemma {:induction false} LookupAppend(ts: seq<Task>, t: Task, name: string)
    ensures Lookup(ts + [t], name) ==
      if Lookup(ts, name).Some? then Lookup(ts, name) else if t.taskName == name then Some(t) else None
  {
    if ts != [] {
      assert (ts + [t])[0] == ts[0] && (ts + [t])[1..] == ts[1..] + [t];
      if ts[0].taskName != name {
        LookupAppend(ts[1..], t, name);
        LookupCons(ts + [t], name);
        LookupCons(ts, name);
      }
    }
  }

  /** Removing the first task of a name after appending a task: the earlier task of that
      name goes when there is one, and otherwise the appended one does if it carries the name. */
  lemma {:induction false} RemoveFirstAppend(ts: seq<Task>, t: Task, name: string)
    ensures RemoveFirst(ts + [t], name) ==
      if Lookup(ts, name).Some? then RemoveFirst(ts, name) + [t]
      else if t.taskName == name then ts
      else ts + [t]
  {
    if ts == [] {
      assert [] + [t] == [t] && [t][1..] == [];
    } else {
      var ts' := ts + [t];
      assert ts'[0] == ts[0] && ts'[1..] == ts[1..] + [t];
      if ts[0].taskName == name {
        assert FirstIndex(ts', name) == Some(0) && FirstIndex(ts, name) == Some(0);
      } else {
        RemoveFirstAppend(ts[1..], t, name);
        RemoveFirstCons(ts', name);
        RemoveFirstCons(ts, name);
        LookupCons(ts, name);
      }
    }
  }

  class TaskNode {
    var task: Task
    var next: TaskNode?

    constructor (task: Task)
      ensures this.task == task && next == null
    {
      this.task := task;
      next := null;
    }
  }

  class LinkedList {
    var head: TaskNode?
    /** The tasks, from head to tail. */
    ghost var Contents: seq<Task>
    /** The nodes, from head to tail. */
    ghost var Nodes: seq<TaskNode>
    ghost var Repr: set<object>

    /** The nodes form a null-terminated chain from `head` that carries `Contents`. */
    ghost predicate Valid()
      reads this, Repr
    {
      this in Repr &&
      |Nodes| == |Contents| &&
      (forall i :: 0 <= i < |Nodes| ==> Nodes[i] in Repr) &&
      head == (if Nodes == [] then null else Nodes[0]) &&
      (forall i :: 0 <= i < |Nodes| ==> Nodes[i].task == Contents[i]) &&
      (forall i {:trigger Nodes[i].next} :: 0 <= i < |Nodes| ==>
         Nodes[i].next == if i + 1 < |Nodes| then Nodes[i + 1] else null) &&
      (forall i, j :: 0 <= i < j < |Nodes| ==> Nodes[i] != Nodes[j])
    }

    constructor ()
      ensures Valid() && fresh(Repr) && Contents == []
    {
      head := null;
      Contents := [];
      Nodes := [];
      Repr := {this};
    }

    /** Walks to the tail and links a new node holding `task` after it. */
    method AddTask(task: Task)
      requires Valid()
      modifies Repr
      ensures Valid() && fresh(Repr - old(Repr))
      ensures Contents == old(Contents) + [task]
    {
      var node := new TaskNode(task);
      if head == null {
        head := node;
      } else {
        var current := head;
        ghost var i := 0;
        while current.next != null
          invariant Valid() && Nodes == old(Nodes)
          invariant 0 <= i < |Nodes| && current == Nodes[i]
          decreases |Nodes| - i
        {
          assert current.next == Nodes[i + 1];
          current := current.next;
          i := i + 1;
        }
        assert Nodes[i].next == null;
        current.next := node;
      }
      Nodes := Nodes + [node];
      Contents := Contents + [task];
      Repr := Repr + {node};
    }

    /** Unlinks the first node whose task is named `name` and returns its task;
        returns `None` and changes nothing when no task has that name. */
    method DeleteTaskByName(name: string) returns (r: Option<Task>)
      requires Valid()
      modifies Repr
      ensures Valid() && Repr == old(Repr)
      ensures r == Lookup(old(Contents), name)
      ensures Contents == RemoveFirst(old(Contents), name)
    {
      var current := head;
      var prev: TaskNode? := null;
      ghost var i := 0;
      while current != null
        invariant Valid() && Nodes == old(Nodes) && Contents == old(Contents) && Repr == old(Repr)
        invariant 0 <= i <= |Nodes|
        invariant current == if i < |Nodes| then Nodes[i] else null
        invariant prev == if i == 0 then null else Nodes[i - 1]
        invariant forall j :: 0 <= j < i ==> Contents[j].taskName != name
        decreases |Nodes| - i
      {
        if current.task.taskName == name {
          r := Some(current.task);
          if prev != null {
            UnlinkAfter(prev, i);
          } else {
            UnlinkHead();
          }
          return;
        }
        prev := current;
        current := current.next;
        i := i + 1;
      }
      r := None;
    }

    /** Drops the first node: `head` moves to its successor. */
    method UnlinkHead()
      requires Valid() && Nodes != []
      modifies this
      ensures Valid() && Repr == old(Repr)
      ensures Nodes == old(Nodes[1..]) && Contents == old(Contents[1..])
    {
      head := head.next;
      Nodes := Nodes[1..];
      Contents := Contents[1..];
    }

    /** Bypasses the node after `prev`, the node at position `i - 1`. */
    method UnlinkAfter(prev: TaskNode, ghost i: nat)
      requires Valid() && 0 < i < |Nodes| && prev == Nodes[i - 1]
      modifies prev, this
      ensures Valid() && Repr == old(Repr)
      ensures Nodes == old(Nodes[..i] + Nodes[i + 1..])
      ensures Contents == old(Contents[..i] + Contents[i + 1..])
    {
      ghost var ns, ts := Nodes, Contents;
      assert prev.next == ns[i];
      assert ns[i].next == if i + 1 < |ns| then ns[i + 1] else null;
      prev.next := prev.next.next;
      Nodes := ns[..i] + ns[i + 1..];
      Contents := ts[..i] + ts[i + 1..];
      forall j | 0 <= j < |Nodes|
        ensures Nodes[j] == ns[if j < i then j else j + 1]
        ensures Contents[j] == ts[if j < i then j else j + 1]
      {
      }
      forall j | 0 <= j < |Nodes|
        ensures Nodes[j].next == if j + 1 < |Nodes| then Nodes[j + 1] else null
      {
        if j + 1 == i {
          assert Nodes[j] == prev;
        } else if j < i {
          assert ns[j] != ns[i - 1];
        } else {
          assert ns[j + 1] != ns[i - 1];
        }
      }
    }

    /** The node of the first task named `name`, or null when no task has that name. */
    method FindTask(name: string) returns (r: TaskNode?)
      requires Valid()
      ensures FirstIndex(Contents, name).None? ==> r == null
      ensures FirstIndex(Contents, name).Some? ==>
        r == Nodes[FirstIndex(Contents, name).value] && r.task == Lookup(Contents, name).value
    {
      var current := head;
      ghost var i := 0;
      while current != null
        invariant Valid()
        invariant 0 <= i <= |Nodes|
        invariant current == if i < |Nodes| then Nodes[i] else null
        invariant forall j :: 0 <= j < i ==> Contents[j].taskName != name
        decreases |Nodes| - i
      {
        if current.task.taskName == name {
          return current;
        }
        current := current.next;
        i := i + 1;
      }
      r := null;
    }

    /** The dictionary forms of the tasks, in list order. */
    method ToList() returns (r: seq<map<string, FieldValue>>)
      requires Valid()
      ensures |r| == |Contents|
      ensures forall i :: 0 <= i < |r| ==> r[i] == ToDict(Contents[i])
    {
      r := [];
      var current := head;
      ghost var i := 0;
      while current != null
        invariant Valid()
        invariant 0 <= i <= |Nodes|
        invariant current == if i < |Nodes| then Nodes[i] else null
        invariant |r| == i
        invariant forall j :: 0 <= j < i ==> r[j] == ToDict(Contents[j])
        decreases |Nodes| - i
      {
        r := r + [ToDict(current.task)];
        current := current.next;
        i := i + 1;
      }
    }
  }
}
