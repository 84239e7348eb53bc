/** The search index: from each tag to the ordered bucket of tasks that were indexed under it. */
module TagIndex {
  import opened Tasks

  type Table = map<string, seq<Task>>

  /** The bucket for `tag`, or the empty sequence when the tag has none. */
  function Search(m: Table, tag: string): seq<Task>
  {
    if tag in m then m[tag] else []
  }

  /** `n` copies of `t`. */
  function Repeat(t: Task, n: nat): (r: seq<Task>)
    ensures |r| == n && forall x :: x in r ==> x == t
  {
    seq(n, _ => t)
  }

  lemma RepeatOneMore(t: Task, n: nat)
    ensures Repeat(t, n) + [t] == Repeat(t, n + 1)
  {
    assert forall i :: 0 <= i < n + 1 ==> (Repeat(t, n) + [t])[i] == t;
  }

  /** The entries of `s`, in order, except those named `name`. */
  function Filter(s: seq<Task>, name: string): (r: seq<Task>)
    ensures |r| <= |s|
  {
    if s == [] then []
    else (if s[0].taskName == name then [] else [s[0]]) + Filter(s[1..], name)
  }

  /** What survives a filter: exactly the entries not named `name`. */
  lemma {:induction false} FilterMembers(s: seq<Task>, name: string, x: Task)
    ensures x in Filter(s, name) <==> x in s && x.taskName != name
  {
    if s != [] {
      FilterMembers(s[1..], name, x);
      assert s == [s[0]] + s[1..];
    }
  }

  /** Filtering works piecewise, so entries keep their relative order. */
  lemma {:induction false} FilterConcat(a: seq<Task>, b: seq<Task>, name: string)
    ensures Filter(a + b, name) == Filter(a, name) + Filter(b, name)
  {
    if a == [] {
      assert a + b == b;
    } else {
      var head := if a[0].taskName == name then [] else [a[0]];
      calc {
        Filter(a + b, name);
        { assert (a + b)[0] == a[0] && (a + b)[1..] == a[1..] + b; }
        head + Filter(a[1..] + b, name);
        { FilterConcat(a[1..], b, name); }
        head + (Filter(a[1..], name) + Filter(b, name));
        (head + Filter(a[1..], name)) + Filter(b, name);
      }
    }
  }

  /** A bucket with no entry of that name is left exactly as it is. */
  lemma {:induction false} FilterKeeps(s: seq<Task>, name: string)
    requires forall x :: x in s ==> x.taskName != name
    ensures Filter(s, name) == s
  {
    if s != [] {
      assert s[0] in s;
      FilterKeeps(s[1..], name);
      assert s == [s[0]] + s[1..];
    }
  }

  lemma FilterIdempotent(s: seq<Task>, name: string)
    ensures Filter(Filter(s, name), name) == Filter(s, name)
  {
    forall x | x in Filter(s, name) ensures x.taskName != name {
      FilterMembers(s, name, x);
    }
    FilterKeeps(Filter(s, name), name);
  }

  /** One step of indexing: append `t` to the bucket of `tag`, creating it if missing. */
  function AddOne(m: Table, tag: string, t: Task): Table
  {
    m[tag := Search(m, tag) + [t]]
  }

  /** The table after indexing `t` under each of `tags`, first to last. */
  function Indexed(m: Table, tags: seq<string>, t: Task): Table
    decreases |tags|
  {
    if tags == [] then m
    else AddOne(Indexed(m, tags[..|tags| - 1], t), tags[|tags| - 1], t)
  }

  /** Indexing `t` creates a bucket for each of its tags and for nothing else. */
  lemma {:induction false} IndexedKeys(m: Table, tags: seq<string>, t: Task, k: string)
    ensures k in Indexed(m, tags, t) <==> k in m || k in tags
  {
    if tags != [] {
      var n := |tags| - 1;
      IndexedKeys(m, tags[..n], t, k);
      assert tags == tags[..n] + [tags[n]];
    }
  }

  /** Indexing `t` appends it to the bucket of each tag once per occurrence of that tag;
      other buckets are unchanged. */
  lemma {:induction false} IndexedAt(m: Table, tags: seq<string>, t: Task, k: string)
    ensures Search(Indexed(m, tags, t), k) == Search(m, k) + Repeat(t, multiset(tags)[k])
  {
    if tags != [] {
      var n := |tags| - 1;
      IndexedAt(m, tags[..n], t, k);
      assert tags == tags[..n] + [tags[n]];
      if tags[n] == k {
        RepeatOneMore(t, multiset(tags[..n])[k]);
      }
    }
  }

  /** One step of unindexing: drop the entries named `name` from the bucket of `tag`, if any. */
  function RemoveOne(m: Table, tag: string, name: string): Table
  {
    if tag in m then m[tag := Filter(m[tag], name)] else m
  }

  /** The table after unindexing the name `name` from each of `tags`, first to last. */
  function Removed(m: Table, tags: seq<string>, name: string): Table
    decreases |tags|
  {
    if tags == [] then m
    else RemoveOne(Removed(m, tags[..|tags| - 1], name), tags[|tags| - 1], name)
  }

  /** Unindexing creates no bucket and drops none. */
  lemma {:induction false} RemovedKeys(m: Table, tags: seq<string>, name: string)
    ensures Removed(m, tags, name).Keys == m.Keys
  {
    if tags != [] {
      RemovedKeys(m, tags[..|tags| - 1], name);
    }
  }

  /** Unindexing drops every entry named `name` from the buckets of the given tags, keeps
      the rest in order, and leaves the buckets of other tags alone. */
  lemma {:induction false} RemovedAt(m: Table, tags: seq<string>, name: string, k: string)
    ensures Search(Removed(m, tags, name), k) ==
      if k in tags then Filter(Search(m, k), name) else Search(m, k)
  {
    if tags != [] {
      var n := |tags| - 1;
      RemovedAt(m, tags[..n], name, k);
      assert tags == tags[..n] + [tags[n]];
      if tags[n] == k {
        FilterIdempotent(Search(m, k), name);
      }
    }
  }

  /** Filtering a run of copies of `t` leaves nothing when the name is `t`'s own, and the
      whole run otherwise. */
  lemma {:induction false} FilterRepeat(t: Task, n: nat, name: string)
    ensures Filter(Repeat(t, n), name) == if t.taskName == name then [] else Repeat(t, n)
  {
    if n > 0 {
      var r := Repeat(t, n);
      assert r[0] == t && r[1..] == Repeat(t, n - 1);
      FilterRepeat(t, n - 1, name);
      assert r == [t] + Repeat(t, n - 1);
    }
  }

  /** Unindexing a task right after indexing it gives every tag its old bucket back, as long
      as no entry already there carries the task's name; the buckets created stay, empty. */
  lemma UnindexAfterIndex(m: Table, t: Task, k: string)
    requires forall u :: u in Search(m, k) ==> u.taskName != t.taskName
    ensures Search(Removed(Indexed(m, t.tags, t), t.tags, t.taskName), k) == Search(m, k)
    ensures k in Removed(Indexed(m, t.tags, t), t.tags, t.taskName) <==> k in m || k in t.tags
  {
    IndexedAt(m, t.tags, t, k);
    IndexedKeys(m, t.tags, t, k);
    RemovedAt(Indexed(m, t.tags, t), t.tags, t.taskName, k);
    RemovedKeys(Indexed(m, t.tags, t), t.tags, t.taskName);
    var c := multiset(t.tags)[k];
    if k in t.tags {
      FilterConcat(Search(m, k), Repeat(t, c), t.taskName);
      FilterKeeps(Search(m, k), t.taskName);
      FilterRepeat(t, c, t.taskName);
    } else {
      assert c == 0;
      assert Repeat(t, 0) == [];
    }
  }

  class HashTable {
    var table: Table

    constructor ()
      ensures table == map[]
    {
      table := map[];
    }

    /** Appends `task` to the bucket of each of its tags, creating missing buckets. */
    method AddTask(task: Task)
      modifies this
      ensures table == Indexed(old(table), task.tags, task)
      ensures forall k :: k in table <==> k in old(table) || k in task.tags
      ensures forall k :: Search(table, k) == Search(old(table), k) + Repeat(task, multiset(task.tags)[k])
    {
      for i := 0 to |task.tags|
        invariant table == Indexed(old(table), task.tags[..i], task)
      {
        var tag := task.tags[i];
        if tag !in table {
          table := table[tag := []];
        }
        table := table[tag := table[tag] + [task]];
        assert task.tags[..i + 1][..i] == task.tags[..i];
      }
      assert task.tags[..|task.tags|] == task.tags;
      forall k
        ensures k in table <==> k in old(table) || k in task.tags
        ensures Search(table, k) == Search(old(table), k) + Repeat(task, multiset(task.tags)[k])
      {
        IndexedKeys(old(table), task.tags, task, k);
        IndexedAt(old(table), task.tags, task, k);
      }
    }

    /** Drops every entry named like `task` from the buckets of `task`'s tags. */
    method RemoveTask(task: Task)
      modifies this
      ensures table == Removed(old(table), task.tags, task.taskName)
      ensures table.Keys == old(table.Keys)
      ensures forall k :: Search(table, k) == (if k in task.tags
                                              then Filter(Search(old(table), k), task.taskName)
                                              else Search(old(table), k))
    {
      for i := 0 to |task.tags|
        invariant table == Removed(old(table), task.tags[..i], task.taskName)
      {
        var tag := task.tags[i];
        if tag in table {
          table := table[tag := Filter(table[tag], task.taskName)];
        }
        assert task.tags[..i + 1][..i] == task.tags[..i];
      }
      assert task.tags[..|task.tags|] == task.tags;
      RemovedKeys(old(table), task.tags, task.taskName);
      forall k
        ensures Search(table, k) ==
          (if k in task.tags then Filter(Search(old(table), k), task.taskName) else Search(old(table), k))
      {
        RemovedAt(old(table), task.tags, task.taskName, k);
      }
    }

    /** The bucket for `keyword`, or the empty sequence when there is none. */
    function SearchTasks(keyword: string): (r: seq<Task>)
      reads this
      ensures keyword in table ==> r == table[keyword]
      ensures keyword !in table ==> r == []
    {
      Search(table, keyword)
    }
  }
}
