/** The task record of the to-do application and its flat dictionary form. */
module Tasks {

  datatype Option<T> = None | Some(value: T)

  /** A task. Every field is free text: the priority and the due date are not validated. */
  datatype Task = Task(
    taskName: string,
    categoryName: string,
    priority: string,
    duedate: string,
    status: string,
    tags: seq<string>)

  /** Builds a task; `tags` is `None` when the caller passes no tag list. A missing or
      empty tag list is stored as the empty sequence. */
  function NewTask(taskName: string, categoryName: string, priority: string,
                   duedate: string, status: string, tags: Option<seq<string>>): (t: Task)
    ensures t.taskName == taskName && t.categoryName == categoryName && t.priority == priority
    ensures t.duedate == duedate && t.status == status
    ensures t.tags == [] <==> (tags == None || tags == Some([]))
    ensures tags.Some? ==> t.tags == tags.value
  {
    var stored := if tags.Some? && tags.value != [] then tags.value else [];
    Task(taskName, categoryName, priority, duedate, status, stored)
  }

  /** A value in a task's dictionary form: a string, a list of strings, or null. */
  datatype FieldValue = Text(text: string) | TextList(items: seq<string>) | Null

  const FieldNames: set<string> :=
    {"task_name", "category_name", "priority", "duedate", "status", "tags"}

  /** The dictionary form of a task: exactly the six field names, each bound to its field. */
  function ToDict(t: Task): (d: map<string, FieldValue>)
    ensures d.Keys == FieldNames
    ensures d["task_name"] == Text(t.taskName) && d["category_name"] == Text(t.categoryName)
    ensures d["priority"] == Text(t.priority) && d["duedate"] == Text(t.duedate)
    ensures d["status"] == Text(t.status) && d["tags"] == TextList(t.tags)
  {
    map["task_name" := Text(t.taskName),
        "category_name" := Text(t.categoryName),
        "priority" := Text(t.priority),
        "duedate" := Text(t.duedate),
        "status" := Text(t.status),
        "tags" := TextList(t.tags)]
  }

  /** Reads the text stored under `key`, if there is one. */
  function TextField(d: map<string, FieldValue>, key: string): Option<string>
  {
    if key in d && d[key].Text? then Some(d[key].text) else None
  }

  /** Rebuilds a task from its dictionary form, as loading a saved record does. A record is
      read exactly when the five scalar fields hold text and the tag field a list or null;
      the task then carries those texts, and a null tag list yields no tags. */
  function FromDict(d: map<string, FieldValue>): (r: Option<Task>)
    ensures r.Some? <==>
      (forall k :: k in FieldNames && k != "tags" ==> TextField(d, k).Some?) &&
      "tags" in d && (d["tags"].TextList? || d["tags"].Null?)
    ensures r.Some? ==> r.value == NewTask(
      TextField(d, "task_name").value, TextField(d, "category_name").value,
      TextField(d, "priority").value, TextField(d, "duedate").value, TextField(d, "status").value,
      if d["tags"].TextList? then Some(d["tags"].items) else None)
  {
    var name := TextField(d, "task_name");
    var category := TextField(d, "category_name");
    var priority := TextField(d, "priority");
    var duedate := TextField(d, "duedate");
    var status := TextField(d, "status");
    if name.None? || category.None? || priority.None? || duedate.None? || status.None?
       || "tags" !in d || d["tags"].Text?
    then None
    else
      var tags := if d["tags"].TextList? then Some(d["tags"].items) else None;
      Some(NewTask(name.value, category.value, priority.value, duedate.value, status.value, tags))
  }

  /** Saving a task and reading it back gives the same task. */
  lemma DictRoundTrip(t: Task)
    ensures FromDict(ToDict(t)) == Some(t)
  {
    var d := ToDict(t);
    assert TextField(d, "task_name") == Some(t.taskName);
    assert TextField(d, "category_name") == Some(t.categoryName);
    assert TextField(d, "priority") == Some(t.priority);
    assert TextField(d, "duedate") == Some(t.duedate);
    assert TextField(d, "status") == Some(t.status);
  }
}
