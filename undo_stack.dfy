/** The undo log: a stack of the actions that can be reversed. */
module UndoStack {
  import opened Tasks

  /** `Added` records the name of a task that was added; `Deleted` keeps the deleted task itself. */
  datatype Action = Added(name: string) | Deleted(task: Task)

  class Stack {
    /** The actions, oldest first; the top of the stack is the last element. */
    var stack: seq<Action>

    constructor ()
      ensures stack == []
    {
      stack := [];
    }

    method Push(action: Action)
      modifies this
      ensures stack == old(stack) + [action]
    {
      stack := stack + [action];
    }

    /** Removes and returns the most recently pushed action; `None` on an empty stack,
        which is left as it is. */
    method Pop() returns (r: Option<Action>)
      modifies this
      ensures old(stack) == [] ==> r == None && stack == []
      ensures old(stack) != [] ==>
        r == Some(old(stack)[|old(stack)| - 1]) && stack == old(stack)[..|old(stack)| - 1]
    {
      if stack != [] {
        r := Some(stack[|stack| - 1]);
        stack := stack[..|stack| - 1];
      } else {
        r := None;
      }
    }
  }

  /** Popping after pushing gives back the pushed action and the stack as it was;
      two pushes come back in reverse order. */
  method LastInFirstOut(s: Stack, a: Action, b: Action) returns (first: Option<Action>, second: Option<Action>)
    modifies s
    ensures first == Some(b) && second == Some(a)
    ensures s.stack == old(s.stack)
  {
    s.Push(a);
    s.Push(b);
    first := s.Pop();
    second := s.Pop();
  }
}
