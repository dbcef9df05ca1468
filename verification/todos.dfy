/** The todo record and the list operations the `App` component's handlers
    are built from (App.jsx). Each operation is a pure function of the list. */
module Todos {
  import opened Wrappers
  import opened Seqs
  import opened Text

  /** One entry of the list: `{ id, task, completed }`. */
  datatype Todo = Todo(id: int, task: string, completed: bool)

  /** The identity invariant: ids strictly increase from the front of the
      list to its back. */
  predicate IdsIncreasing(todos: seq<Todo>)
  {
    forall i, j :: 0 <= i < j < |todos| ==> todos[i].id < todos[j].id
  }

  /** No two entries share an id. */
  predicate IdsUnique(todos: seq<Todo>)
  {
    forall i, j :: 0 <= i < |todos| && 0 <= j < |todos| && todos[i].id == todos[j].id ==> i == j
  }

  /** Every id is a positive integer. */
  predicate IdsPositive(todos: seq<Todo>)
  {
    forall t :: t in todos ==> t.id >= 1
  }

  /** Every task holds something other than whitespace. */
  predicate TasksNonBlank(todos: seq<Todo>)
  {
    forall t :: t in todos ==> Trim(t.task) != ""
  }

  /** Increasing ids are in particular unique ids. */
  lemma IncreasingIdsAreUnique(todos: seq<Todo>)
    requires IdsIncreasing(todos)
    ensures IdsUnique(todos)
  {
    forall i, j | 0 <= i < |todos| && 0 <= j < |todos| && todos[i].id == todos[j].id
      ensures i == j
    {
    }
  }

  /** The id a new entry gets (App.jsx:27): one more than the id of the LAST
      entry, or 1 for an empty list. On a list whose ids increase this is
      larger than every id in use, so it is fresh. */
  function NextId(todos: seq<Todo>): (n: int)
    ensures IdsIncreasing(todos) ==> forall t :: t in todos ==> t.id < n
    ensures IdsPositive(todos) ==> n >= 1
  {
    if |todos| == 0 then 1 else todos[|todos| - 1].id + 1
  }

  /** Why the ordering matters: on a list whose ids do not increase, the
      last-plus-one rule can hand out an id that is already taken. */
  lemma NextIdCanCollideWithoutOrder()
    ensures var todos := [Todo(3, "a", false), Todo(2, "b", false)];
      NextId(todos) == todos[0].id
  {
  }

  /** Appending an entry with the next id keeps the ids increasing and
      positive. */
  lemma AppendNextKeepsInvariant(todos: seq<Todo>, task: string)
    requires IdsIncreasing(todos) && IdsPositive(todos)
    ensures IdsIncreasing(todos + [Todo(NextId(todos), task, false)])
    ensures IdsPositive(todos + [Todo(NextId(todos), task, false)])
  {
    var r := todos + [Todo(NextId(todos), task, false)];
    forall i, j | 0 <= i < j < |r| ensures r[i].id < r[j].id {
      if j == |todos| {
        assert r[i] in todos;
      }
    }
  }

  /** `todos.find(todo => todo.id === id)` (App.jsx:45): the first entry with
      that id, or `None` (JavaScript's `undefined`) when there is none. */
  function Find(todos: seq<Todo>, id: int): (r: Option<Todo>)
    ensures r.Some? ==> r.value in todos && r.value.id == id
    ensures r.Some? ==> exists k ::
              && 0 <= k < |todos| && todos[k] == r.value
              && forall j :: 0 <= j < k ==> todos[j].id != id
    ensures r.None? <==> forall t :: t in todos ==> t.id != id
  {
    if |todos| == 0 then None
    else if todos[0].id == id then Some(todos[0])
    else Find(todos[1..], id)
  }

  /** With unique ids, `find` returns the one entry carrying the id. */
  lemma FindReturnsTheEntry(todos: seq<Todo>, k: nat)
    requires IdsIncreasing(todos) && k < |todos|
    ensures Find(todos, todos[k].id) == Some(todos[k])
  {
    IncreasingIdsAreUnique(todos);
    var r := Find(todos, todos[k].id);
    var j :| 0 <= j < |todos| && todos[j] == r.value;
  }

  /** The update branch's `map` (App.jsx:19-21): the entry whose id is `id`
      gets `task` as its task; every field of every other entry, and the
      id and completed flag of the matching one, stay as they were. */
  function SetTask(todos: seq<Todo>, id: int, task: string): (r: seq<Todo>)
    ensures |r| == |todos|
    ensures forall i :: 0 <= i < |r| ==> r[i].id == todos[i].id && r[i].completed == todos[i].completed
    ensures forall i :: 0 <= i < |r| && todos[i].id != id ==> r[i] == todos[i]
    ensures forall i :: 0 <= i < |r| && todos[i].id == id ==> r[i].task == task
  {
    seq(|todos|, i requires 0 <= i < |todos| =>
      if todos[i].id == id then todos[i].(task := task) else todos[i])
  }

  /** Updating an id that is not in the list changes nothing. */
  lemma SetTaskAbsentIsNoop(todos: seq<Todo>, id: int, task: string)
    requires forall t :: t in todos ==> t.id != id
    ensures SetTask(todos, id, task) == todos
  {
    var r := SetTask(todos, id, task);
    forall i | 0 <= i < |r| ensures r[i] == todos[i] {
      assert todos[i] in todos;
    }
  }

  /** `handleToggle`'s `map` (App.jsx:53-55): the entry whose id is `id` has
      its completed flag flipped; ids, tasks and order stay as they were. */
  function Flip(todos: seq<Todo>, id: int): (r: seq<Todo>)
    ensures |r| == |todos|
    ensures forall i :: 0 <= i < |r| ==> r[i].id == todos[i].id && r[i].task == todos[i].task
    ensures forall i :: 0 <= i < |r| ==>
      r[i].completed == (if todos[i].id == id then !todos[i].completed else todos[i].completed)
  {
    seq(|todos|, i requires 0 <= i < |todos| =>
      if todos[i].id == id then todos[i].(completed := !todos[i].completed) else todos[i])
  }

  /** Toggling the same id twice gives back the original list. */
  lemma FlipTwice(todos: seq<Todo>, id: int)
    ensures Flip(Flip(todos, id), id) == todos
  {
    var r := Flip(Flip(todos, id), id);
    forall i | 0 <= i < |r| ensures r[i] == todos[i] {
    }
  }

  /** Two lists with the same ids position by position agree on the
      identity invariant and on positivity. */
  lemma SameIdsSameInvariant(a: seq<Todo>, b: seq<Todo>)
    requires |a| == |b|
    requires forall i :: 0 <= i < |a| ==> a[i].id == b[i].id
    requires IdsIncreasing(a) && IdsPositive(a)
    ensures IdsIncreasing(b) && IdsPositive(b)
  {
    forall t | t in b ensures t.id >= 1 {
      var i :| 0 <= i < |b| && b[i] == t;
      assert a[i] in a;
    }
  }

  /** Putting an entry in front of an increasing list whose ids all exceed
      the entry's id gives an increasing list. */
  lemma ConsKeepsIncreasing(t: Todo, tail: seq<Todo>)
    requires IdsIncreasing(tail)
    requires forall u :: u in tail ==> t.id < u.id
    ensures IdsIncreasing([t] + tail)
  {
    var r := [t] + tail;
    forall i, j | 0 <= i < j < |r| ensures r[i].id < r[j].id {
      assert r[j] == tail[j - 1];
      if i > 0 {
        assert r[i] == tail[i - 1];
      } else {
        assert tail[j - 1] in tail;
      }
    }
  }

  /** Keeping some entries of an increasing list, in order, leaves the ids
      increasing. */
  lemma {:induction false} FilterKeepsIncreasing(keep: Todo -> bool, todos: seq<Todo>)
    requires IdsIncreasing(todos)
    ensures IdsIncreasing(Filter(keep, todos))
  {
    if |todos| > 0 {
      var rest := todos[1..];
      FilterKeepsIncreasing(keep, rest);
      if keep(todos[0]) {
        var tail := Filter(keep, rest);
        forall u | u in tail ensures todos[0].id < u.id {
          var m :| 0 <= m < |rest| && rest[m] == u;
          assert todos[m + 1] == u;
        }
        ConsKeepsIncreasing(todos[0], tail);
      }
    }
  }

  /** Keeping some entries of a list, in order, keeps the invariant: ids
      still increase, stay positive, and tasks stay non-blank. */
  lemma FilterKeepsInvariant(keep: Todo -> bool, todos: seq<Todo>)
    requires IdsIncreasing(todos) && IdsPositive(todos) && TasksNonBlank(todos)
    ensures var r := Filter(keep, todos);
      IdsIncreasing(r) && IdsPositive(r) && TasksNonBlank(r)
  {
    FilterKeepsIncreasing(keep, todos);
  }

  /** The callback of `handleDelete`'s `filter` (App.jsx:39). */
  function IdIsNot(id: int): Todo -> bool
  {
    (t: Todo) => t.id != id
  }

  /** `todos.filter(todo => todo.id !== id)` (App.jsx:39): exactly the entries
      whose id differs from `id`, in their original order. */
  function RemoveId(todos: seq<Todo>, id: int): (r: seq<Todo>)
    ensures forall t :: t in r <==> t in todos && t.id != id
    ensures IsSubsequence(r, todos)
  {
    Filter(IdIsNot(id), todos)
  }

  /** Deleting an id that is not in the list changes nothing. */
  lemma RemoveAbsentIsNoop(todos: seq<Todo>, id: int)
    requires forall t :: t in todos ==> t.id != id
    ensures RemoveId(todos, id) == todos
  {
    FilterKeepsAll(IdIsNot(id), todos);
  }

  /** On an increasing list, the entries before position `k` have smaller
      ids than entry `k`, and those after it larger ones. */
  lemma IdsAroundPosition(todos: seq<Todo>, k: nat)
    requires IdsIncreasing(todos) && k < |todos|
    ensures forall t :: t in todos[..k] ==> t.id < todos[k].id
    ensures forall t :: t in todos[k + 1..] ==> t.id > todos[k].id
  {
    forall t | t in todos[..k] ensures t.id < todos[k].id {
      var i :| 0 <= i < k && todos[..k][i] == t;
      assert todos[i] == t;
    }
    forall t | t in todos[k + 1..] ensures t.id > todos[k].id {
      var i :| 0 <= i < |todos| - k - 1 && todos[k + 1..][i] == t;
      assert todos[k + 1 + i] == t;
    }
  }

  /** With increasing ids, deleting the id of entry `k` removes that entry
      and nothing else. */
  lemma RemovePresentDropsOne(todos: seq<Todo>, k: nat)
    requires IdsIncreasing(todos) && k < |todos|
    ensures RemoveId(todos, todos[k].id) == todos[..k] + todos[k + 1..]
    ensures |RemoveId(todos, todos[k].id)| == |todos| - 1
  {
    var id := todos[k].id;
    var keep := IdIsNot(id);
    var before, after := todos[..k], todos[k + 1..];
    IdsAroundPosition(todos, k);
    calc {
      RemoveId(todos, id);
      { assert todos == (before + [todos[k]]) + after; }
      Filter(keep, (before + [todos[k]]) + after);
      { FilterConcat(keep, before + [todos[k]], after); }
      Filter(keep, before + [todos[k]]) + Filter(keep, after);
      { FilterConcat(keep, before, [todos[k]]); }
      Filter(keep, before) + Filter(keep, [todos[k]]) + Filter(keep, after);
      { RemoveAbsentIsNoop(before, id); RemoveAbsentIsNoop(after, id); }
      before + Filter(keep, [todos[k]]) + after;
      before + after;
    }
  }

  /** The callback of `handleClear`'s `filter` (App.jsx:61). */
  predicate IsPending(t: Todo)
  {
    !t.completed
  }

  /** The callback of the counter's `filter` (App.jsx:116). */
  predicate IsDone(t: Todo)
  {
    t.completed
  }

  /** `todos.filter(todo => !todo.completed)` (App.jsx:61): exactly the
      entries not yet completed, in their original order. */
  function Pending(todos: seq<Todo>): (r: seq<Todo>)
    ensures forall t :: t in r <==> t in todos && !t.completed
    ensures IsSubsequence(r, todos)
  {
    Filter(IsPending, todos)
  }

  /** The numerator of the `(completed/total)` counter (App.jsx:116): zero
      exactly when no entry is completed, and never more than the total. */
  function CompletedCount(todos: seq<Todo>): (c: nat)
    ensures c <= |todos|
    ensures c == 0 <==> forall t :: t in todos ==> !t.completed
  {
    FilterEmptyIffNonePass(IsDone, todos);
    |Filter(IsDone, todos)|
  }

  /** Clearing keeps only pending entries, so the completed count drops to 0;
      clearing again changes nothing. */
  lemma PendingClearsCount(todos: seq<Todo>)
    ensures CompletedCount(Pending(todos)) == 0
    ensures Pending(Pending(todos)) == Pending(todos)
  {
    FilterIdempotent(IsPending, todos);
  }

  /** The callback of `filteredTodos` (App.jsx:66-70) for a filter value. */
  function Shows(filter: string): Todo -> bool
  {
    (t: Todo) => if filter == "Active" then !t.completed
         else if filter == "Completed" then t.completed
         else true
  }

  /** The `filteredTodos` view (App.jsx:66-70): the entries `filter` shows,
      in list order. */
  function View(todos: seq<Todo>, filter: string): (r: seq<Todo>)
    ensures IsSubsequence(r, todos)
    ensures filter == "Active" ==> forall t :: t in r <==> t in todos && !t.completed
    ensures filter == "Completed" ==> forall t :: t in r <==> t in todos && t.completed
  {
    Filter(Shows(filter), todos)
  }

  /** Any filter value other than "Active" and "Completed" (in particular
      "All") shows the whole list. */
  lemma ViewOtherShowsAll(todos: seq<Todo>, filter: string)
    requires filter != "Active" && filter != "Completed"
    ensures View(todos, filter) == todos
  {
    FilterKeepsAll(Shows(filter), todos);
  }

  /** The "Active" and "Completed" views split the list: their lengths add up
      to its length and together they hold every entry. */
  lemma ViewsPartition(todos: seq<Todo>)
    ensures |View(todos, "Active")| + |View(todos, "Completed")| == |todos|
    ensures forall t :: t in todos <==> t in View(todos, "Active") || t in View(todos, "Completed")
  {
    FilterSplit(Shows("Active"), Shows("Completed"), todos);
  }

  /** The counter's numerator is the length of the "Completed" view, and the
      remaining entries are those of the "Active" view. */
  lemma CountMatchesViews(todos: seq<Todo>)
    ensures CompletedCount(todos) == |View(todos, "Completed")|
    ensures |todos| - CompletedCount(todos) == |View(todos, "Active")|
  {
    FilterSameCallback(IsDone, Shows("Completed"), todos);
    FilterSplit(IsDone, Shows("Active"), todos);
  }
}
