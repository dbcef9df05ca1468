/** The `App` component's state and its handlers (App.jsx:4-70, 116). The five
    `useState` hooks become one immutable record; each handler becomes a
    function from the current record to the next one. */
module App {
  import opened Wrappers
  import opened Seqs
  import opened Text
  import opened Todos

  /** The component state: `todos`, the input box's `text`, whether an entry
      is being edited and which one (`editId`, `null` as `None`), and the
      name of the chosen `filter`. */
  datatype State = State(
    todos: seq<Todo>,
    text: string,
    isEditing: bool,
    editId: Option<int>,
    filter: string)

  /** What `handleEdit` raises when no entry has the id: `find` returns
      `undefined` and reading `.task` from it throws a TypeError. */
  datatype EditError = NoTodoWithId(id: int)

  /** The invariant every reachable state keeps: ids strictly increase along
      the list and are positive, every task has non-whitespace content, and
      an entry id is recorded exactly while in edit mode. */
  predicate Valid(s: State)
  {
    && IdsIncreasing(s.todos)
    && IdsPositive(s.todos)
    && TasksNonBlank(s.todos)
    && (s.isEditing <==> s.editId.Some?)
  }

  /** The task of the entry the list starts with (App.jsx:6). */
  const SeedTask: string := "Walk everyday in the morning"

  /** The state the hooks start with (App.jsx:5-12): one pending entry with
      id 1, an empty input box, not editing, filter "All". */
  function Init(): (s: State)
    ensures Valid(s)
    ensures s.todos == [Todo(1, SeedTask, false)]
    ensures s.text == "" && !s.isEditing && s.filter == "All"
  {
    assert !IsWhitespace(SeedTask[0]);
    TrimEmptyIffAllWhitespace(SeedTask);
    State([Todo(1, SeedTask, false)], "", false, None, "All")
  }

  /** Typing into the input box: `setText(e.target.value)` (App.jsx:86). */
  function SetText(s: State, value: string): (r: State)
    ensures r.text == value
    ensures r.todos == s.todos && r.isEditing == s.isEditing && r.editId == s.editId
    ensures r.filter == s.filter
  {
    s.(text := value)
  }

  /** Choosing a filter button: `setFilter(f)` (App.jsx:105). The list and
      the edit state are untouched. */
  function SetFilter(s: State, name: string): (r: State)
    ensures r.filter == name
    ensures r.todos == s.todos && r.text == s.text
    ensures r.isEditing == s.isEditing && r.editId == s.editId
  {
    s.(filter := name)
  }

  /** `handleAdd` (App.jsx:15-35). Blank text changes nothing. Otherwise, in
      edit mode the entry with id `editId` gets the text as its task and edit
      mode ends; outside edit mode a new pending entry with the next id and
      the untrimmed text is appended. Either way the input box is cleared. */
  function HandleAdd(s: State): (r: State)
    ensures Trim(s.text) == "" ==> r == s
    ensures Trim(s.text) != "" ==> r.text == "" && !r.isEditing && r.filter == s.filter
    ensures Trim(s.text) != "" && s.isEditing ==>
      && r.editId == None
      && |r.todos| == |s.todos|
      && (forall i :: 0 <= i < |r.todos| ==>
            r.todos[i].id == s.todos[i].id && r.todos[i].completed == s.todos[i].completed)
      && (forall i :: 0 <= i < |r.todos| && s.editId != Some(s.todos[i].id) ==>
            r.todos[i] == s.todos[i])
      && (forall i :: 0 <= i < |r.todos| && s.editId == Some(s.todos[i].id) ==>
            r.todos[i].task == s.text)
    ensures Trim(s.text) != "" && !s.isEditing ==>
      && r.editId == s.editId
      && |r.todos| == |s.todos| + 1
      && r.todos[..|s.todos|] == s.todos
      && r.todos[|s.todos|].task == s.text
      && !r.todos[|s.todos|].completed
  {
    if Trim(s.text) == "" then s
    else if s.isEditing then
      var updated := match s.editId
        case Some(id) => SetTask(s.todos, id, s.text)
        case None => s.todos;
      s.(todos := updated, isEditing := false, editId := None, text := "")
    else
      s.(todos := s.todos + [Todo(NextId(s.todos), s.text, false)], text := "")
  }

  /** `handleDelete(id)` (App.jsx:38-41): drops exactly the entries with that
      id, keeps the rest in order; the input box and edit mode stay as they
      were. */
  function HandleDelete(s: State, id: int): (r: State)
    ensures forall t :: t in r.todos <==> t in s.todos && t.id != id
    ensures IsSubsequence(r.todos, s.todos)
    ensures r.text == s.text && r.isEditing == s.isEditing && r.editId == s.editId
    ensures r.filter == s.filter
  {
    s.(todos := RemoveId(s.todos, id))
  }

  /** `handleEdit(id)` (App.jsx:44-49): with an entry of that id, seeds the
      input box with the task of the first such entry and enters edit mode
      for `id`; without one it raises, as reading `.task` of `undefined`
      does. */
  function HandleEdit(s: State, id: int): (r: Result<State, EditError>)
    ensures r.Err? <==> forall t :: t in s.todos ==> t.id != id
    ensures r.Err? ==> r.error == NoTodoWithId(id)
    ensures r.Ok? ==>
      && r.value.todos == s.todos && r.value.filter == s.filter
      && r.value.isEditing && r.value.editId == Some(id)
      && exists k ::
           && 0 <= k < |s.todos| && s.todos[k].id == id && r.value.text == s.todos[k].task
           && forall j :: 0 <= j < k ==> s.todos[j].id != id
  {
    match Find(s.todos, id)
    case None => Err(NoTodoWithId(id))
    case Some(t) => Ok(s.(text := t.task, isEditing := true, editId := Some(id)))
  }

  /** `handleToggle(id)` (App.jsx:52-57): flips the completed flag of the
      entry with that id; ids, tasks, order and the rest of the state stay. */
  function HandleToggle(s: State, id: int): (r: State)
    ensures |r.todos| == |s.todos|
    ensures forall i :: 0 <= i < |r.todos| ==>
      && r.todos[i].id == s.todos[i].id && r.todos[i].task == s.todos[i].task
      && (r.todos[i].completed != s.todos[i].completed <==> s.todos[i].id == id)
    ensures r.text == s.text && r.isEditing == s.isEditing && r.editId == s.editId
    ensures r.filter == s.filter
  {
    s.(todos := Flip(s.todos, id))
  }

  /** `handleClear` (App.jsx:60-63): keeps exactly the entries not completed,
      in order; afterwards the counter's numerator is 0. */
  function HandleClear(s: State): (r: State)
    ensures forall t :: t in r.todos <==> t in s.todos && !t.completed
    ensures IsSubsequence(r.todos, s.todos)
    ensures CompletedCount(r.todos) == 0
    ensures r.text == s.text && r.isEditing == s.isEditing && r.editId == s.editId
    ensures r.filter == s.filter
  {
    PendingClearsCount(s.todos);
    s.(todos := Pending(s.todos))
  }

  /** `filteredTodos` (App.jsx:66-70): the entries the chosen filter shows. */
  function FilteredTodos(s: State): (r: seq<Todo>)
    ensures IsSubsequence(r, s.todos)
    ensures s.filter == "Active" ==> forall t :: t in r <==> t in s.todos && !t.completed
    ensures s.filter == "Completed" ==> forall t :: t in r <==> t in s.todos && t.completed
  {
    View(s.todos, s.filter)
  }

  /** The `(completed/total)` counter (App.jsx:116). */
  function Counter(s: State): (c: (nat, nat))
    ensures c.0 <= c.1 == |s.todos|
    ensures c.0 == 0 <==> forall t :: t in s.todos ==> !t.completed
  {
    (CompletedCount(s.todos), |s.todos|)
  }

  /** A user action, as the JSX wires it to a handler (App.jsx:86, 92, 105,
      137, 148, 154). */
  datatype Event =
    | Input(value: string)
    | Submit
    | Delete(id: int)
    | Edit(id: int)
    | Toggle(id: int)
    | Clear
    | ChooseFilter(name: string)

  /** The state after one event. An `Edit` that raises leaves the state as it
      was: the throw at App.jsx:46 happens before any setter is called. Only
      typing, submitting and editing touch the input box, and only choosing a
      filter touches the filter. */
  function Step(s: State, e: Event): (r: State)
    ensures e.Edit? && (forall t :: t in s.todos ==> t.id != e.id) ==> r == s
    ensures !(e.Input? || e.Submit? || e.Edit?) ==> r.text == s.text
    ensures !e.ChooseFilter? ==> r.filter == s.filter
    ensures e.ChooseFilter? ==> r.todos == s.todos && r.filter == e.name
  {
    match e
    case Input(value) => SetText(s, value)
    case Submit => HandleAdd(s)
    case Delete(id) => HandleDelete(s, id)
    case Edit(id) => (match HandleEdit(s, id) case Ok(next) => next case Err(_) => s)
    case Toggle(id) => HandleToggle(s, id)
    case Clear => HandleClear(s)
    case ChooseFilter(name) => SetFilter(s, name)
  }

  /** The state after a sequence of events, in order. */
  function Run(s: State, events: seq<Event>): State
    decreases |events|
  {
    if |events| == 0 then s else Run(Step(s, events[0]), events[1..])
  }

  /** `handleAdd` keeps the invariant: the new entry's id is fresh and larger
      than every other, and an update touches tasks only. */
  lemma AddKeepsValid(s: State)
    requires Valid(s)
    ensures Valid(HandleAdd(s))
  {
    var r := HandleAdd(s);
    if Trim(s.text) != "" {
      if s.isEditing {
        SameIdsSameInvariant(s.todos, r.todos);
        forall t | t in r.todos ensures Trim(t.task) != "" {
          var i :| 0 <= i < |r.todos| && r.todos[i] == t;
          assert s.todos[i] in s.todos;
        }
      } else {
        AppendNextKeepsInvariant(s.todos, s.text);
      }
    }
  }

  /** Adding outside edit mode appends one pending entry whose id is the last
      id plus one (1 on an empty list); when the ids increase, that id is
      larger than every id already used. */
  lemma AddAppendsFreshEntry(s: State)
    requires !s.isEditing && Trim(s.text) != ""
    ensures var r := HandleAdd(s);
      && |r.todos| == |s.todos| + 1
      && r.todos[..|s.todos|] == s.todos
      && r.todos[|s.todos|] == Todo(
           if |s.todos| == 0 then 1 else s.todos[|s.todos| - 1].id + 1, s.text, false)
      && (IdsIncreasing(s.todos) ==> forall t :: t in s.todos ==> t.id < r.todos[|s.todos|].id)
      && r.text == "" && r.editId == s.editId
  {
  }

  /** Submitting in edit mode after the edited entry was deleted leaves the
      list as it is, yet still leaves edit mode and clears the input box. */
  lemma UpdateOfDeletedEntry(s: State, id: int)
    requires s.isEditing && s.editId == Some(id) && Trim(s.text) != ""
    requires forall t :: t in s.todos ==> t.id != id
    ensures HandleAdd(s).todos == s.todos
    ensures !HandleAdd(s).isEditing && HandleAdd(s).editId == None && HandleAdd(s).text == ""
  {
    SetTaskAbsentIsNoop(s.todos, id, s.text);
  }

  /** `handleDelete` keeps the invariant. */
  lemma DeleteKeepsValid(s: State, id: int)
    requires Valid(s)
    ensures Valid(HandleDelete(s, id))
  {
    FilterKeepsInvariant(IdIsNot(id), s.todos);
  }

  /** Deleting an id no entry has is a no-op, on any state. */
  lemma DeleteAbsentIsNoop(s: State, id: int)
    requires forall t :: t in s.todos ==> t.id != id
    ensures HandleDelete(s, id) == s
  {
    RemoveAbsentIsNoop(s.todos, id);
  }

  /** When the ids increase, deleting the id of entry `k` removes that entry
      and only it. */
  lemma DeleteRemovesExactlyOne(s: State, id: int)
    requires IdsIncreasing(s.todos)
    ensures forall k :: 0 <= k < |s.todos| && s.todos[k].id == id ==>
      HandleDelete(s, id).todos == s.todos[..k] + s.todos[k + 1..]
  {
    forall k | 0 <= k < |s.todos| && s.todos[k].id == id
      ensures HandleDelete(s, id).todos == s.todos[..k] + s.todos[k + 1..]
    {
      RemovePresentDropsOne(s.todos, k);
    }
  }

  /** Ids are unique among the entries present, not over a session: deleting
      the last entry brings the next id down to at most the deleted one, so
      the next add can hand out an id that was already used. */
  lemma DeleteLastFreesId(s: State)
    requires IdsIncreasing(s.todos) && IdsPositive(s.todos) && |s.todos| > 0
    ensures var last := s.todos[|s.todos| - 1].id;
      NextId(HandleDelete(s, last).todos) <= last
  {
    var n := |s.todos|;
    RemovePresentDropsOne(s.todos, n - 1);
    var rest := HandleDelete(s, s.todos[n - 1].id).todos;
    assert rest == s.todos[..n - 1];
    if n == 1 {
      assert s.todos[0] in s.todos;
    } else {
      assert rest[n - 2] == s.todos[n - 2];
    }
  }

  /** `handleEdit` keeps the invariant, and on a valid state it seeds the
      input box with the task of the one entry carrying the id. */
  lemma EditKeepsValid(s: State, k: nat)
    requires Valid(s) && k < |s.todos|
    ensures var r := HandleEdit(s, s.todos[k].id);
      && r == Ok(s.(text := s.todos[k].task, isEditing := true, editId := Some(s.todos[k].id)))
      && Valid(r.value)
  {
    FindReturnsTheEntry(s.todos, k);
  }

  /** `handleToggle` keeps the invariant. */
  lemma ToggleKeepsValid(s: State, id: int)
    requires Valid(s)
    ensures Valid(HandleToggle(s, id))
  {
    var r := HandleToggle(s, id);
    SameIdsSameInvariant(s.todos, r.todos);
    forall t | t in r.todos ensures Trim(t.task) != "" {
      var i :| 0 <= i < |r.todos| && r.todos[i] == t;
      assert s.todos[i] in s.todos;
    }
  }

  /** Toggling the same id twice gives back the original state, on any
      state. */
  lemma ToggleTwiceRestores(s: State, id: int)
    ensures HandleToggle(HandleToggle(s, id), id) == s
  {
    FlipTwice(s.todos, id);
  }

  /** `handleClear` keeps the invariant. */
  lemma ClearKeepsValid(s: State)
    requires Valid(s)
    ensures Valid(HandleClear(s))
  {
    FilterKeepsInvariant(IsPending, s.todos);
  }

  /** A second clear changes nothing, on any state. */
  lemma ClearTwiceIsNoop(s: State)
    ensures HandleClear(HandleClear(s)) == HandleClear(s)
  {
    PendingClearsCount(s.todos);
  }

  /** Every event keeps the invariant. */
  lemma StepKeepsValid(s: State, e: Event)
    requires Valid(s)
    ensures Valid(Step(s, e))
  {
    match e
    case Input(_) =>
    case Submit => AddKeepsValid(s);
    case Delete(id) => DeleteKeepsValid(s, id);
    case Edit(id) => EditStepKeepsValid(s, id);
    case Toggle(id) => ToggleKeepsValid(s, id);
    case Clear => ClearKeepsValid(s);
    case ChooseFilter(_) =>
  }

  /** An `Edit` event keeps the invariant, whether `handleEdit` succeeds or
      raises. */
  lemma EditStepKeepsValid(s: State, id: int)
    requires Valid(s)
    ensures Valid(Step(s, Edit(id)))
  {
    EditResultValid(s, id);
    EditStepIsHandleEdit(s, id);
  }

  /** A successful `handleEdit` yields a valid state. */
  lemma EditResultValid(s: State, id: int)
    requires Valid(s)
    ensures HandleEdit(s, id).Ok? ==> Valid(HandleEdit(s, id).value)
  {
  }

  /** An `Edit` event is `handleEdit`, with a raise leaving the state as it
      was. */
  lemma EditStepIsHandleEdit(s: State, id: int)
    ensures Step(s, Edit(id)) == (match HandleEdit(s, id) case Ok(next) => next case Err(_) => s)
  {
  }

  /** Any sequence of events keeps the invariant. */
  lemma {:induction false} RunKeepsValid(s: State, events: seq<Event>)
    requires Valid(s)
    ensures Valid(Run(s, events))
    decreases |events|
  {
    if |events| > 0 {
      StepKeepsValid(s, events[0]);
      RunKeepsValid(Step(s, events[0]), events[1..]);
    }
  }

  /** In every state reachable from the initial one, ids are unique. */
  lemma ReachableIdsUnique(events: seq<Event>)
    ensures Valid(Run(Init(), events))
    ensures IdsUnique(Run(Init(), events).todos)
  {
    RunKeepsValid(Init(), events);
    IncreasingIdsAreUnique(Run(Init(), events).todos);
  }

  /** The filter only selects what is shown: the "Active" and "Completed"
      views split the list, and any other filter value shows all of it. */
  lemma FilterOnlySelects(s: State)
    ensures |FilteredTodos(s.(filter := "Active"))| + |FilteredTodos(s.(filter := "Completed"))| == |s.todos|
    ensures s.filter != "Active" && s.filter != "Completed" ==> FilteredTodos(s) == s.todos
  {
    ViewsPartition(s.todos);
    if s.filter != "Active" && s.filter != "Completed" {
      ViewOtherShowsAll(s.todos, s.filter);
    }
  }
}
