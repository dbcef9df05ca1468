/** Properties of whole event sequences run against the `App` state machine:
    what a series of additions produces, and a short concrete session. */
module Scenarios {
  import opened Wrappers
  import opened Seqs
  import opened Text
  import opened Todos
  import opened App

  /** Typing each text in turn and pressing the add button after each. */
  function TypeAndSubmit(texts: seq<string>): (events: seq<Event>)
    ensures |events| == 2 * |texts|
  {
    if |texts| == 0 then [] else [Input(texts[0]), Submit] + TypeAndSubmit(texts[1..])
  }

  /** The events come in pairs: the i-th text is typed at position 2i, and
      the add button is pressed right after it. */
  lemma {:induction false} TypeAndSubmitPairs(texts: seq<string>, i: nat)
    requires i < |texts|
    ensures TypeAndSubmit(texts)[2 * i] == Input(texts[i])
    ensures TypeAndSubmit(texts)[2 * i + 1] == Submit
    decreases i
  {
    if i > 0 {
      TypeAndSubmitPairs(texts[1..], i - 1);
      assert texts[1..][i - 1] == texts[i];
    }
  }

  /** The pending entries that adding `texts` should create, numbered from
      `first` upwards. */
  function NewEntries(first: int, texts: seq<string>): seq<Todo>
  {
    seq(|texts|, i requires 0 <= i < |texts| => Todo(first + i, texts[i], false))
  }

  /** A text made of whitespace only is ignored by the add button, in edit
      mode or not: the whole state stays as it was. */
  lemma BlankSubmitIsNoop(s: State)
    requires AllWhitespace(s.text)
    ensures HandleAdd(s) == s
  {
    TrimEmptyIffAllWhitespace(s.text);
  }

  /** The entries for a non-empty list of texts: the first text's entry,
      then the rest numbered from the next id. */
  lemma NewEntriesCons(first: int, texts: seq<string>)
    requires |texts| > 0
    ensures NewEntries(first, texts) == [Todo(first, texts[0], false)] + NewEntries(first + 1, texts[1..])
  {
  }

  /** Appending the entry for the first text and then the entries for the
      rest gives the entries for all texts. */
  lemma AppendThenEntries(base: seq<Todo>, texts: seq<string>)
    requires |texts| > 0
    ensures var added := base + [Todo(NextId(base), texts[0], false)];
      added + NewEntries(NextId(added), texts[1..]) == base + NewEntries(NextId(base), texts)
  {
    var n := NextId(base);
    var added := base + [Todo(n, texts[0], false)];
    assert NextId(added) == n + 1;
    NewEntriesCons(n, texts);
    assert added + NewEntries(n + 1, texts[1..]) == base + ([Todo(n, texts[0], false)] + NewEntries(n + 1, texts[1..]));
  }

  /** Running two events and then a sequence is running the sequence from
      the state the two events lead to. */
  lemma RunTwoThenRest(s: State, a: Event, b: Event, rest: seq<Event>)
    ensures Run(s, [a, b] + rest) == Run(Step(Step(s, a), b), rest)
  {
    var events := [a, b] + rest;
    assert events[0] == a && events[1..] == [b] + rest;
    assert ([b] + rest)[0] == b && ([b] + rest)[1..] == rest;
  }

  /** Typing a non-blank text and pressing add outside edit mode appends one
      pending entry carrying the next id. */
  lemma TypeAndSubmitOne(s: State, text: string)
    requires !s.isEditing && !AllWhitespace(text)
    ensures var r := Step(Step(s, Input(text)), Submit);
      r.todos == s.todos + [Todo(NextId(s.todos), text, false)] && !r.isEditing
  {
    TrimEmptyIffAllWhitespace(text);
  }

  /** Adding non-blank texts one after the other outside edit mode appends
      one pending entry per text, in order, with consecutive ids starting at
      the next id of the original list. */
  lemma {:induction false} AddingInSequence(s: State, texts: seq<string>)
    requires !s.isEditing
    requires forall i :: 0 <= i < |texts| ==> !AllWhitespace(texts[i])
    ensures Run(s, TypeAndSubmit(texts)).todos == s.todos + NewEntries(NextId(s.todos), texts)
    ensures !Run(s, TypeAndSubmit(texts)).isEditing
    decreases |texts|
  {
    if |texts| == 0 {
      assert s.todos + NewEntries(NextId(s.todos), texts) == s.todos;
    } else {
      var n := NextId(s.todos);
      var rest := texts[1..];
      var first := Todo(n, texts[0], false);
      var added := Step(Step(s, Input(texts[0])), Submit);
      TypeAndSubmitOne(s, texts[0]);
      assert TypeAndSubmit(texts) == [Input(texts[0]), Submit] + TypeAndSubmit(rest);
      RunTwoThenRest(s, Input(texts[0]), Submit, TypeAndSubmit(rest));
      assert forall i :: 0 <= i < |rest| ==> !AllWhitespace(rest[i]) by {
        forall i | 0 <= i < |rest| ensures !AllWhitespace(rest[i]) {
          assert rest[i] == texts[i + 1];
        }
      }
      AddingInSequence(added, rest);
      AppendThenEntries(s.todos, texts);
      assert added.todos == s.todos + [first];
    }
  }

  /** Starting from an empty list, adding N non-blank texts gives N entries
      with ids 1, 2, ..., N, so strictly increasing and unique. */
  lemma AddingToEmptyList(s: State, texts: seq<string>)
    requires s.todos == [] && !s.isEditing
    requires forall i :: 0 <= i < |texts| ==> !AllWhitespace(texts[i])
    ensures var todos := Run(s, TypeAndSubmit(texts)).todos;
      && |todos| == |texts|
      && (forall i :: 0 <= i < |todos| ==> todos[i] == Todo(i + 1, texts[i], false))
      && IdsIncreasing(todos)
  {
    AddingInSequence(s, texts);
    EntriesFromOne(s.todos, Run(s, TypeAndSubmit(texts)).todos, texts);
  }

  /** The entries appended to an empty list, numbered from 1. */
  lemma EntriesFromOne(before: seq<Todo>, todos: seq<Todo>, texts: seq<string>)
    requires before == [] && todos == before + NewEntries(NextId(before), texts)
    ensures |todos| == |texts|
    ensures forall i :: 0 <= i < |todos| ==> todos[i] == Todo(i + 1, texts[i], false)
    ensures IdsIncreasing(todos)
  {
    var entries := NewEntries(1, texts);
    assert NextId(before) == 1;
    assert before + entries == entries;
    NewEntriesIncrease(1, texts);
  }

  /** Entries numbered consecutively have increasing ids. */
  lemma NewEntriesIncrease(first: int, texts: seq<string>)
    ensures IdsIncreasing(NewEntries(first, texts))
  {
  }

  /** Running four events applies them one after the other. */
  lemma RunFourEvents(s: State, a: Event, b: Event, c: Event, d: Event)
    ensures Run(s, [a, b, c, d]) == Step(Step(Step(Step(s, a), b), c), d)
  {
    assert [a, b, c, d] == [a, b] + [c, d];
    RunTwoThenRest(s, a, b, [c, d]);
    assert [c, d] == [c, d] + [];
    RunTwoThenRest(Step(Step(s, a), b), c, d, []);
  }

  /** Deleting the id of the only entry empties the list. */
  lemma DeleteOnlyEntry(s: State)
    requires |s.todos| == 1
    ensures Step(s, Delete(s.todos[0].id)) == s.(todos := [])
  {
    assert s.todos[1..] == [];
  }

  /** On an emptied list, typing a non-blank task and adding it creates an
      entry with id 1. */
  lemma AddToEmptiedList(s: State, task: string)
    requires s.todos == [] && !s.isEditing && !AllWhitespace(task)
    ensures Run(s, [Input(task), Submit]).todos == [Todo(1, task, false)]
  {
    assert [Input(task), Submit] == [Input(task), Submit] + [];
    RunTwoThenRest(s, Input(task), Submit, []);
    TypeAndSubmitOne(s, task);
  }

  /** Ids are not reused while their entry exists, but they are once it is
      gone: deleting the seeded entry and adding a task gives the new entry
      id 1 again. */
  lemma SeededIdReused(task: string)
    requires !AllWhitespace(task)
    ensures Run(Init(), [Delete(1), Input(task), Submit]).todos == [Todo(1, task, false)]
  {
    var events := [Delete(1), Input(task), Submit];
    assert events[0] == Delete(1) && events[1..] == [Input(task), Submit];
    DeleteOnlyEntry(Init());
    AddToEmptiedList(Init().(todos := []), task);
  }

  /** A short session from the initial state: type a non-blank task and add
      it, tick the seeded entry, choose "Completed". Only the seeded entry is
      shown and the counter reads (1/2). */
  lemma TickSeededEntry(task: string)
    requires !AllWhitespace(task)
    ensures var s := Run(Init(), [Input(task), Submit, Toggle(1), ChooseFilter("Completed")]);
      && s.todos == [Todo(1, SeedTask, true), Todo(2, task, false)]
      && FilteredTodos(s) == [Todo(1, SeedTask, true)]
      && Counter(s) == (1, 2)
  {
    var added := State([Todo(1, SeedTask, false), Todo(2, task, false)], "", false, None, "All");
    var done := [Todo(1, SeedTask, true), Todo(2, task, false)];
    SessionAdd(task);
    RunFourEvents(Init(), Input(task), Submit, Toggle(1), ChooseFilter("Completed"));
    SessionTick(added, task);
    SessionViews(done);
  }

  /** First half of the session: typing the task and adding it. */
  lemma SessionAdd(task: string)
    requires !AllWhitespace(task)
    ensures Step(Step(Init(), Input(task)), Submit)
      == State([Todo(1, SeedTask, false), Todo(2, task, false)], "", false, None, "All")
  {
    TypeAndSubmitOne(Init(), task);
  }

  /** Second half of the session: ticking entry 1 and choosing "Completed". */
  lemma SessionTick(added: State, task: string)
    requires added == State([Todo(1, SeedTask, false), Todo(2, task, false)], "", false, None, "All")
    ensures Step(Step(added, Toggle(1)), ChooseFilter("Completed"))
      == State([Todo(1, SeedTask, true), Todo(2, task, false)], "", false, None, "Completed")
  {
    var r := HandleToggle(added, 1);
    assert r.todos[0] == Todo(1, SeedTask, true);
    assert r.todos[1] == Todo(2, task, false);
  }

  /** The view and counter of the list the session ends with. */
  lemma SessionViews(done: seq<Todo>)
    requires |done| == 2 && done[0].completed && !done[1].completed
    ensures View(done, "Completed") == [done[0]]
    ensures CompletedCount(done) == 1
  {
    assert done[1..][1..] == [];
    assert Filter(IsDone, done) == [done[0]];
  }
}
