# Todo list: a verified model of the `App` component's state machine

The repository is a single React component, `App` (App.jsx), that keeps a todo
list in memory. It has five pieces of state:

- `todos`: a list of `{ id, task, completed }` records;
- `text`: the input box;
- `isEditing` and `editId`: the edit mode;
- `filter`: the chosen view.

Five handlers change that state: `handleAdd` (add, or update in edit mode),
`handleDelete`, `handleEdit`, `handleToggle` and `handleClear`. The component
derives two more things from it: the `filteredTodos` view and the
`(completed/total)` counter.

This Dafny project models that state machine functionally:

- `wrappers.dfy` (`Wrappers`): `Option` for `null`/`undefined`, `Result` for a
  handler that throws.
- `seqs.dfy` (`Seqs`): `Filter`, the model of `Array.prototype.filter`, and
  `IsSubsequence`, the meaning of "order-preserving".
- `text.dfy` (`Text`): `Trim`, the model of `String.prototype.trim`, using the
  exact ECMAScript WhiteSpace and LineTerminator code points.
- `todos.dfy` (`Todos`): the `Todo` record, the id rule `NextId`, and the list
  operations each handler is built from (`SetTask`, `Flip`, `RemoveId`,
  `Pending`, `View`, `CompletedCount`, `Find`).
- `app.dfy` (`App`): the `State` record that replaces the five `useState`
  hooks, one function per handler, the user `Event`s with `Step` and `Run`,
  and the invariant `Valid`.
- `scenarios.dfy` (`Scenarios`): properties of event sequences, such as adding
  N texts in a row, and a short concrete session.

The central property concerns ids. A new id is the LAST entry's id plus one,
not the maximum plus one (App.jsx:27). Ids stay unique only because every
handler keeps them strictly increasing along the list. `Valid` states this
invariant together with three others:

- ids are positive;
- every task contains something other than whitespace;
- `editId` is set exactly while `isEditing` is true.

`Init` establishes `Valid`, every handler preserves it (`StepKeepsValid`), and
so every reachable state has unique ids (`ReachableIdsUnique`).
`NextIdCanCollideWithoutOrder` shows that the last-plus-one rule alone would
not guarantee uniqueness.

Points where the code behaves in a way a reader might not expect, all modelled
as written:

- A new id is the last entry's id plus one (App.jsx:27), not the largest id
  plus one. The two agree on every reachable state, because ids increase along
  the list. Deleting the last entry brings the next id down to at most the
  deleted id (`DeleteLastFreesId`), and on an emptied list it is 1 again: an
  empty list is reachable by deleting the seeded entry, after which the next
  add hands out id 1 a second time (`SeededIdReused`). Ids are unique among
  the entries present, not over a session.
- Beginning an edit on an id that no entry carries throws: `find` returns
  `undefined` (App.jsx:45) and App.jsx:46 reads `.task` from it. `HandleEdit`
  returns `Err(NoTodoWithId(id))`. `Step` leaves the state unchanged in that
  case, because the throw happens before any setter runs.
- Submitting in edit mode when no entry carries `editId` leaves the list
  unchanged but still leaves edit mode and clears the input box
  (App.jsx:18-24, `UpdateOfDeletedEntry`). This happens when the edited entry
  is deleted while it is being edited, because `handleDelete` does not end
  edit mode (App.jsx:38-41).
- Any filter value other than "Active" or "Completed" shows the whole list
  (App.jsx:66-70), so `filter` is a `string` here (`ViewOtherShowsAll`).
- The list starts with one seeded pending entry with id 1 (App.jsx:5-7);
  `TickSeededEntry` describes a short session from that state.

## Model

| member | source | states |
|---|---|---|
| Text.Trim | App.jsx:16 | `trim` returns the slice of the input left after cutting off a whitespace prefix and a whitespace suffix, and that slice neither starts nor ends with whitespace, so exactly the leading and trailing whitespace is removed |
| Text.TrimEmptyIffAllWhitespace | App.jsx:16 | `text.trim() === ""` holds exactly when every character of the text is ECMAScript whitespace or a line terminator |
| Seqs.Filter | App.jsx:66-70 | `filter` keeps exactly the elements that pass the callback, as an order-preserving subsequence that is never longer than the input |
| Todos.NextId | App.jsx:27 | on a list with increasing ids, the next id exceeds every id in use; on a list with positive ids it is at least 1 |
| Todos.NextIdCanCollideWithoutOrder | App.jsx:27 | on a list whose ids do not increase, last-plus-one can repeat an id that is already taken |
| Todos.AppendNextKeepsInvariant | App.jsx:26-31 | appending an entry with the next id keeps the ids increasing and positive |
| Todos.IncreasingIdsAreUnique | App.jsx:27 | strictly increasing ids are pairwise distinct |
| Todos.Find | App.jsx:45 | `find` returns the FIRST entry of the list that carries the id (no earlier entry carries it), and returns `undefined` exactly when no entry carries it |
| Todos.FindReturnsTheEntry | App.jsx:45 | with increasing ids, `find` on the id of entry k returns entry k |
| Todos.SetTask | App.jsx:19-21 | the update `map` keeps the length, every id and every completed flag; it sets the task of the matching entries and leaves all other entries unchanged |
| Todos.SetTaskAbsentIsNoop | App.jsx:19-21 | updating an id that no entry has leaves the list unchanged |
| Todos.Flip | App.jsx:53-55 | the toggle `map` keeps the length, ids and tasks, and flips `completed` exactly on the matching entries |
| Todos.FlipTwice | App.jsx:53-55 | toggling the same id twice gives back the original list |
| Todos.SameIdsSameInvariant | App.jsx:19-21 | a list with the same ids position by position as an increasing, positive list is itself increasing and positive |
| Todos.RemoveId | App.jsx:39 | the delete filter keeps exactly the entries with a different id, in their original order |
| Todos.RemoveAbsentIsNoop | App.jsx:39 | deleting an id that no entry has leaves the list unchanged |
| Todos.RemovePresentDropsOne | App.jsx:39 | with increasing ids, deleting the id of entry k yields the list without entry k, one shorter |
| Todos.FilterKeepsIncreasing | App.jsx:39 | keeping some entries of a list with increasing ids, in order, leaves the ids increasing |
| Todos.FilterKeepsInvariant | App.jsx:61 | any filter keeps ids increasing and positive and keeps tasks non-blank |
| Todos.Pending | App.jsx:61 | the clear filter keeps exactly the entries that are not completed, in order |
| Todos.PendingClearsCount | App.jsx:60-63 | after clearing, the completed count is 0, and clearing again changes nothing |
| Todos.CompletedCount | App.jsx:116 | the counter's numerator is at most the total, and it is 0 exactly when no entry is completed |
| Todos.View | App.jsx:66-70 | the view is an order-preserving subsequence; "Active" keeps exactly the pending entries and "Completed" exactly the completed ones |
| Todos.ViewOtherShowsAll | App.jsx:69 | any filter value other than "Active" and "Completed", "All" included, shows the whole list |
| Todos.ViewsPartition | App.jsx:66-70 | the "Active" and "Completed" views have lengths that add up to the list's length, and together they hold every entry |
| Todos.CountMatchesViews | App.jsx:116 | the numerator equals the length of the "Completed" view; total minus numerator equals the length of the "Active" view |
| App.Init | App.jsx:5-12 | the initial state holds the one seeded pending entry with id 1, an empty input, no edit mode and filter "All", and it satisfies the invariant |
| App.SetText | App.jsx:86 | typing replaces the input text and leaves the list, the edit mode and the filter as they were |
| App.SetFilter | App.jsx:105 | choosing a filter replaces the filter and leaves the list, the input and the edit mode as they were |
| App.HandleAdd | App.jsx:15-35 | blank text leaves the whole state unchanged. Otherwise the input is cleared and edit mode ends. In edit mode only the task of the `editId` entry changes. Outside edit mode exactly one pending entry holding the untrimmed text is appended, and the earlier entries stay |
| App.AddAppendsFreshEntry | App.jsx:26-34 | adding outside edit mode appends the entry with id last-plus-one (1 on an empty list) and clears the input; when the ids increase, the new id is larger than every existing one |
| App.UpdateOfDeletedEntry | App.jsx:18-24 | submitting in edit mode for an id that is gone leaves the list unchanged but still ends edit mode and clears the input |
| App.AddKeepsValid | App.jsx:15-35 | add and update both preserve the invariant |
| App.HandleDelete | App.jsx:38-41 | delete keeps exactly the entries with a different id, in order, and leaves input, edit mode and filter alone |
| App.DeleteAbsentIsNoop | App.jsx:38-41 | deleting an id that no entry has leaves the whole state unchanged |
| App.DeleteRemovesExactlyOne | App.jsx:38-41 | when the ids increase, deleting the id of entry k removes that entry and nothing else |
| App.DeleteLastFreesId | App.jsx:27-41 | after deleting the last entry of an increasing, positive list, the next id is at most the deleted id, so ids are unique only among the entries present |
| App.DeleteKeepsValid | App.jsx:38-41 | delete preserves the invariant |
| App.HandleEdit | App.jsx:44-49 | edit fails exactly when no entry carries the id; otherwise the input takes the task of the first entry with that id, edit mode starts for that id, and the list is unchanged |
| App.EditKeepsValid | App.jsx:44-49 | on a valid state, editing the id of entry k seeds the input with entry k's task, and the resulting state is valid |
| App.HandleToggle | App.jsx:52-57 | toggle keeps the length, the ids, the tasks and the order, flips `completed` exactly on the matching entry, and leaves the rest of the state alone |
| App.ToggleKeepsValid | App.jsx:52-57 | toggle preserves the invariant |
| App.ToggleTwiceRestores | App.jsx:52-57 | toggling the same id twice restores the state, whatever the state |
| App.HandleClear | App.jsx:60-63 | clear keeps exactly the pending entries, in order, and afterwards the completed count is 0 |
| App.ClearKeepsValid | App.jsx:60-63 | clear preserves the invariant |
| App.ClearTwiceIsNoop | App.jsx:60-63 | a second clear is a no-op, whatever the state |
| App.FilteredTodos | App.jsx:66-70 | the displayed list is an order-preserving subsequence of `todos`, selected by the filter |
| App.FilterOnlySelects | App.jsx:66-70 | the "Active" and "Completed" views split the list by length; any other filter value shows `todos` itself |
| App.Counter | App.jsx:116 | the counter reads (completed, total), with completed at most total and 0 exactly when nothing is completed |
| App.Step | App.jsx:15-63 | an edit of an id no entry carries leaves the whole state unchanged, since the throw at line 46 precedes every setter; only typing, submitting and editing change the input box; only choosing a filter changes the filter, and it leaves the list alone |
| App.EditStepKeepsValid | App.jsx:44-49 | an edit event preserves the invariant whether `handleEdit` succeeds or throws |
| App.StepKeepsValid | App.jsx:15-63 | every user event preserves the invariant |
| App.RunKeepsValid | App.jsx:15-63 | every sequence of events preserves the invariant |
| App.ReachableIdsUnique | App.jsx:5-7 | every state reachable from the initial one is valid and has unique ids |
| Scenarios.BlankSubmitIsNoop | App.jsx:16 | pressing add with whitespace-only text leaves the whole state unchanged, in edit mode or not |
| Scenarios.AddingInSequence | App.jsx:26-34 | adding N non-blank texts outside edit mode appends N pending entries, in order, with consecutive ids starting at the next id |
| Scenarios.AddingToEmptyList | App.jsx:27 | from an empty list, adding N non-blank texts yields entries with ids 1 to N, increasing |
| Scenarios.SeededIdReused | App.jsx:5-41 | from the initial state, deleting the seeded entry and adding a task creates an entry with id 1 again |
| Scenarios.TickSeededEntry | App.jsx:5-7 | from the initial state, adding a task, ticking entry 1 and choosing "Completed" shows only the seeded entry, and the counter reads (1/2) |

## Left out

- Rendering: the JSX markup, the Tailwind class strings, the strike-through styling of completed entries and the icons (App.jsx:72-167). They are presentation only.
- React's `useState` and its render cycle. The hooks are one immutable `State` record here, and each call of a handler is one transition. React batches the setters of one handler into one new state, which is what each transition computes.
- The `onChange` and `onClick` wiring. Each user action is an `Event` applied by `Step`.
- The filter buttons can only set "All", "Active" or "Completed" (App.jsx:102). `SetFilter` accepts any string, which only widens the model.
- Todos.NextId: ids are unbounded integers. A JavaScript number stops telling consecutive integers apart above 2^53, which a session of clicks cannot reach.
- Text.Trim: Dafny strings hold Unicode scalar values, whereas JavaScript strings are UTF-16 code units and may contain lone surrogates. Every whitespace code point `trim` strips lies in the Basic Multilingual Plane, so the two agree on every Dafny string.
- A throw from `handleEdit` is an `Err` value. React's reporting of an uncaught error from an event handler is not modelled.
