# Task Management Dashboard: list handling

This project models the client-side list handling of the Task Management Dashboard in Dafny. The dashboard is a single-page view. It keeps a local copy of the store's task records and shows a filtered, searchable table of them. After each successful create, edit, completion toggle or delete, it updates that copy from the store's reply.

Modules:

- `Seqs`: the order-preserving filter that `Array.prototype.filter` performs, and the subsequence relation.
- `Text`: `toLowerCase` restricted to ASCII letters, and `includes` as a scan proved equal to the positional definition of an occurrence.
- `Tasks`: the `Task` record `{id, title, description, dueDate, priority, completed}` and `find` by id.
- `View`: `filteredTasks` (the status filter followed by the title search) and the Status column's `onFilter`.
- `Cache`: the local-copy updates and the request bodies. Append is used on create, replace-by-id on edit and toggle, and remove-by-id on delete. The bodies are the toggled record and the submit payload.
- `Dashboard`: the handlers as transitions of one explicit state value. Each network call is an input: the store's answer to the request the handler builds. `Failed` stands for a rejected call, which the source catches and logs, so the state stays as it was.

Some lemmas describe a round trip. For these, `Dashboard.EchoStore` stands for a store that writes every field it is sent and returns the stored record. The handlers themselves accept any answer.

Two facts about the code shape the model:
- On edit, the form has no completion field (src/App.jsx:235-269). So the flag sent is always the edited task's own flag (src/App.jsx:61).
- The store's schema gives `completed` no default (backend/server.js:25). The client sends `completed: false` on create (src/App.jsx:61).

## Model

| member | source | states |
|---|---|---|
| Seqs.Filter | src/App.jsx:101-109 | the filter keeps only elements that pass, never grows the list, and invents no elements |
| Text.LowerChar | src/App.jsx:108 | upper-case ASCII letters map to the lower-case letter at the same alphabet position; every other character is unchanged; the result is never an upper-case ASCII letter |
| Text.ToLower | src/App.jsx:108 | lowercasing keeps the length and lowers each character in place |
| Text.Includes | src/App.jsx:108 | the empty needle is always contained; a contained needle is no longer than the text; a needle as long as the text is contained exactly when the two are equal |
| Text.LowerCharSameIff | src/App.jsx:108 | two characters lower-case alike exactly when they are equal or are the same ASCII letter in different case |
| Text.ToLowerSameIff | src/App.jsx:108 | two strings lower-case alike exactly when they differ only in the case of ASCII letters |
| Text.IncludesIffOccurs | src/App.jsx:108 | `includes` holds exactly when the needle occurs at some position of the text, in both directions |
| Text.IncludesEmpty | src/App.jsx:108 | the empty search text is contained in every title |
| Tasks.FindById | src/App.jsx:91 | `find` yields nothing exactly when no task has the id; otherwise it yields a cached task with that id |
| Tasks.FindByIdIsFirst | src/App.jsx:91 | the task found is the first one in cache order that carries the id |
| Tasks.FindByIdUnique | src/App.jsx:91 | with unique ids, `find` returns the one task carrying the id |
| View.StatusFiltered | src/App.jsx:102-106 | `Completed` keeps only finished tasks, `Pending` keeps only unfinished ones; every kept task comes from the cache |
| View.FilteredTasks | src/App.jsx:100-110 | every shown task passes the status filter and its lowered title contains the lowered search text |
| View.FilteredTasksSinglePass | src/App.jsx:100-110 | the two filters in sequence equal a single filter by "passes both" |
| View.FilteredTasksExact | src/App.jsx:100-110 | the view holds each visible task exactly as often as the cache does, and no other task |
| View.FilteredTasksIsSubsequence | src/App.jsx:100-110 | the view is an order-preserving subsequence of the cache |
| View.AllKeepsEverything | src/App.jsx:105 | with `All`, no task is dropped on status grounds |
| View.EmptySearchIsStatusView | src/App.jsx:107-109 | with an empty search text, the view is exactly the status-filtered cache |
| View.StatusViewsPartition | src/App.jsx:100-110 | for one search text, the `Completed` and `Pending` views share no task; together they hold each task of the `All` view exactly as often, and their lengths add up |
| View.SearchIgnoresCase | src/App.jsx:107-109 | titles or search texts that differ only in letter case give the same search verdict |
| View.StatusColumnFilter | src/App.jsx:141 | the column keeps a record for value `true` exactly when the select's `Completed` would, and for `false` exactly when `Pending` would |
| View.StatusColumnAgreesWithSelect | src/App.jsx:137-141 | filtering by the Status column's value `true` or `false` selects the same tasks as the select's `Completed` or `Pending` |
| Cache.Append | src/App.jsx:69 | create grows the list by one; the old list is a prefix and the last element is the store's record |
| Cache.ReplaceById | src/App.jsx:66 | replace keeps the length; tasks with another id are unchanged and tasks with the id become the store's record |
| Cache.RemoveById | src/App.jsx:83 | after delete, no task carries the id and every remaining task was in the cache |
| Cache.ReplaceAbsentIsIdentity | src/App.jsx:94 | replacing an id that no task carries leaves the cache as it was |
| Cache.ReplaceKeepsUniqueIds | src/App.jsx:94 | replacing with a record that keeps the id preserves unique ids |
| Cache.AppendKeepsUniqueIds | src/App.jsx:69 | appending a record with an id not yet cached preserves unique ids |
| Cache.RemoveKeepsOthers | src/App.jsx:83 | delete keeps every task with another id, as often as before and in its original order |
| Cache.RemoveIdempotent | src/App.jsx:83 | deleting an absent id changes nothing, and deleting twice is the same as deleting once |
| Cache.RemoveUniqueShrinksByOne | src/App.jsx:83 | with unique ids, deleting a present id shortens the cache by exactly one |
| Cache.FilterKeepsUniqueIds | src/App.jsx:83 | filtering the cache, and so deleting from it, preserves unique ids |
| Cache.AppendView | src/App.jsx:69 | after a create, the view is the old view followed by the new record exactly when that record passes both filters |
| Cache.RemoveView | src/App.jsx:83 | after a delete, the view is the old view with that id removed |
| Cache.Toggled | src/App.jsx:92 | the toggle record has the opposite `completed` flag and the same id, title, description, due date and priority |
| Cache.ToggledInvolution | src/App.jsx:92 | toggling a record twice gives it back |
| Cache.ToggleRecord | src/App.jsx:91-92 | there is no toggle record exactly when no task has the id; otherwise it is the first such task with its flag flipped |
| Cache.SubmitPayload | src/App.jsx:58-62 | the payload's `completed` is the edited task's flag, or false when creating; the form's fields are sent as entered |
| Cache.UnchangedEditRoundTrip | src/App.jsx:157-161 | saving the edit form as it was filled from a task sends exactly that task's fields back |
| Dashboard.OpenEdit | src/App.jsx:156-163 | the Edit button records the row as the task being edited and opens the form; the cache, filter and search are unchanged |
| Dashboard.OpenAdd | src/App.jsx:190-194 | the Add Task button clears the task being edited and opens the form; the cache, filter and search are unchanged |
| Dashboard.SubmitRequest | src/App.jsx:64-68 | saving issues an update of the edited task's id when editing, otherwise a create, carrying the submit payload |
| Dashboard.Submit | src/App.jsx:55-78 | a rejected form or a failed call changes nothing. Every success closes the form and clears the task being edited, even when the cache ends up as it was; filter and search are left alone. A create grows the cache by one: the old cache is a prefix and the answer comes last. An edit puts the answer in place of every task with the edited id and leaves the other tasks unchanged |
| Dashboard.Delete | src/App.jsx:80-87 | a failed call changes nothing. A success leaves no task with the id and keeps every other task, as often as before and in its original order. Only the cache changes: the form, the edited task, filter and search stay as they were |
| Dashboard.Complete | src/App.jsx:89-98 | a missing id or a failed call changes nothing. The cache length is kept and tasks with other ids are unchanged. On success every task with the id becomes the store's answer. Only the cache changes: the form, the edited task, filter and search stay as they were |
| Dashboard.CompleteFlipsOneTask | src/App.jsx:89-94 | with unique ids and a store that writes what it is sent, completing flips exactly that task's flag |
| Dashboard.CompleteTwiceRestores | src/App.jsx:89-94 | with unique ids and such a store, completing the same task twice restores the cache |
| Dashboard.EditKeepsCompletion | src/App.jsx:61-66 | editing a row and saving keeps that task's completion flag, whatever the form changed |
| Dashboard.UnchangedEditIsNoOp | src/App.jsx:155-166 | opening a row for edit and saving without changes leaves the cache as it was |
| Dashboard.CreateAppendsPendingTask | src/App.jsx:58-69 | a create appends one pending task with the store's new id, keeps ids unique, and shows it exactly when it passes the filters |
| Dashboard.DeleteRemovesOne | src/App.jsx:80-83 | with unique ids, a confirmed delete of a present id removes exactly one task, keeps ids unique, removes the id from the view, and repeating it changes nothing |

## Left out

- The store service (`backend/server.js`): its routes are thin wrappers over database calls. Id generation and update-merge behaviour belong to the database library. Store answers are inputs here.
- HTTP calls, `async`/`await` ordering, overlapping in-flight requests and `console.error` logging: these are I/O. A rejected call is the `Failed` outcome.
- Initial loading (`useEffect` at src/App.jsx:42-53): the cache is simply replaced by the list the store returns. It is not modelled as a transition.
- An update whose id the store no longer holds makes the store answer `null`, which the source would put into the cache. Answers are typed as `Task`, so this case is not modelled.
- `handleComplete` looks the task up in the rendered snapshot `tasks` but maps over the latest `prev`. The model uses one cache for both, so interleavings with other updates are not modelled.
- The required-field rules of the form (src/App.jsx:236-260) are library behaviour. Validation is modelled only by its result: values, or a rejection.
- Date normalisation with `format("YYYY-MM-DD")` (src/App.jsx:60) is library behaviour. The due date is carried as the formatted text.
- Column sorters (`localeCompare`, date subtraction; src/App.jsx:116, 126, 131) depend on locale-dependent collation and date parsing.
- Table pagination, rendering, the modal's cancel button, `form.resetFields` and the dark-mode switch are UI.
- The library's handling of several selected Status column values is library behaviour. Only the column's `onFilter` predicate is modelled.
- Text.LowerChar: lowercases ASCII letters only, not the full Unicode case mapping of `toLowerCase`.
- View.StatusColumnAgreesWithSelect: assumes every record carries a boolean `completed` flag. The store's schema has no default (backend/server.js:25), so a record written without the flag is possible. For such a record the select's `Pending` keeps it (`!undefined` is true, src/App.jsx:104), but the column's `false` filter drops it (`undefined === false` is false, src/App.jsx:141). The flag is typed `bool` because the client always sends one (src/App.jsx:61, 92).
