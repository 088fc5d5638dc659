# Maintenance planner — verified model of the `App` state machine

The application is a one-page maintenance planner. A user types an equipment
name, a number of hours, a description and a date into a form and submits it.
Each submission becomes a task record in an in-memory list, and each row of the
list has a delete control. All behaviour lives in the `App` component of
`src/App.tsx`. That component holds two state variables:

- `tasks`: the ordered list of `MaintenanceTask` records.
- `formData`: a record of four strings.

Three kinds of event replace that state: editing one field, submitting the form,
and deleting a task.

The model has two modules:

- `TaskList` (`task_list.dfy`) holds the values. It defines the `Task` record,
  the four-field `Form`, the empty form, and the set of ids of a list. It also
  defines the filter `RemoveId` that `handleDelete` applies, and the lemmas about
  it and about appending: order preservation, idempotence, the no-match identity,
  exactly-one removal under distinct ids, and preservation of id uniqueness.
- `AppComponent` (`app.dfy`) holds the component. Class `App` has the fields
  `tasks` and `formData`. Its methods are the handlers: `EditEquipment`,
  `EditHours`, `EditDescription`, `EditDate`, `Submit` and `Delete`. Each method
  states the whole new state, and all of them keep the invariant `Valid()`
  (pairwise distinct ids). Two client methods replay two usage scenarios:
  submitting on a fresh page, and submitting two tasks and then deleting the
  first.

The state maps onto the types of `TaskList` as follows. `Task` is the
`MaintenanceTask` interface (src/App.tsx:4-10), with the same five fields. Its
`hours` field has type `Hours`, which keeps the text that `Number` converted
instead of the resulting JavaScript number (see "Left out"). `Form` is the shape
of `formData` (src/App.tsx:14-19), with four strings. `EmptyForm` is that
record's initial value and the value the submit handler resets it to
(src/App.tsx:15-18 and 31).

`crypto.randomUUID()` becomes the `freshId` parameter of `Submit`. Its
collision resistance becomes the precondition that `freshId` is not already an
id in the list.

## Model

| member | source | states |
|---|---|---|
| `TaskList.RemoveId` | src/App.tsx:35 | the filtered list is no longer than the input, and a task is in it exactly when it is in the input and its id differs from the deleted id |
| `TaskList.RemoveIdKeepsOrder` | src/App.tsx:35 | the result of a delete is the subsequence of the list at strictly increasing positions, and those positions are exactly the ones whose id differs from the deleted id, so the kept tasks keep their relative order |
| `TaskList.RemoveIdAbsent` | src/App.tsx:35 | deleting an id that no task carries leaves the list unchanged |
| `TaskList.RemoveIdUnchangedIff` | src/App.tsx:35 | a delete leaves the list unchanged if and only if no task carries the id |
| `TaskList.RemoveIdIdempotent` | src/App.tsx:35 | deleting the same id twice gives the same list as deleting it once |
| `TaskList.RemoveIdUnique` | src/App.tsx:35 | when ids are pairwise distinct and position i carries the id, the delete removes exactly position i, keeps all other tasks in order, and shortens the list by one |
| `TaskList.RemoveIdPreservesUniqueIds` | src/App.tsx:35 | a delete keeps ids pairwise distinct, and the ids left are the old ids minus the deleted one |
| `TaskList.AppendUniqueIds` | src/App.tsx:24-30 | appending a task to a list with distinct ids keeps them distinct if and only if the new id is fresh; the ids afterwards are the old ids plus the new one |
| `AppComponent.App.constructor` | src/App.tsx:13-19 | the initial state is an empty task list and a form of four empty strings |
| `AppComponent.App.EditEquipment` | src/App.tsx:65 | the equipment field takes the typed value; the other three fields and the task list are unchanged |
| `AppComponent.App.EditHours` | src/App.tsx:79 | the hours field takes the typed text; the other three fields and the task list are unchanged |
| `AppComponent.App.EditDescription` | src/App.tsx:92 | the description field takes the typed value; the other three fields and the task list are unchanged |
| `AppComponent.App.EditDate` | src/App.tsx:107 | the date field takes the picked value; the other three fields and the task list are unchanged |
| `AppComponent.App.Submit` | src/App.tsx:21-32 | the list grows by exactly one and every earlier task stays in place; the last task has the fresh id, the form's equipment, description and date verbatim, and the hours converted from the form's text; the ids gain the fresh id and stay distinct; the form is reset to four empty strings |
| `AppComponent.App.Delete` | src/App.tsx:34-36 | the list becomes the filter of the old list on the id, and the form is unchanged; the ids lose the deleted id and stay distinct; a present id shortens the list by exactly one, and an absent id leaves it unchanged |
| `AppComponent.SubmitOnFreshPage` | src/App.tsx:13-32 | filling in all four fields on a fresh page and submitting yields a list holding exactly one task with the typed values and the given id, and an empty form |
| `AppComponent.SubmitTwoDeleteFirst` | src/App.tsx:21-36 | submitting two forms under distinct ids and then deleting the first id leaves exactly the second task, unchanged |

## Left out

- Rendering (src/App.tsx:38-170) is left out: the markup, the styling, the icons, the placeholder shown for an empty list, and the per-row layout. It is presentation with no state transition of its own. The delete control only calls `handleDelete` with the row's id, and `Delete` models that call.
- `crypto.randomUUID()` (src/App.tsx:24) is a foreign call. It is the `freshId` parameter of `Submit`, and its uniqueness is the precondition `freshId !in Ids(tasks)`.
- `Number(formData.hours)` (src/App.tsx:26) is JavaScript's floating-point coercion: the empty string gives 0 and bad text gives NaN. The model records the converted hours as `Number(text)` of the raw text and does not compute the number. So two texts that denote the same number, such as "5" and "05", give different `Hours` values here. No handler compares hours, so no modelled property depends on this.
- `new Date(task.date).toLocaleDateString()` (src/App.tsx:152) is locale-dependent display formatting, and it is left out.
- The `required` attributes on the inputs (src/App.tsx:63, 77, 90, 105) are enforced by the browser before the submit handler runs, not by the component's code. `Submit` therefore accepts any form, empty fields included.
- `e.preventDefault()` (src/App.tsx:22) and React's batching and re-rendering are left out. Each handler is one atomic transition that reads the state current when it runs.
- The lengths of longer submission sequences are not stated as a separate lemma. Each `Submit` adds exactly one task and each edit adds none, which gives the count for any sequence of submissions.
