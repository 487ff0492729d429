# Task manager core in Dafny

A model of the core of a small Remix task manager. It has three parts.

- **The client task-list container** (`app/store.ts`). This is a zustand store with one field, `taskList`. Its four operations replace the field with a value computed from the old one: set, append, replace by `id`, remove by `id`. It becomes the class `Store.TaskList`, whose methods assign the results of pure sequence functions (`Store.Replaced`, `Store.Removed`).
- **The task-list page** (`app/routes/_index.tsx`), in module `IndexRoute`:
  - the loader, which formats stored documents and parses their comma-joined tags;
  - the due-date sum `hanldeDate` and the expiry check `handleExpired`;
  - the case-insensitive search filter;
  - the delete-confirmation modal, the class `IndexPage`, with its two state variables and `handleDelete`;
  - the `action` that forwards a `"deleteTask"` form to the server handler.
- **The server handlers** (`app/utils/tasks.ts`), in module `Tasks`:
  - validation order: title and status first, then the due date;
  - the responses of `createTask`, `updateTask`, `deleteTask` and `getTask`;
  - their effect on the document store. The store is a `map` from `_id` to record, held by the class `Tasks.TaskDb`.

The JavaScript library behaviour the code relies on is written out in `Strings` and `IndexRoute`:
- `trim`, covering the ECMAScript white-space and line-terminator characters;
- `split` on one character;
- `toLowerCase`, ASCII only;
- `includes`;
- `Number`;
- NaN-absorbing `+` and a `reduce` from 0.

Truthiness of an optional string (`undefined`, `null` and `""` are falsy) is `Basics.Truthy`.

Identifiers. A task on the page carries two identifiers, and the model keeps them apart:
- its document `_id` (`docId`), which the page passes when it deletes (`_index.tsx:245`, `:92`);
- the `id` property (`id: Option<string>`), which the container matches on (`store.ts:21`).

Documents serialised by Mongoose do not carry an `id` property, so loaded tasks have `id = None`. `IndexRoute.LocalDeleteMissesLoadedTasks` proves that a local delete after a load removes nothing.

Where the design description and the code differ, the model follows the code:
- `getTask` answers 200 with `null` for an unknown `_id`, not 404.
- `updateTask` passes missing fields as `undefined`, which Mongoose (version 6 and later) drops from the update. A field the request lacks therefore keeps its stored value, so this is not a full replace. With all six fields present it is a full replace (`Tasks.MergedReplacesAll`).
- The schema marks `priority` as required. `createTask` with a validated input but no priority fails with a 500 carrying Mongoose's validation message.

A failing store call is the parameter `fault: Option<string>`, which holds the error message. `createTask`, `updateTask` and `deleteTask` then answer 500 with `error.message || fallback`; `getTask` answers 500 with the message as it is, with no fallback.

## Model

| member | source | states |
|---|---|---|
| Store.TaskList.constructor | app/store.ts:13 | the list starts empty |
| Store.TaskList.SetTasks | app/store.ts:14 | the list becomes exactly the given list |
| Store.TaskList.AddTask | app/store.ts:15 | length grows by one, the task is last, the old list is an unchanged prefix |
| Store.Replaced | app/store.ts:18 | same length; every entry whose `id` equals the task's becomes the task, every other entry is unchanged |
| Store.ReplacedAbsent | app/store.ts:18 | replacing an `id` no entry carries leaves the list unchanged |
| Store.ReplacedIdempotent | app/store.ts:16-19 | editing twice with the same task equals editing once |
| Store.TaskList.EditTask | app/store.ts:16-19 | the new list is the replaced old list, and it is unchanged when no entry has the task's `id` |
| Store.Removed | app/store.ts:21 | survivors are exactly the entries whose `id` differs; length drops by the number of matches |
| Store.RemovedAppend | app/store.ts:21 | removal distributes over concatenation, so survivors keep their relative order |
| Store.RemovedAbsent | app/store.ts:21 | removing an `id` no entry carries leaves the list unchanged |
| Store.RemovedIdempotent | app/store.ts:21 | deleting twice equals deleting once |
| Store.TaskList.DeleteTask | app/store.ts:20-21 | the new list is the filtered old list and no entry with that `id` remains |
| Strings.Trim | app/routes/_index.tsx:30 | the result is empty or starts and ends with a non-space |
| Strings.TrimCutsSpace | app/routes/_index.tsx:30 | the result is a slice of the input with only white space outside it |
| Strings.TrimOfTrimmed | app/routes/_index.tsx:30 | trimming a text without surrounding white space returns it unchanged |
| Strings.SplitPieces | app/routes/_index.tsx:30 | pieces = separators + 1, no piece holds the separator, joining the pieces gives the input back |
| Strings.SplitJoin | app/routes/_index.tsx:30 | splitting the join of separator-free pieces gives the pieces back |
| Strings.Contains | app/routes/_index.tsx:103-104 | `includes` is true exactly when the needle occurs at some position of the text |
| Strings.ContainsEmpty | app/routes/_index.tsx:103-104 | every text includes the empty string |
| IndexRoute.ParseTags | app/routes/_index.tsx:29-31 | with a comma: one tag per comma-separated piece (commas + 1), each the trimmed piece; without one: exactly the raw text |
| IndexRoute.NoTagsIffEmpty | app/routes/_index.tsx:211-212 | the page shows no tag badges exactly when the stored tag text is empty |
| IndexRoute.ParseTagsJoin | app/routes/_index.tsx:29-31 | parsing the comma-join of two or more trimmed, comma-free tags gives them back |
| IndexRoute.DigitsToNumber | app/routes/_index.tsx:67 | `Number` of a run of digits, trimmed or not, is its decimal value |
| IndexRoute.TotalNaN | app/routes/_index.tsx:68 | the running sum is NaN exactly when some part is NaN |
| IndexRoute.TotalAppend | app/routes/_index.tsx:68 | the sum of a concatenation adds the two sums |
| IndexRoute.ValuesPermutation | app/routes/_index.tsx:66-68 | the sum of mapped parts does not depend on their order |
| IndexRoute.DateSumOfParts | app/routes/_index.tsx:63-69 | the date sum of a `/`-join is the sum of the parts' numeric values |
| IndexRoute.DateSumPermutation | app/routes/_index.tsx:63-69 | reordering the parts of a date leaves its sum unchanged |
| IndexRoute.DateSumThree | app/routes/_index.tsx:63-69 | the sum of `d/m/y` is 0 + d + m + y, each part trimmed and read with `Number`, added left to right |
| IndexRoute.DateSumDayMonthYear | app/routes/_index.tsx:63-69 | for digit-run parts the sum is day + month + year |
| IndexRoute.ExpiredIffSumAtMost | app/routes/_index.tsx:72-75 | for digit-run `d/m/y` texts, the due date counts as expired exactly when its day + month + year is at most today's day + month + year |
| IndexRoute.ExpiredOnItsOwnDay | app/routes/_index.tsx:74 | equal numeric sums count as expired |
| IndexRoute.WordNeverExpired | app/routes/_index.tsx:72-75 | a slash-free text that starts with neither a digit, a sign nor a point and is not `Infinity` sums to NaN and is never expired |
| IndexRoute.InvalidDateNeverExpired | app/routes/_index.tsx:72-75 | a task without a due date, shown as "Invalid Date", is never expired |
| IndexRoute.SumExpiryNotChronological | app/routes/_index.tsx:72-75 | 31/1/2025 comes before 1/2/2025, and 1/2/2025 counts as expired on 1/2/2025, yet 31/1/2025 does not |
| IndexRoute.CalendarDateDayMonthYear | app/routes/_index.tsx:63-67 | digit-run parts `d/m/y` read as the calendar date (d, m, y) |
| IndexRoute.OverdueIffOnOrBefore | app/routes/_index.tsx:72-75 | for digit-run `d/m/y` texts, the corrected check counts a due date as expired exactly when it is on or before today in calendar order (year, then month, then day) |
| IndexRoute.OverdueMonotone | app/routes/_index.tsx:72-75 | any date on or before an expired date is expired |
| IndexRoute.OverdueExample | app/routes/_index.tsx:72-75 | with the calendar check, 31/1/2025 and 1/2/2025 are both expired on 1/2/2025 |
| IndexRoute.Matches | app/routes/_index.tsx:102-104 | kept exactly when the lower-cased query occurs in the lower-cased title or description; throws exactly when the title misses and there is no description |
| IndexRoute.Filter | app/routes/_index.tsx:101-105 | fails exactly when the predicate throws on some task; otherwise keeps exactly the accepted tasks |
| IndexRoute.FilterSubsequence | app/routes/_index.tsx:101-105 | what the filter keeps is a subsequence of its input |
| IndexRoute.FilterAppend | app/routes/_index.tsx:101-105 | filtering distributes over concatenation |
| IndexRoute.SearchFilter | app/routes/_index.tsx:101-105 | the search fails exactly when some task has neither a matching title nor a description; otherwise it keeps exactly the matching tasks |
| IndexRoute.SearchKeepsOrder | app/routes/_index.tsx:101-105 | the search result is an order-preserving subsequence of the tasks |
| IndexRoute.SearchFilterAppend | app/routes/_index.tsx:101-105 | searching a concatenation concatenates the results |
| IndexRoute.EmptySearchKeepsAll | app/routes/_index.tsx:101-105 | an empty search keeps every task, in order |
| IndexRoute.SearchIgnoresQueryCase | app/routes/_index.tsx:103-104 | lower-casing the query does not change the result |
| IndexRoute.FormatTask | app/routes/_index.tsx:26-32 | a loaded task has no `id` property, keeps its `_id`, title, description, priority and status, carries the localized due date and the parsed tags |
| IndexRoute.Loader | app/routes/_index.tsx:21-39 | a failed read, or any document without tags, gives `[]`; otherwise one formatted task per document, in order |
| IndexRoute.LocalDeleteMissesLoadedTasks | app/store.ts:20-21 | removing by `id` from the loaded list removes nothing |
| IndexRoute.IndexPage.constructor | app/routes/_index.tsx:77-78 | the modal starts closed with nothing selected |
| IndexRoute.IndexPage.OpenModal | app/routes/_index.tsx:80-83 | the task is selected and the modal is open |
| IndexRoute.IndexPage.CloseModal | app/routes/_index.tsx:85-88 | the modal is closed and nothing is selected |
| IndexRoute.IndexPage.HandleDelete | app/routes/_index.tsx:90-99 | without a selection nothing changes; with one the container drops that `id`, one delete form carrying it is submitted, and the modal ends closed |
| IndexRoute.Action | app/routes/_index.tsx:41-49 | only a `"deleteTask"` form reaches the delete handler; any other form deletes nothing |
| IndexRoute.ConfirmDelete | app/routes/_index.tsx:90-99 | without a selection nothing changes; with one, after confirming and handling the submitted form with no store failure, the reply is 200, the selected document is gone and every other document is unchanged, the container is the old one with that `id` removed, one delete form was submitted and the modal is closed |
| Tasks.ErrorText | app/utils/tasks.ts:72-77 | the error message when it is non-empty, else the fallback |
| Tasks.Validate | app/utils/tasks.ts:44-56 | passes exactly when title, status and due date are all truthy; a failing title or status gives 400 "Title and status are required", otherwise a missing due date gives 400 "dueDate are required" |
| Tasks.TitleCheckedBeforeDueDate | app/utils/tasks.ts:44-56 | with title and due date both missing, the title/status message is returned |
| Tasks.NewRecord | app/utils/tasks.ts:59-66 | the created record holds exactly the given fields |
| Tasks.Merged | app/utils/tasks.ts:99-110 | the updated record takes every field the request carries and keeps the stored value of any field it lacks |
| Tasks.MergedReplacesAll | app/utils/tasks.ts:99-110 | an update carrying all six fields replaces the whole record |
| Tasks.CreateOutcome | app/utils/tasks.ts:40-78 | 201 exactly when the input is valid, has a priority and the write succeeds; then exactly one record is added, otherwise none |
| Tasks.CreateRejectsBeforeStore | app/utils/tasks.ts:44-58 | a validation failure is answered and the store is untouched |
| Tasks.CreateThenFind | app/utils/tasks.ts:59-71 | a created task can be read back under its new `_id` with the given fields |
| Tasks.UpdateOutcome | app/utils/tasks.ts:81-129 | 200 exactly when the input is valid, the write succeeds and the `_id` is known; then that record is merged and all others are unchanged |
| Tasks.UpdateUnknownId | app/utils/tasks.ts:112-117 | an unknown `_id` gives 404 "Task not found" and changes nothing |
| Tasks.UpdateValidatesFirst | app/utils/tasks.ts:84-98 | an invalid input gives 400 and changes nothing, whether or not the `_id` exists |
| Tasks.DeleteOutcome | app/utils/tasks.ts:131-145 | without a store failure the reply is 200 whether or not the `_id` existed; afterwards the `_id` is absent and every other record is unchanged |
| Tasks.DeleteIdempotent | app/utils/tasks.ts:131-136 | deleting twice answers and leaves the same as deleting once |
| Tasks.DeleteAbsent | app/utils/tasks.ts:131-136 | deleting an unknown `_id` answers 200 and changes nothing |
| Tasks.TaskDb.Get | app/utils/tasks.ts:8-21 | 200 with the document, or with `null` for an unknown `_id`; a store failure gives 500 with its message |
| Tasks.TaskDb.Create | app/utils/tasks.ts:40-78 | the reply and the new store are those of `CreateOutcome` on the old store |
| Tasks.TaskDb.Update | app/utils/tasks.ts:81-129 | the reply and the new store are those of `UpdateOutcome` on the old store |
| Tasks.TaskDb.Delete | app/utils/tasks.ts:131-145 | the reply and the new store are those of `DeleteOutcome` on the old store |

## Left out

- Date parsing and formatting (`new Date(...)`, `toLocaleDateString("vi-VN")`) and the clock are locale and time facilities. The loader takes the formatting as the parameter `localize`, the expiry check takes today's formatted date as a parameter, and stored due dates are kept as text.
- IndexRoute.ToNumber: reads only an optional sign followed by decimal digits, after trimming, and the empty text as 0. Fractions, exponents, hexadecimal, `Infinity` and other numeric forms become NaN here. Numbers beyond 2^53 are not rounded as in floating point.
- Strings.Lower: lowers ASCII letters only. Unicode case mapping is not modelled.
- `null` and `undefined` are not told apart. A field is present or absent (`Option`).
- Store failures and Mongoose casting errors are folded into the `fault` parameter: a malformed `_id`, and a due date that `new Date(...)` cannot parse, which the store rejects with a 500. With `fault = None`, `Tasks.CreateOutcome` and `Tasks.UpdateOutcome` store any non-empty due-date text. Mongoose's own update semantics (dropping `undefined` fields) and the schema's `required` rule on `priority` are assumptions of the model, since the library is not part of it.
- `getAllTasks` and `connectDB` are pass-throughs to the store and are not modelled. The loader receives the documents, or `None` for a failed read.
- The Polaris rendering, React hooks and the `useEffect` that copies loader data into the container are not modelled, and neither is the network round trip of `fetcher.submit`. The submitted forms are recorded in `IndexPage.submitted`, and `IndexRoute.ConfirmDelete` hands the last one to `Action`. `console` output is not modelled.
- The edit page's cache and the filtered query builder are not part of this model.
- Timestamps and the `createdAt`/`updatedAt` fields are not modelled.

## Findings

| source | as written | input that shows it | evidently intended | confidence | as-written member | corrected member |
|---|---|---|---|---|---|---|
| app/routes/_index.tsx:63-75 | a due date counts as expired when day + month + year of the due date is at most that of today | due date "31/1/2025", today "1/2/2025": 2057 > 2028, so a task one day overdue is shown as not expired, while "1/2/2025" is expired | a due date on or before today, in calendar order, is expired | not executed | IndexRoute.SumExpiryNotChronological | IndexRoute.IsOverdue |
