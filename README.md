# Todo app server: a Dafny model

This project models the server core of a small to-do application. The core
has two parts. The first is the `Todo` Mongoose model, which covers:
- the field constraints and defaults of a task;
- the `pre("save")` hook that refreshes `lastModified` and keeps
  `completedAt` consistent with `completed`;
- `toggleCompletion`;
- the three static filters.

The second is the Express router for `/api/todos`. It covers:
- the id check;
- listing with a filter, sort order and pagination, plus the in-memory
  priority re-sort;
- reading, creating, updating, toggling and deleting one task;
- deleting every completed task;
- the statistics summary.

Modules:

- `Wrappers`: `Option` and `Result`.
- `JsText`: `String.prototype.trim` over ECMAScript whitespace. Its lemmas
  say what trimming keeps, that it is idempotent, and that a string trims to
  nothing exactly when it is blank.
- `TodoModel`: the stored record `Task` and the schema validation
  (`SchemaErrors`), with one message per failing path. It also holds:
  - the hook's completion rule (`SavedCompletedAt`) and `Toggled`;
  - the filters `Where`, `GetByPriority`, `GetCompleted` and `GetActive`;
  - the class `TodoDoc`, a Mongoose document. Its fields are assigned
    through the schema's setters, and its `Save` validates, runs the hook
    and returns the saved record.
- `Ordering`: the sort keys of the four store orders and of the in-memory
  comparator, with an insertion sort `Sort`. `Sort` is proved to
  return a sorted permutation and to be stable.
- `TodoRoutes`: the request logic that does not touch the store:
  - `validateObjectId`;
  - the query, sort, limit and skip of the list route;
  - the page the store returns (`Fetched`);
  - the in-place array sort of that page (`SortByRank`);
  - create and update semantics (`Created`, `ApplyUpdate`);
  - the pieces of the statistics summary.
- `TodoRouter`: the class `Todos`, which stands for the collection. It
  holds a map from id to record, the stored order of the ids, and a clock.
  There is one method per route handler. Every method keeps the store
  invariant `StoreValid`: ids are distinct, in lower case and listed exactly
  once, and every record is well formed and saved no later than the clock.
  The handlers that take an id look up its lower-case form, as the ObjectId
  cast of `findById` does. Each
  method states its reply and the new store in terms of the functions of
  `TodoRoutes` and `TodoModel`.

The database is replaced by that class. The clock stands in for
`new Date()`: each save happens at the instant after the latest one, so
save times strictly increase. The ids the store generates for new records
are a parameter of `Create`, which requires them in lower case.

## Model

| member | source | states |
|---|---|---|
| JsText.TrimIsCore | server/routes/todos.js:140 | `trim` returns the part of its input between a blank prefix and a blank suffix, and the result neither starts nor ends with whitespace |
| JsText.TrimEmptyIffBlank | server/routes/todos.js:132 | a text trims to the empty string exactly when every character is whitespace |
| JsText.TrimIdempotent | server/models/Todo.js:8 | trimming twice, once by the route and once by the schema setter, gives the same text as trimming once |
| JsText.TrimFixesTrimmed | server/models/Todo.js:8 | the trim setter leaves a string unchanged exactly when it is already trimmed |
| TodoModel.ParsePriority | server/models/Todo.js:17-25 | the enum check accepts exactly the names "low", "medium" and "high", and maps each to its priority |
| TodoModel.NameInjective | server/models/Todo.js:20 | the three priority names are distinct |
| TodoModel.SchemaErrors | server/models/Todo.js:5-39 | a save is rejected exactly when the text is empty or longer than 500, the priority is not in the enum, or the category is longer than 50. Each of those messages is reported exactly when its constraint fails, and the minlength message never surfaces because `required` is checked first |
| TodoModel.SavedCompletedAtCases | server/models/Todo.js:61-67 | completing stamps the current time unless `completedAt` is already set, reopening clears it, and an unmodified `completed` leaves it alone |
| TodoModel.SaveSettlesCompletion | server/models/Todo.js:61-67 | after the hook, `completedAt` is set exactly when `completed` is true, whenever `completed` was modified or the rule held before |
| TodoModel.ToggledSpec | server/models/Todo.js:81-89 | a toggle negates `completed`, stamps or clears `completedAt` to match, sets `lastModified` to now, changes nothing else, and keeps a stored task well formed |
| TodoModel.ToggleTwice | server/models/Todo.js:81-89 | toggling twice restores `completed` and whether `completedAt` is set, while `lastModified` increases both times |
| TodoModel.Where | server/routes/todos.js:63 | `find(query)` keeps exactly the matching records and is no longer than the collection |
| TodoModel.WhereMultiset | server/routes/todos.js:63 | `find(query)` keeps every matching record as often as it is stored and drops every other one |
| TodoModel.WhereNoFilter | server/routes/todos.js:25 | the empty query returns the whole collection in stored order |
| TodoModel.GetByPriority | server/models/Todo.js:92-94 | `getByPriority(p)` contains exactly the tasks of priority `p` |
| TodoModel.GetCompleted | server/models/Todo.js:97-99 | `getCompleted()` contains exactly the completed tasks |
| TodoModel.GetActive | server/models/Todo.js:102-104 | `getActive()` contains exactly the tasks that are not completed |
| TodoModel.CompletedOfActive | server/routes/todos.js:293 | no active task is completed |
| TodoModel.ActivePlusCompleted | server/routes/todos.js:315-317 | the active and completed counts add up to the total |
| TodoModel.PriorityCountsAddUp | server/routes/todos.js:319-326 | the per-priority counts add up to the total |
| TodoModel.TodoDoc.New | server/models/Todo.js:12-34 | a new document has trimmed text and category, `completed` false, `completedAt` null, and both timestamps at the creation instant |
| TodoModel.TodoDoc.Load | server/routes/todos.js:181 | `findById` gives a document with valid fields that holds exactly the stored record |
| TodoModel.TodoDoc.SetText | server/models/Todo.js:8 | assigning `text` stores it trimmed |
| TodoModel.TodoDoc.SetCompleted | server/models/Todo.js:61 | assigning `completed` marks the path modified only when the value changes |
| TodoModel.TodoDoc.SetPriority | server/routes/todos.js:193 | assigning `priority` stores the string unchecked; the enum is checked on save |
| TodoModel.TodoDoc.SetCategory | server/models/Todo.js:37 | assigning `category` stores it trimmed |
| TodoModel.TodoDoc.SetDueDate | server/routes/todos.js:195-196 | assigning `dueDate` stores the date or null |
| TodoModel.TodoDoc.Save | server/models/Todo.js:56-69 | an invalid document is rejected with every message and left as it was. Otherwise `lastModified` becomes now, `completedAt` follows the hook's rule, the modified flag is cleared, and the saved record is well formed |
| TodoModel.TodoDoc.ToggleCompletion | server/models/Todo.js:81-89 | `completed` is negated, `completedAt` is now when the task becomes completed and null otherwise, and a document with valid fields is saved at now |
| Ordering.NameRankIsLexOrder | server/routes/todos.js:42 | the store's descending sort on the priority strings puts "medium" before "low" before "high" |
| Ordering.RankOrderIsComparator | server/routes/todos.js:69-75 | the in-memory comparator puts the higher rank (high 3, medium 2, low 1) first and breaks ties by later `createdAt` first |
| Ordering.InsertPermutes | server/routes/todos.js:70-75 | one insertion step adds exactly the inserted record |
| Ordering.SortSpec | server/routes/todos.js:70-75 | sorting gives a permutation of its input with no record placed after one it goes before |
| Ordering.SortStable | server/routes/todos.js:70-75 | sorting is stable: for every key, the records with that key keep their input order |
| TodoRoutes.ValidObjectIdIff | server/routes/todos.js:6-15 | an id is accepted exactly when it is 24 characters, each a hexadecimal digit of either case |
| TodoRoutes.CanonicalIdSameObjectId | server/routes/todos.js:101 | `findById` casts the id to an ObjectId: two accepted ids reach the same record exactly when they have the same hexadecimal value digit by digit, whatever the case |
| TodoRoutes.CanonicalIdAccepted | server/routes/todos.js:101 | the lower-case form of an accepted id is accepted, and lower-casing it again changes nothing |
| TodoRoutes.UpperCaseSpellingSameId | server/routes/todos.js:8 | the upper-case spelling `ABCDEFABCDEFABCDEFABCDEF` is accepted and reaches the record stored under `abcdefabcdefabcdefabcdef` |
| TodoRoutes.BuildQuery | server/routes/todos.js:25-36 | `filter=active` keeps only open tasks and `filter=completed` only completed ones, and any other filter adds no constraint. `priority` constrains only when it names one of the three priorities |
| TodoRoutes.SortFor | server/routes/todos.js:39-55 | `sortBy` selects priority then newest, oldest first, or most recently modified. "recent" and any other value select newest first |
| TodoRoutes.LimitFor | server/routes/todos.js:59 | the page size is the requested limit capped at 100, and 100 by default |
| TodoRoutes.PageFor | server/routes/todos.js:22 | the page number is the requested page, 1 by default, and never below 1 |
| TodoRoutes.Window | server/routes/todos.js:63 | `skip`/`limit` return the run of records starting at position `skip`: `limit` of them when that many remain, all the remaining ones otherwise, and nothing past the end |
| TodoRoutes.ConsecutivePagesAdjacent | server/routes/todos.js:59-63 | the next page of the same listing starts where the previous page ends, so two consecutive pages together are the run of `2 * limitNum` matches from the first one's start: no match between them is skipped or shown twice |
| TodoRoutes.CeilDiv | server/routes/todos.js:83 | `totalPages` is the fewest pages of `limitNum` that hold `total` records |
| TodoRoutes.FetchedSpec | server/routes/todos.js:62-65 | the fetched page has exactly `limitNum` records when that many matches remain after the skip, the remaining matches otherwise, and none once the page starts past the last match. Each is a stored record that matches the filter |
| TodoRoutes.PriorityPagingSplitsRanks | server/routes/todos.js:41-76 | with `sortBy=priority` and a limit of 1, a collection holding a high task and a medium task shows the medium task on page 1 and the high task on page 2 |
| TodoRoutes.RankedPagesInOrder | server/routes/todos.js:67-76 | when the rank sort runs before paging, no record of a later page goes before a record of an earlier page, and each page is in rank order |
| TodoRoutes.RankPage | server/routes/todos.js:68-76 | the re-sorted page is the stable rank sort of the fetched page: a permutation of it of the same length, sorted by rank and then newest first |
| TodoRoutes.SortByRank | server/routes/todos.js:70-75 | sorting the page array in place leaves exactly the stable rank sort of its old contents |
| TodoRoutes.InsertIntoPrefix | server/routes/todos.js:70-75 | one pass moves the next record left past every record of the sorted prefix it goes before, and leaves the rest of the array alone |
| TodoRoutes.TextMissing | server/routes/todos.js:132 | the text counts as missing exactly when it is absent or consists only of whitespace |
| TodoRoutes.DefaultedPriority | server/routes/todos.js:141 | a missing or empty priority becomes "medium", and any other is kept |
| TodoRoutes.CreatedSpec | server/routes/todos.js:132-146 | a create is rejected exactly when the trimmed text is too long, the defaulted priority is not in the enum, or the trimmed category is too long. A created task is open, with trimmed text, priority medium unless given, the due date given when it is truthy and none otherwise, both timestamps at now, and is well formed |
| TodoRoutes.ApplyUpdateFields | server/routes/todos.js:190-198 | a field absent from the body keeps its value and a present one takes the trimmed value given. A falsy `dueDate` clears the date and a truthy one sets it, `id` and `createdAt` never change, and `lastModified` becomes now. The update is rejected exactly when a resulting field is invalid |
| TodoRoutes.ApplyUpdatePreservesWellFormed | server/routes/todos.js:191-198 | a successful update keeps a stored task well formed and strictly increases `lastModified`. Completing stamps now unless the task was already completed, and reopening clears `completedAt` |
| TodoRoutes.NatToStringRoundTrip | server/routes/todos.js:297 | the count in the message is a non-empty decimal numeral without leading zeros that denotes the count |
| TodoRoutes.GroupByPriority | server/routes/todos.js:319-326 | the `$group` stage has exactly one group per priority that occurs, carrying its count, and no two groups share a priority |
| TodoRoutes.BreakdownKeys | server/routes/todos.js:334-337 | the keys of the reduced object are the names of the grouped priorities |
| TodoRoutes.BreakdownOfCollection | server/routes/todos.js:319-337 | the breakdown maps each priority that occurs to its count, has no other key, and its counts sum to the total |
| TodoRoutes.CompletionRate | server/routes/todos.js:332-333 | the rate is 0 for an empty collection and otherwise `100 * completed / total` rounded half up, at most 100 |
| TodoRouter.KeepIdsInOrder | server/routes/todos.js:293 | the records whose ids `deleteMany` keeps, in stored order, are exactly `find` of the kept query |
| TodoRouter.EraseDistinct | server/routes/todos.js:271 | removing one stored id keeps the ids distinct and shortens the order by one |
| TodoRouter.AddKeepsValid | server/routes/todos.js:146 | adding a new well-formed record saved at a later instant keeps the store invariant |
| TodoRouter.RestrictKeepsValid | server/routes/todos.js:293 | keeping only the records that match a query keeps the store invariant, and what remains in stored order is what `find` of that query returns |
| TodoRouter.SaveNew | server/routes/todos.js:139-146 | building and saving a new document gives exactly `Created` |
| TodoRouter.SaveUpdate | server/routes/todos.js:190-198 | assigning the present fields on the loaded document and saving gives exactly `ApplyUpdate` |
| TodoRouter.ApplyBody | server/routes/todos.js:190-196 | after the assignments the document holds exactly the assigned fields, and `completed` counts as modified exactly when it changed |
| TodoRouter.SaveToggle | server/routes/todos.js:240 | `toggleCompletion` on a loaded stored record saves exactly `Toggled` |
| TodoRouter.Todos.StoredCount | server/routes/todos.js:315 | `countDocuments()` equals the length of the stored sequence |
| TodoRouter.Todos.Get | server/routes/todos.js:99-113 | a malformed id gives 400, and an id whose lower-case form is not stored gives 404. Otherwise the reply is the record stored under that lower-case form, in either case spelling, well formed and carrying that id |
| TodoRouter.Todos.List | server/routes/todos.js:20-85 | `total` counts every match and `count` is the page length, at most `limitNum`. `page` and `totalPages` follow the request. The page holds only stored matches and is the window of the store order, re-sorted by rank under `sortBy=priority`; it is empty past the end |
| TodoRouter.Todos.Create | server/routes/todos.js:127-152 | missing or blank text gives 400 and stores nothing, and a rejected save gives 400 with its messages and stores nothing. Otherwise 201 with the created task, added at the end of the store |
| TodoRouter.Todos.Update | server/routes/todos.js:177-204 | a malformed id gives 400 and an id whose lower-case form is not stored 404, both leaving the store unchanged, and so does a rejected save, with its messages. Otherwise the record stored under the lower-case form is replaced by `ApplyUpdate` at the next instant |
| TodoRouter.Todos.Toggle | server/routes/todos.js:229-246 | a malformed id gives 400 and an id whose lower-case form is not stored 404. Otherwise the record stored under the lower-case form is replaced by its toggle at the next instant, with the message "Todo completed" or "Todo reopened" |
| TodoRouter.Todos.Delete | server/routes/todos.js:260-277 | a malformed id gives 400 and an id whose lower-case form is not stored 404, both leaving the store unchanged. Otherwise exactly the record stored under the lower-case form is removed, and the id is echoed as the request spelled it |
| TodoRouter.Todos.DeleteCompleted | server/routes/todos.js:291-299 | `deletedCount` is the number of completed tasks, what remains is exactly the active tasks in stored order, and none of them is completed |
| TodoRouter.Todos.Summary | server/routes/todos.js:313-343 | the summary has total = active + completed, the rounded rate, and a breakdown with one key per priority that occurs, carrying its count |

## Left out

- Console logging and the 500 replies for store errors: the store here never fails.
- The concurrency of `Promise.all` in the list route and the race between the read and the save in update and toggle: every handler runs atomically.
- `parseInt` on non-numeric input (NaN), and a limit or page below 1. The list route requires `limit >= 1` and `page >= 1` when they are given (`ListRequestOk`).
- Parsing of date strings: a due date is an integer instant or a falsy value.
- TodoRoutes.CompletionRate: the rate rounds the exact ratio `100 * completed / total` half up in integers, not the floating-point product `Math.round((completed / total) * 100)`. The two differ where the exact value is a half and the double product falls just below it: 23 of 40 gives 57.49999999999999 and so 57 in the source, but 58 here; 29 of 200 gives 14 there and 15 here.
- The `toJSON` transform, the `age` virtual and Mongoose's automatic `updatedAt`: they concern serialization or the wall clock.
- The `findOneAndUpdate`/`updateOne`/`updateMany` hook: no route issues those operations.
- Request bodies whose fields are `null` or not of the expected JSON type. A field is either absent or a string (a boolean for `completed`).
- String length in UTF-16 code units: `maxlength` is checked on the number of characters.
- The store's order among records with equal sort keys is not specified. The model takes it to be stored order, which is what the stable `Sort` gives.
- The order in which `$group` returns its groups is unspecified. The model lists high, medium, low; the breakdown map does not depend on it.
- Every clock reading of one request is one instant. On a toggle, the `new Date()` of `toggleCompletion` and the hook's are the same. On a create, the schema's `Date.now` defaults for `createdAt` and `lastModified` and the hook's `new Date()` are the same. On an update, the hook's two `new Date()` calls, for `lastModified` and `completedAt`, are the same.
- The generation of ObjectIds: `Create` receives the new id.
- The id check is not kept as a store invariant: stored ids are only required to be distinct and in lower case, not to be 24 hexadecimal digits.
- The ObjectId cast of `findById` is Mongoose's: the model states its effect, a lookup by the lower-case form of the id (`CanonicalId`), not the conversion to 12 bytes.
- The `message` field of a failure reply is the `error` component of `Reply.Fail`.
- That a malformed id causes no store lookup at all: the methods state only that such an id gets 400 and leaves the store unchanged.
- The client application is not part of this model.

## Findings

| source | as written | input that shows it | evidently intended | confidence | as-written member | corrected member |
|---|---|---|---|---|---|---|
| server/routes/todos.js:41-76 | with `sortBy=priority` the store pages by the priority strings ("medium" > "low" > "high") and only the fetched page is re-sorted by rank | one high and one medium task, `sortBy=priority`, `limit=1`: page 1 shows the medium task and the high task is on page 2 | pages that follow rank order across the whole result, high first | medium, not executed | TodoRoutes.PriorityPagingSplitsRanks | TodoRoutes.RankedPagesInOrder |
