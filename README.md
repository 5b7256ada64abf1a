# Task tracker store and mock task API, in Dafny

This project models the logic of a small task-tracker front end
(ferryal/nuxt-todo-list). The model has three parts.

- **Task types** (`task_types.dfy`, module `TaskTypes`). Six statuses, five
  priorities and three task types, each a closed enumeration. A `Task` record
  whose `date` and `id` are optional. The API response. The errors the client
  raises.
- **Mock API client** (`task_api.dfy`, module `TaskApi`). Class `TaskApi` holds
  the in-memory `taskCache` as a `seq<Task>` field. Its methods are
  `fetchTasks` (cache hit, or id assignment and caching of the fetched list),
  `createTask` (prepend), `updateTask` (replace the first entry with the id),
  `deleteTask` (remove every entry with the id) and `patchTask` (shallow merge
  into the first entry with the id). `fetchTasks` fails on an HTTP error, a
  `null` body or a body without its `data` array. `updateTask` fails on a
  missing id or an id that is not cached, `patchTask` on an empty id or an id
  that is not cached, and `deleteTask` only on an id that is not cached.
  `createTask` cannot fail.
- **Task store** (`task_store.dfy`, module `TaskStore`). Class `TaskStore`
  holds the store's state fields: tasks, loading flag, last error, selected
  ids, filters, search query, active view, sort option and direction, and the
  fetched-once flag. Its methods are the store's actions. The getters are
  modelled beside it:
  - `filteredTasks` in `task_views.dfy` (module `TaskViews`);
  - `uniqueDevelopers`, `taskCountsByStatus`, `tasksByStatus` and
    `getTaskById` in `task_aggregates.dfy` (module `TaskAggregates`).

Two helper modules hold the library behaviour the store relies on.
`text.dfy` (module `Text`) models the JavaScript string operations `trim`,
`split` on one character, ASCII `toLowerCase`, `includes` and the default
string order of `sort`. `seqs.dfy` (module `Seqs`) models
`Array.prototype.filter`.

Modelling choices:

- A date is an integer timestamp in milliseconds. A calendar day is the
  timestamp divided by 86 400 000. The current time is a parameter `now`.
- A generated id is `"task-"` followed by a stamp that the caller supplies.
  In the original, the stamp comes from `Date.now()` and `Math.random()`.
- What the HTTP GET produced is an input value (`FetchOutcome`): a non-OK
  status, or a decoded body that may be `null` or may lack its `data` array.
- An async action that throws becomes a method returning `Result`. The store
  records the error value in its `error` field. It does not keep the message
  text.
- `task.id` counts as present when it is set and not the empty string. This
  is JavaScript truthiness, which the client's `task.id || generated` and
  `!task.id` use.
- Sorting is a stable insertion sort on a pair key. JavaScript's `sort` has
  been stable since ES2019.
- `addTask` catches a failure, records it and returns nothing. Unlike
  `updateTask`, `removeTask` and `patchTask`, it does not re-throw
  (stores/taskStore.ts:251-257). `TaskStore.TaskStore.AddTask` therefore
  returns nothing. The client's `createTask` has no failing path, so the
  model's `AddTask` always succeeds.
- A `null` JSON body makes `fetchTasks` fail before its format guard runs:
  the log line reads `data.data` first (services/taskApi.ts:41), which
  throws a TypeError for `null`. The model gives this case its own error,
  `NullBody`. `InvalidFormat` is raised only for a non-null body without
  its `data` array.

## Model

| member | source | states |
|---|---|---|
| TaskTypes.AllStatuses | types/task.ts:1-7 | There are exactly six statuses. Every status is listed, with no repeats. |
| TaskTypes.AllPriorities | types/task.ts:8-13 | There are exactly five priorities. Every priority is listed, with no repeats. |
| TaskTypes.AllTaskTypes | types/task.ts:14 | There are exactly three task types. Every type is listed, with no repeats. |
| TaskApi.GeneratedId | services/taskApi.ts:51-53 | A generated id starts with `task-`. |
| TaskApi.WithId | services/taskApi.ts:69-74 | The result always has an id. A task that already has an id is returned unchanged. A task without one gets the generated id. All other fields are kept. |
| TaskApi.AssignIds | services/taskApi.ts:49-54 | The fetched list keeps its length. Every task in it has an id. A task that already had an id is unchanged. Every other field is kept. |
| TaskApi.FetchResult | services/taskApi.ts:9-63 | A non-empty cache is returned as it is. Otherwise a non-OK status gives an HTTP error. A `null` body gives the null-body error, because `data.data` is read at line 41 before the guard. The invalid-format error comes exactly when the cache is empty and a non-null body lacks `data`. An empty cache and a body holding `data` always succeed. A success returns the fetched list, of the same length. Every task in it holds an id, a task that had an id is unchanged, and every task keeps all its other fields. |
| TaskApi.IndexOfId | services/taskApi.ts:93 | `findIndex` returns the first position that holds the id. It returns none when no task holds the id. |
| TaskApi.ReplaceFirst | services/taskApi.ts:99 | Only the first entry holding the id is replaced. Every other entry is unchanged, and the length is kept. |
| TaskApi.RemoveId | services/taskApi.ts:117 | No remaining task holds the id. The remaining tasks keep their relative order. |
| TaskApi.RemoveIdCounts | services/taskApi.ts:117 | Every task that lacks the id keeps its multiplicity. Every task holding the id is gone. |
| TaskApi.Merge | services/taskApi.ts:140 | In the merged task, each field present in the patch takes the patch's value. Each absent field keeps the old value. A patch whose date is present but empty clears the due date. |
| TaskApi.MergeEmpty | services/taskApi.ts:140 | Merging an empty patch leaves the task unchanged. |
| TaskApi.MergeClearsDate | services/taskApi.ts:140 | A patch that sets the date to the empty string leaves the task with no due date, whatever date it had before. |
| TaskApi.MergeIdempotent | services/taskApi.ts:140 | Applying the same patch twice gives the same task as applying it once. |
| TaskApi.MergeTwice | services/taskApi.ts:140 | Two merges in a row equal one merge of the combined patch, in which the later patch wins. |
| TaskApi.TaskApi.constructor | services/taskApi.ts:6 | The cache starts empty. |
| TaskApi.TaskApi.FetchTasks | services/taskApi.ts:9-63 | The answer is `FetchResult` of the old cache. On a cache hit the cache is unchanged. After a fetched success the cache equals the returned list. After an error the cache is unchanged. |
| TaskApi.TaskApi.CreateTask | services/taskApi.ts:66-84 | Returns the task with an id, and keeps any id the task already had. The new task is at index 0. The old cache follows it unchanged, so the length grows by one. |
| TaskApi.TaskApi.UpdateTask | services/taskApi.ts:87-106 | A task without an id is an error. An id that is not in the cache is a not-found error. In both cases the cache is unchanged. Otherwise only the first entry with the id is replaced and the task is returned. |
| TaskApi.TaskApi.DeleteTask | services/taskApi.ts:109-122 | Fails with not-found exactly when no entry has the id, and then the cache is unchanged. Otherwise every entry with the id is removed. |
| TaskApi.TaskApi.PatchTask | services/taskApi.ts:125-147 | An empty id is an error, and so is an id that is not found. In both cases the cache is unchanged. Otherwise the first entry with the id becomes the merge of that entry and the patch, and the merged entry is returned. |
| TaskViews.Narrow | stores/taskStore.ts:40-42 | A narrowing step keeps each task that passes the test, with its multiplicity, and drops every other task. The survivors keep their order. When every task passes, the list is unchanged. |
| TaskViews.KeepTestMeans | stores/taskStore.ts:36-113 | The six tests joined in the order the steps run hold of a task exactly when it passes every condition (`Keep`). |
| TaskViews.DeveloperMatches | stores/taskStore.ts:54-62 | The developer test: an empty field never matches. A field with a comma matches when one of its trimmed pieces is the name. Any other field matches when its trimmed value is the name. Its meaning is stated by `DeveloperMatchesElement`. |
| TaskViews.FilterStatus | stores/taskStore.ts:39-43 | With an empty status list the step keeps everything. Otherwise it keeps exactly the tasks whose status is in the list. The step is a `filter` by its test, so the kept tasks stay in list order. |
| TaskViews.FilterPriority | stores/taskStore.ts:46-50 | With an empty priority list the step keeps everything. Otherwise it keeps exactly the tasks whose priority is in the list. The step is a `filter` by its test, so the kept tasks stay in list order. |
| TaskViews.FilterDeveloper | stores/taskStore.ts:53-63 | With the filter unset or empty the step keeps everything. Otherwise it keeps exactly the tasks whose developer field matches the name (`DeveloperMatches`). The step is a `filter` by its test, so the kept tasks stay in list order. |
| TaskViews.FilterDate | stores/taskStore.ts:66-77 | With no date the step keeps everything. Otherwise it keeps exactly the dated tasks that fall on the same day as the filter date. The step is a `filter` by its test, so the kept tasks stay in list order. |
| TaskViews.FilterView | stores/taskStore.ts:80-105 | The "all" view changes nothing. The "today" view keeps tasks due on today's day. The "upcoming" view keeps tasks due on a later day. The "completed" view keeps exactly the tasks with status Done. The step is a `filter` by its test, so the kept tasks stay in list order. |
| TaskViews.FilterSearch | stores/taskStore.ts:108-113 | A blank or whitespace-only query changes nothing. Otherwise the step keeps exactly the tasks whose lower-cased title contains the lower-cased, trimmed query. The step is a `filter` by its test, so the kept tasks stay in list order. |
| TaskViews.FilterSearchAllPass | stores/taskStore.ts:108-113 | When every task matches the query, the search step returns the list unchanged. |
| TaskViews.Rank | stores/taskStore.ts:125-131 | Ranks run from Critical = 5 down to Best Effort = 1, following the declaration order. |
| TaskViews.SortKey | stores/taskStore.ts:116-147 | The key each comparator sorts by, compared as a pair. Due date: dated tasks by timestamp, with undated tasks last ascending and first descending. Priority: by rank. Creation proxy: by timestamp, with an undated task counting as 0. Its orders are stated by `PriorityOrder`, `DueDateOrder`, `CreatedAtOrder` and `DescReversesAsc`. |
| TaskViews.DescReversesAsc | stores/taskStore.ts:116-147 | For every option, `a` sorts strictly before `b` ascending exactly when `b` sorts strictly before `a` descending. This includes the undated tasks of the due-date sort. |
| TaskViews.BoundedBelow | stores/taskStore.ts:116-148 | If a task may precede the inserted task and every element of the sorted list, it may precede every element of the list after insertion. |
| TaskViews.Insert | stores/taskStore.ts:116-148 | Inserting into a sorted list gives a sorted list that has the same elements plus the new one. |
| TaskViews.SortBy | stores/taskStore.ts:116-148 | The result is sorted by the option's key and is a permutation of the input. `SortStable` states that the order among ties is kept. |
| TaskViews.InsertTies | stores/taskStore.ts:116-148 | Among the tasks tied at any key, an inserted task comes before the others, and they keep their order. |
| TaskViews.SortStable | stores/taskStore.ts:116-148 | The sort is stable: for every key, the tasks with that key appear in the result in their input order. |
| TaskViews.SortSorted | stores/taskStore.ts:116-148 | Sorting a list that is already in order leaves it unchanged. |
| TaskViews.NarrowedCounts | stores/taskStore.ts:36-113 | The six narrowing steps in a row keep exactly the tasks that pass all six conditions, each with its multiplicity, and drop every other task. |
| TaskViews.NarrowedIsFilter | stores/taskStore.ts:36-113 | The six narrowing steps in a row equal one `filter` of the store's list by `Keep`, so the survivors keep the store's order. |
| TaskViews.FilteredTasks | stores/taskStore.ts:35-150 | The result holds exactly the tasks that pass all six conditions, each with its multiplicity in the store's list, and no other task. It is sorted by the selected option and direction. |
| TaskViews.FilteredTasksStable | stores/taskStore.ts:35-150 | For every sort key, the shown tasks with that key are exactly the store's tasks that pass every condition and have that key, in the store's order. |
| TaskViews.FilteredTasksIdempotent | stores/taskStore.ts:35-150 | Running `filteredTasks` again on its own output changes nothing. |
| TaskViews.KeptTasksAreFixed | stores/taskStore.ts:36-113 | A list whose tasks all pass every condition goes through the six narrowing steps unchanged. |
| TaskViews.PriorityOrder | stores/taskStore.ts:124-140 | Sorting by priority in ascending order gives ranks that never decrease. In descending order the ranks never increase. |
| TaskViews.DueDateOrder | stores/taskStore.ts:116-123 | In ascending order every undated task comes after every dated one. In descending order every undated task comes before them. Dated tasks follow their timestamps in the chosen direction. |
| TaskViews.CreatedAtOrder | stores/taskStore.ts:141-148 | The creation-proxy sort orders tasks by timestamp, with an undated task counting as 0, in the chosen direction. |
| TaskViews.DeveloperMatchesElement | stores/taskStore.ts:53-63 | A non-empty developer field matches a name exactly when one trimmed comma-separated element equals the name. This holds both with and without a comma. |
| TaskViews.DeveloperListExample | stores/taskStore.ts:57-59 | "Alice, Bob" matches "Alice". |
| TaskViews.DeveloperSingleExample | stores/taskStore.ts:61 | "Bob" does not match "Alice". |
| TaskViews.SplitExample | stores/taskStore.ts:58 | "Alice, Bob" splits on the comma into "Alice" and " Bob". |
| TaskViews.SearchQueryNonEmpty | stores/taskStore.ts:108-111 | When the guard lets the search run, the trimmed, lower-cased query is not empty. |
| TaskAggregates.TaskById | stores/taskStore.ts:212-214 | Returns none exactly when no task has the id. Otherwise returns the first task that has it. |
| TaskAggregates.OfStatus | stores/taskStore.ts:194-209 | A status bucket holds only tasks of its status, in their order in the list. |
| TaskAggregates.OfStatusCounts | stores/taskStore.ts:194-209 | A bucket holds every task of its status, as often as the list does, and no other task. |
| TaskAggregates.OfStatusAppend | stores/taskStore.ts:204-206 | Pushing a task adds it to its own bucket and to no other bucket. |
| TaskAggregates.BucketsPartition | stores/taskStore.ts:176-209 | The six bucket sizes add up to the length of the list, so every task is in exactly one bucket. |
| TaskAggregates.EmptyCounts | stores/taskStore.ts:177-184 | All six statuses are keys, each with count 0. |
| TaskAggregates.EmptyGroups | stores/taskStore.ts:195-202 | All six statuses are keys, each with an empty bucket. |
| TaskAggregates.CountByStatus | stores/taskStore.ts:176-191 | Every status is a key. Each count is the number of tasks with that status. The six counts add up to the number of tasks. |
| TaskAggregates.GroupByStatus | stores/taskStore.ts:194-209 | Every status is a key. Each bucket holds exactly the tasks of that status, in list order. The bucket sizes add up to the number of tasks. |
| TaskAggregates.TasksByStatus | stores/taskStore.ts:194-209 | `tasksByStatus` groups `filteredTasks`. Each bucket is the shown tasks of its status, in shown order. A store task is in its status's bucket exactly as often as it is in the store's list when it passes every condition, and is in no bucket otherwise. |
| TaskAggregates.ShownBucketCounts | stores/taskStore.ts:194-209 | A bucket of the shown tasks holds each task of its status that passes every condition, as often as the store's list does, and no other task. |
| TaskAggregates.NamesOf | stores/taskStore.ts:158-167 | The names one task's developer field contributes. An empty field contributes none. A comma-separated field contributes its non-empty trimmed pieces. Any other field contributes its trimmed value. Its meaning is stated by `NamesOfMatch` and `NonEmptyNamesIff`. |
| TaskAggregates.NonEmptyNamesIff | stores/taskStore.ts:162-164 | A comma-separated piece is collected exactly when it is not empty. |
| TaskAggregates.NamesOfMatch | stores/taskStore.ts:157-168 | A name is contributed by a developer field exactly when the developer filter matches that name. The one exception is the empty piece of a comma-separated field, which is not contributed. |
| TaskAggregates.OfferedNameKeepsTask | stores/taskStore.ts:154-173 | Choosing any non-empty name from the developer list as the developer filter keeps at least one task. |
| TaskAggregates.UnionOfIff | stores/taskStore.ts:157-169 | A name is in the union exactly when some element contributes it. |
| TaskAggregates.DeveloperNamesIff | stores/taskStore.ts:155-169 | A name is collected exactly when some task contributes it. |
| TaskAggregates.BelowAll | stores/taskStore.ts:172 | A name that sorts before the head of a sorted list sorts before every element of it. |
| TaskAggregates.InsertName | stores/taskStore.ts:172 | Inserting a new name into a strictly sorted list keeps it strictly sorted and adds exactly that name. |
| TaskAggregates.AddPieces | stores/taskStore.ts:161-164 | Adds exactly the non-empty pieces to the set. |
| TaskAggregates.CollectDevelopers | stores/taskStore.ts:155-169 | The set filled by the loop equals the names that all tasks contribute. |
| TaskAggregates.SortNames | stores/taskStore.ts:172 | The list is strictly ascending and holds exactly the names in the set. |
| TaskAggregates.NoRepeats | stores/taskStore.ts:171-172 | A strictly sorted list repeats no name. |
| TaskAggregates.UniqueDevelopers | stores/taskStore.ts:154-173 | The result is strictly sorted and has no duplicates. It holds exactly the names the tasks contribute. |
| TaskStore.ApplyFilters | stores/taskStore.ts:362-364 | Each filter field present in the patch takes the patch's value. Each absent field keeps its old value. |
| TaskStore.ApplyFiltersIdempotent | stores/taskStore.ts:362-364 | Applying the same filter patch twice is the same as applying it once. |
| TaskStore.ApplyFiltersFull | stores/taskStore.ts:362-364 | A patch that names every field replaces the filters outright. |
| TaskStore.NoFiltersKeep | stores/taskStore.ts:367-374 | After the filters are cleared, a task is kept exactly when it passes the view and the search. |
| TaskStore.EverythingShown | stores/taskStore.ts:35-150 | With no filters, the "all" view and a blank query, the derived list holds every task with its multiplicity. |
| TaskStore.AddedTaskFound | stores/taskStore.ts:212-214 | After a task is prepended, looking up its id finds it. |
| TaskStore.SortForField | stores/taskStore.ts:393-405 | The sort is by priority exactly when the field is "priority". Any other field, known or unknown, sorts by due date, and the mapping never picks the creation order. |
| TaskStore.IndexOf | stores/taskStore.ts:415 | `indexOf` returns -1 exactly when the id is absent. Otherwise it returns the first position of the id. |
| TaskStore.Toggled | stores/taskStore.ts:414-421 | An absent id is appended. A present id loses its first occurrence, and the other ids keep their order. |
| TaskStore.ToggleNoDup | stores/taskStore.ts:414-421 | Toggling keeps a selection free of repeats. |
| TaskStore.ToggleFlips | stores/taskStore.ts:414-421 | On a selection without repeats, toggling flips the membership of exactly the toggled id. |
| TaskStore.ToggleTwice | stores/taskStore.ts:414-421 | Toggling an unselected id twice restores the selection. |
| TaskStore.Unselect | stores/taskStore.ts:301 | The removed id is no longer selected. The other ids keep their order. |
| TaskStore.UnselectCounts | stores/taskStore.ts:301 | Every other id keeps its multiplicity. |
| TaskStore.UnselectNoDup | stores/taskStore.ts:301 | Removing an id keeps a selection free of repeats. |
| TaskStore.TaskStore.constructor | stores/taskStore.ts:15-31 | The initial state: no tasks, no error, no selection, no filters, the "all" view, due date ascending, not yet fetched. |
| TaskStore.TaskStore.FetchTasks | stores/taskStore.ts:219-238 | Once data has been fetched, nothing changes. Otherwise a success takes the client's list and sets the fetched flag. A failure records the error and keeps the list. A list that mirrors the client's cache still mirrors it afterwards. |
| TaskStore.TaskStore.AddTask | stores/taskStore.ts:241-258 | The task with its id goes to the front of both the store's list and the client's cache. Loading is off and there is no error afterwards. |
| TaskStore.TaskStore.UpdateTask | stores/taskStore.ts:261-286 | The client's answer is returned exactly: a task without an id is an error, an id the cache lacks is not-found, and otherwise the task. On success the first task with the id is replaced in both the store's list and the client's cache. On failure both are unchanged and the error is recorded. |
| TaskStore.TaskStore.RemoveTask | stores/taskStore.ts:288-313 | Fails exactly when the client's cache has no task with the id. On success the tasks with the id leave both the store's list and the client's cache, and the id leaves the selection. On failure the error is recorded and the list, cache and selection are unchanged. |
| TaskStore.TaskStore.PatchTask | stores/taskStore.ts:316-340 | The answer is exact: an empty id is an error, an id the cache lacks is not-found, and any other id succeeds with the merge of its first cached task and the patch. On success the merged task replaces the first task with the id in both the store's list and the client's cache. On failure both are unchanged and the error is recorded. |
| TaskStore.TaskStore.SetFilterDeveloper | stores/taskStore.ts:343-359 | A non-empty name sets the developer filter. An empty name clears it. The other filters and the state are unchanged. |
| TaskStore.TaskStore.SetFilters | stores/taskStore.ts:362-364 | The filters become the old filters with the patch applied. Nothing else changes. |
| TaskStore.TaskStore.ClearFilters | stores/taskStore.ts:367-374 | No status, priority, date or developer filter remains. Nothing else changes. |
| TaskStore.TaskStore.SetSearchQuery | stores/taskStore.ts:377-379 | Only the search query changes. |
| TaskStore.TaskStore.SetActiveView | stores/taskStore.ts:382-384 | Only the active view changes. |
| TaskStore.TaskStore.SetSort | stores/taskStore.ts:387-390 | Only the sort option and direction change. |
| TaskStore.TaskStore.SetSortOption | stores/taskStore.ts:393-405 | The sort is by priority for "priority" and by due date for anything else. The direction is set. Nothing else changes. |
| TaskStore.TaskStore.ClearSort | stores/taskStore.ts:408-411 | The sort goes back to due date, ascending. Nothing else changes. |
| TaskStore.TaskStore.ToggleTaskSelection | stores/taskStore.ts:414-421 | The selection becomes `Toggled`. A selection without repeats stays without repeats, and only the toggled id's membership flips. |
| TaskStore.TaskStore.ClearTaskSelection | stores/taskStore.ts:424-426 | The selection becomes empty. Nothing else changes. |
| Text.TrimStart | stores/taskStore.ts:58 | Removes a whitespace prefix and leaves a string that does not begin with whitespace. |
| Text.TrimEnd | stores/taskStore.ts:58 | Removes a whitespace suffix and leaves a string that does not end with whitespace. |
| Text.Trim | stores/taskStore.ts:58 | Neither end of the result is whitespace, and the result is no longer than the input. |
| Text.TrimSlice | stores/taskStore.ts:58 | The trimmed string is the slice of the input that starts right after the leading whitespace. Every character before and after that slice is whitespace. |
| Text.TrimOfTrimmed | stores/taskStore.ts:61 | Trimming a string that is already trimmed changes nothing. |
| Text.TrimEmptyIff | stores/taskStore.ts:108 | A string trims to empty exactly when it is all whitespace. |
| Text.ToLower | stores/taskStore.ts:109-111 | Lower-cases each ASCII letter and keeps every other character. |
| Text.TrimToLowerCommute | stores/taskStore.ts:108-109 | Trimming and lower-casing commute. |
| Text.IncludesIff | stores/taskStore.ts:111 | `includes` holds exactly when the query occurs at some position. |
| Text.Split | stores/taskStore.ts:58 | Splitting gives at least one piece, and no piece contains the separator. |
| Text.JoinSplit | stores/taskStore.ts:58 | Joining the pieces of a split gives back the string. |
| Text.SplitJoin | stores/taskStore.ts:58 | Splitting a join of separator-free pieces gives back the pieces. |
| Text.SplitWithoutSeparator | stores/taskStore.ts:57-61 | A string without the separator splits into just itself. |
| Text.TrimAll | stores/taskStore.ts:58 | `map(d => d.trim())` trims each piece in place. |
| Text.LessIrreflexive | stores/taskStore.ts:172 | No string sorts before itself. |
| Text.LessTransitive | stores/taskStore.ts:172 | The string order is transitive. |
| Text.LessTotal | stores/taskStore.ts:172 | Any two distinct strings are ordered one way or the other. |
| Seqs.Filter | stores/taskStore.ts:40-42 | `filter` keeps only passing elements, in their original order. When every element passes, the list is unchanged. |
| Seqs.FilterMultiset | stores/taskStore.ts:40-42 | Each passing element keeps its multiplicity, and each failing element is gone. |
| Seqs.FilterCons | stores/taskStore.ts:40-42 | Filtering a list with a head decides the head, then filters the tail. |
| Seqs.FilterFilter | stores/taskStore.ts:36-113 | Two filters in a row are one filter by both tests. |
| Seqs.FilterExt | stores/taskStore.ts:40-42 | Filtering by two tests that agree on every element gives the same list. |
| Seqs.FilterSwap | stores/taskStore.ts:116-148 | When at most one of two elements passes, filtering is unchanged by swapping them at the front. |
| Seqs.FilterAppend | stores/taskStore.ts:204-206 | Filtering distributes over appending one element. |

## Left out

- Network, JSON decoding and logging. The real `fetch`, its headers, `response.json()` and every `console.*` call are not modelled. What the GET produced is an input.
- A rejected `fetch` (a network failure) and a `response.json()` that fails to parse have no `FetchOutcome` of their own. Both re-throw to the store like an HTTP failure, so the model folds them into `HttpFailure`, with a status the caller picks.
- Id stamps. `Date.now()` and `Math.random().toString(36)` are replaced by a caller-supplied stamp. The model does not capture that two generated ids may differ, or that they may collide.
- Calendar arithmetic. `new Date(...)`, local-time `getFullYear`/`getMonth`/`getDate` and `setHours(0, 0, 0, 0)` become division of a millisecond timestamp by the length of a day. The host's time zone and date-string parsing are not modelled.
- TaskViews.SortBy: it fixes the order among tasks with no due date to their input order. The original due-date comparator is inconsistent for two undated tasks, so JavaScript leaves that order unspecified. Only the dated/undated partition and the order among dated tasks are stated as the original's behaviour.
- TaskViews.Rank: it has no 0 rank for an unknown priority. Priority is a closed enumeration in the model, so the `|| 0` fallback cannot be reached.
- Text.ToLower: it lower-cases ASCII letters only. Full Unicode case mapping is not modelled.
- Text.LessTotal: the order compares code points. JavaScript's default `sort` compares UTF-16 code units, which differs for characters outside the Basic Multilingual Plane.
- Number semantics. Story points and timestamps are unbounded integers. Floating point, `NaN` and overflow are not modelled.
- Framework mechanics. Pinia reactivity, `async`/`await` scheduling and the race between two concurrent first calls to `fetchTasks` are not modelled. Every action runs to completion, one at a time.
- Error messages. The store records the error value, not its message string.
- Partial objects whose keys are explicitly `undefined`. A key that is present with the value `undefined` would overwrite a field during a spread. The model represents each patch field only as present or absent.
- TaskApi.TaskApi.FetchTasks: it does not model the copy `[...taskCache]`. Sequences are values, so the copy and the cache cannot alias.
- modules/tailwind.ts, app.config.ts and plugins/tanstack-query.ts are not part of this model. They hold styling, configuration and library wiring, with no task logic.
