# Task store, list query, breadcrumbs and task form of a TanStack Router todo app

This Dafny project models the parts of a small client-side task manager that have behaviour
of their own. The rest of the app is React rendering and router wiring.

- **The in-memory task store** (`api.dfy`, module `Api`). The source keeps a module-level
  array of tasks and an id counter. Here they are the class `Api.TodoStore`, with fields
  `todos: seq<Todo>` and `nextId: int`. Its five operations are synchronous methods. They
  are `GetTodos`, `GetTodo`, `CreateTodo`, `UpdateTodo` and `DeleteTodo`. The methods that
  change state are tied to value-level functions (`FindIndex`, `Merge`, `ApplyUpdate`,
  `ApplyDelete`), and the lemmas are proved about those functions. The store's invariant,
  `IdsValid`, says that ids are positive, below the counter and pairwise distinct. The class
  starts from the three seed tasks with the counter at 4, and every operation keeps the
  invariant. `getTodos` returns a shallow copy of the array. `updateTodo` replaces a record
  with a new object and never mutates it. Modelling records and the collection as values is
  therefore faithful.
- **The list page** (`todos_list.dfy`, module `TodosList`). It covers how the search schema
  validates and defaults the `filter` and `search` parameters. It has the loader, which
  chains a status filter and a case-insensitive text filter. That loader is proved equal to
  a one-pass reference, `Select`, which keeps exactly the wanted tasks in order. It also has
  the quick actions (toggle, delete), as a method over the store.
- **The breadcrumb trail** (`breadcrumbs.dfy`, module `BreadCrumbs`). It drops the root
  match and labels each remaining match through the ordered chain of path rules. The bar
  shows every crumb but the last as a link, and the bar is left out when there are no
  crumbs.
- **The task form** (`todo_form.dfy`, module `TodoForm`). It covers the initial field
  values, the submit guard with its trimmed payload, and the predicate for an enabled submit
  button.
- Helpers: `Wrappers` holds `Option`. `Seqs` holds the subsequence predicate. `Text` holds
  ASCII lower-casing, `includes`, `startsWith`/`endsWith`, and `trim`; `trim` uses the exact
  set of ECMAScript white-space and line-terminator code points. `Types` holds the records
  of `src/lib/types.ts`.

New ids come from a counter, `nextId`, that deleting tasks never lowers. A new id is
therefore not always one more than the largest remaining id. After seed task 3 is deleted,
the next task still gets id 4, although the largest remaining id is 2. `CreateTodo` returns
`old(nextId)`, and `IdsValid` promises only that every id is below the counter. The store
accepts any title, blank ones included. Titles are kept non-blank only by the form, and
`TodoForm.FormWritesKeepTitles` proves that writes coming from the form keep every title
non-blank.

## Model

| member | source | states |
|---|---|---|
| `Api.FindIndex` | src/lib/api.ts:63 | the result is -1 exactly when no task has the id; otherwise it is the first position whose task has the id |
| `Api.Merge` | src/lib/api.ts:66 | the spread `{...todo, ...data}`: every supplied field is replaced, every omitted field is kept, and `id` and `createdAt` never change |
| `Api.ApplyUpdate` | src/lib/api.ts:61-68 | an absent id leaves the collection unchanged; otherwise only the first task with the id is replaced by its merge; positions, length, ids and creation times are all kept |
| `Api.ApplyDelete` | src/lib/api.ts:71-78 | an absent id leaves the collection unchanged; otherwise exactly the first matching task is removed and the others keep their order (earlier ones in place, later ones one step forward) |
| `Api.IdsValid` | src/lib/api.ts:28-56 | the store invariant: the counter is positive, every id is at least 1 and below the counter, and no two tasks share an id; its contract is carried by `Seed`, the constructor and the `...KeepsIds` lemmas, which establish and keep it |
| `Api.Seed` | src/lib/api.ts:4-28 | the three seed tasks, texts and timestamps as in the source; with the counter at `SeedNextId` (4) they meet the id invariant |
| `Api.LookupFindsOwnPosition` | src/lib/api.ts:43 | when ids are unique, looking up the id of the task at position k finds position k |
| `Api.CreateKeepsIds` | src/lib/api.ts:49-56 | appending a task with the counter's id and bumping the counter keeps the id invariant; that task is then found at the end |
| `Api.UpdateKeepsIds` | src/lib/api.ts:66 | an update keeps the id invariant and gives the same lookup result for every id |
| `Api.DeleteKeepsIds` | src/lib/api.ts:73-77 | a delete keeps the id invariant; afterwards the deleted id is found nowhere, and every other id is found exactly when it was found before |
| `Api.TodoStore.constructor` | src/lib/api.ts:4-28 | the store starts with the seed tasks (ids 1, 2, 3) and the counter at 4, and satisfies the id invariant |
| `Api.TodoStore.GetTodos` | src/lib/api.ts:35-38 | returns the collection as it stands, in insertion order; the store is not modified |
| `Api.TodoStore.GetTodo` | src/lib/api.ts:41-44 | returns `None` exactly when no task has the id; otherwise returns a task with that id, the first one in the collection; the store is not modified |
| `Api.TodoStore.CreateTodo` | src/lib/api.ts:47-58 | returns a pending task with the old counter as id, the given title, description and timestamp; appends it as the only change to the collection; bumps the counter by one; keeps the id invariant, and a lookup of the new id finds the new task at the end |
| `Api.TodoStore.UpdateTodo` | src/lib/api.ts:61-68 | the collection becomes `ApplyUpdate` of the old one; returns `None` exactly when the id was absent, and otherwise the merged task; the counter and the id invariant are kept, and every id is found where it was before |
| `Api.TodoStore.DeleteTodo` | src/lib/api.ts:71-78 | the collection becomes `ApplyDelete` of the old one; returns true exactly when the id was present; the counter and the id invariant are kept; afterwards the id is found nowhere, and every other id is found exactly when it was before |
| `TodosList.ParseFilter` | src/routes/todos/index.tsx:9 | accepts exactly "all", "completed" and "pending", each as the filter of that name |
| `TodosList.ValidateSearch` | src/routes/todos/index.tsx:8-11 | the search is accepted exactly when `filter` is absent or one of the three names and `search` is absent or a string; an absent `filter` defaults to all and an absent `search` to ""; given values are kept |
| `TodosList.ValidateSearchRoundTrip` | src/routes/todos/index.tsx:8-11 | validating the parameters written out by name gives them back |
| `TodosList.FilterByStatus` | src/routes/todos/index.tsx:204-208 | keeps exactly the tasks with the wanted completion flag, as an order-preserving subsequence of its input |
| `TodosList.FilterBySearch` | src/routes/todos/index.tsx:210-217 | keeps exactly the tasks whose lower-cased title or description contains the query, as an order-preserving subsequence of its input |
| `TodosList.FilterByStatusKeepsAll` | src/routes/todos/index.tsx:204-208 | when every task has the wanted flag, the status filter returns the sequence unchanged |
| `TodosList.Load` | src/routes/todos/index.tsx:201-220 | the loader (the status filter unless "all", then the lower-cased search unless empty) gives exactly the one-pass selection `Select` of the tasks that fit both the status and the search |
| `TodosList.SelectSpec` | src/routes/todos/index.tsx:202-219 | the one-pass selection is an order-preserving subsequence of the input and holds exactly the wanted tasks |
| `TodosList.LoadSpec` | src/routes/todos/index.tsx:201-220 | the list is an order-preserving subsequence of the store's tasks; a task is listed iff it is completed (for "completed"), pending (for "pending") or either (for "all"), and, for a non-empty search, the lower-cased search occurs in its lower-cased title or description |
| `TodosList.NothingFilteredWithDefaults` | src/routes/todos/index.tsx:204-210 | with filter "all" and an empty search the list is the store's whole collection |
| `TodosList.EmptySearchExcludesNothing` | src/routes/todos/index.tsx:210 | with an empty search, every task whose status fits the filter is listed |
| `TodosList.StatusPartition` | src/routes/todos/index.tsx:204-208 | for any search, the completed list and the pending list together hold as many tasks as the unfiltered list |
| `TodosList.HandleQuickAction` | src/routes/todos/index.tsx:18-34 | a toggle on an id absent from the loaded list changes nothing; on a listed id it updates the store with `completed` set to the negation of the loaded task's flag; a delete removes the id from the store exactly when confirmed, after which the id is found nowhere; the counter and the id invariant are kept |
| `TodosList.SeedIsSeedShaped` | src/lib/api.ts:4-26 | the seed holds ids 1, 2, 3, with only task 2 completed |
| `TodosList.SeedPendingList` | src/lib/api.ts:4-26 | on the seed, the pending list holds tasks 1 and 3 |
| `TodosList.SeedMarkPending` | src/lib/api.ts:61-68 | on the seed, setting task 2 to pending changes only that task's flag |
| `TodosList.SeedPendingListAfterUpdate` | src/routes/todos/index.tsx:204-208 | once task 2 of the seed is marked pending, the pending list holds tasks 1, 2 and 3 |
| `TodosList.SeedDelete` | src/lib/api.ts:71-78 | deleting task 1 of the seed leaves tasks 2 and 3, and a later lookup of 1 finds nothing |
| `BreadCrumbs.Label` | src/components/BreadCrumbs.tsx:10-34 | a label is one of "Todos", "About", "New Todo", "Edit Todo", "Unknown", or "Todo #" followed by a non-empty id; `LabelClassifies` states which paths give which |
| `BreadCrumbs.LabelClassifies` | src/components/BreadCrumbs.tsx:10-34 | each label arises from exactly the paths its rule names, with earlier rules taking priority: "Todos" for "/todos", "About" for "/about", "New Todo" under "/todos/" ending "/new", "Edit Todo" under "/todos/" ending "/edit", "Todo #" followed by the id for other paths under "/todos/" with a non-empty `todoId`, and "Unknown" for everything else |
| `BreadCrumbs.NonRoot` | src/components/BreadCrumbs.tsx:7-8 | keeps exactly the matches whose path is not "/", as an order-preserving subsequence |
| `BreadCrumbs.CrumbOf` | src/components/BreadCrumbs.tsx:9-36 | the crumb of one match: its label and a link to its own path; `MapCrumbs`, `Crumbs` and `CrumbsSpec` state what the trail built from it holds |
| `BreadCrumbs.MapCrumbs` | src/components/BreadCrumbs.tsx:9-37 | the `.map` step: one crumb per match, in the same order, the crumb at each position being the crumb of the match there |
| `BreadCrumbs.Crumbs` | src/components/BreadCrumbs.tsx:7-37 | a crumb is in the trail exactly when it is the crumb of some match whose path is not "/" |
| `BreadCrumbs.CrumbsSpec` | src/components/BreadCrumbs.tsx:7-37 | the trail is an order-preserving selection of the per-match crumbs, one fewer for each root match; no crumb links to "/", and each crumb has the label and path of a match |
| `BreadCrumbs.Render` | src/components/BreadCrumbs.tsx:39-65 | no crumbs means no bar; otherwise a "Home" link comes first, then a link for every crumb but the last, and the last crumb as plain text |
| `BreadCrumbs.BarShownUnlessOnlyRoot` | src/components/BreadCrumbs.tsx:7-39 | the bar is left out exactly when every match is the root |
| `Text.Lower` | src/routes/todos/index.tsx:211-215 | lower-casing keeps the length and maps each character on its own |
| `Text.LowerIdempotent` | src/routes/todos/index.tsx:211-215 | lower-casing a lower-cased string changes nothing |
| `Text.StartsWith` | src/components/BreadCrumbs.tsx:18 | `startsWith` holds exactly when the prefix is no longer than the string and matches it character by character from the front |
| `Text.EndsWith` | src/components/BreadCrumbs.tsx:19 | `endsWith` holds exactly when the suffix is no longer than the string and matches it character by character at the back |
| `Text.Includes` | src/routes/todos/index.tsx:214-215 | `includes` holds exactly when the query occurs at some position of the string (so the empty query occurs in every string) |
| `Text.Trim` | src/components/TodoForm.tsx:22-26 | the result is empty exactly when the input is all white space; otherwise it begins and ends with a character that is not white space; it is the piece of the input with only white space around it |
| `Text.TrimIdempotent` | src/components/TodoForm.tsx:24-27 | trimming a trimmed string changes nothing |
| `TodoForm.InitialFields` | src/components/TodoForm.tsx:17-18 | the form starts with the edited task's title and description, or with empty fields for a new task |
| `TodoForm.HandleSubmit` | src/components/TodoForm.tsx:20-28 | nothing is submitted exactly when the title is all white space; otherwise the payload is the trimmed title and trimmed description, and the submitted title is non-empty with no white space at either end |
| `TodoForm.SubmitEnabled` | src/components/TodoForm.tsx:75 | the button is enabled iff nothing is loading and the title is not all white space |
| `TodoForm.EnabledIffSubmits` | src/components/TodoForm.tsx:20-28 | when nothing is loading, the button is enabled exactly when pressing it would submit |
| `TodoForm.ResubmitIsStable` | src/components/TodoForm.tsx:24-27 | submitting a payload a second time gives the same payload |
| `TodoForm.UntouchedEditChangesNothing` | src/components/TodoForm.tsx:17-27 | submitting the edit form untouched, for a task whose fields are already trimmed and not blank, makes an update that leaves the task as it was |
| `TodoForm.FormWritesKeepTitles` | src/components/TodoForm.tsx:20-28 | creating from a form payload, updating title and description from a form payload, or toggling the flag keeps every title in the collection non-blank |
| `TodoForm.SeedTitlesNotBlank` | src/lib/api.ts:4-26 | no seed task has a blank title |

## Left out

- The artificial latency (`delay`, `setTimeout`, the `await`s) is left out. Each store operation is one synchronous step, so interleavings at await points are not modelled.
- `new Date().toISOString()` is left out. `CreateTodo` takes the timestamp as a parameter.
- Ids and the counter are unbounded integers. JavaScript numbers are exact only up to 2^53, and the counter is never that large in practice.
- An update payload whose field is present but explicitly `undefined` is not modelled. An absent field is `None`, as every caller in the app builds it.
- JavaScript objects are values in the model. Nothing in the app mutates a task object in place, so no aliasing is lost.
- Text.Lower: it maps only ASCII capitals. `String.prototype.toLowerCase` also lower-cases the rest of Unicode, so non-ASCII text matches the search only when its case already agrees.
- The zod and `zodValidator` machinery is left out; only its effect is modelled in `ValidateSearch`. Also left out: `loaderDeps` re-running, `staleTime` caching, `router.invalidate()` and `navigation.refresh()`. These belong to the router.
- The `confirm()` dialog of the delete quick action is the boolean input `confirmed`. The result of `deleteTodo` is ignored there, as in the source.
- src/lib/navigation.ts only maps intents to router calls and is not part of this model.
- All JSX rendering and styling is left out, apart from the crumb/link structure of the breadcrumb bar. So are the pages that only wire components to the router: the detail, new, edit, about, home, 404 and error-test routes, the root route and the error components.
- The React `useState` field updates of the form are UI state. The model starts from the current field values.
