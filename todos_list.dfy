/**
 * The task list page: validation of its search parameters, the loader that
 * filters the store's tasks by status and by a search term, and the quick
 * actions (toggle, delete) on a listed task.
 */
module TodosList {
  import opened Wrappers
  import opened Types
  import opened Text
  import opened Seqs
  import Api

  datatype StatusFilter = All | Completed | Pending

  /** The validated search parameters of the list page. */
  datatype TodosSearch = TodosSearch(filter: StatusFilter, search: string)

  /** A search parameter as it arrives: absent, a string, or a value of some other type. */
  datatype RawParam = Absent | Given(value: string) | NotAString

  function FilterName(f: StatusFilter): string {
    match f
    case All => "all"
    case Completed => "completed"
    case Pending => "pending"
  }

  /** The enumeration check of the `filter` parameter. */
  function ParseFilter(s: string): (r: Option<StatusFilter>)
    ensures r.Some? <==> s == "all" || s == "completed" || s == "pending"
    ensures r.Some? ==> FilterName(r.value) == s
  {
    if s == "all" then Some(All)
    else if s == "completed" then Some(Completed)
    else if s == "pending" then Some(Pending)
    else None
  }

  /**
   * The search schema: `filter` is one of the three names and defaults to
   * "all", `search` is a string and defaults to "". A parameter of the wrong
   * shape rejects the whole search (`None`).
   */
  function ValidateSearch(filter: RawParam, search: RawParam): (r: Option<TodosSearch>)
    ensures r.Some? <==> (filter.Absent? || (filter.Given? && ParseFilter(filter.value).Some?)) && !search.NotAString?
    ensures r.Some? && filter.Absent? ==> r.value.filter == All
    ensures r.Some? && filter.Given? ==> FilterName(r.value.filter) == filter.value
    ensures r.Some? && search.Absent? ==> r.value.search == ""
    ensures r.Some? && search.Given? ==> r.value.search == search.value
  {
    var f := match filter
      case Absent => Some(All)
      case Given(s) => ParseFilter(s)
      case NotAString => None;
    var q := match search
      case Absent => Some("")
      case Given(s) => Some(s)
      case NotAString => None;
    if f.Some? && q.Some? then Some(TodosSearch(f.value, q.value)) else None
  }

  /** Writing the parameters out by name and validating them gives them back. */
  lemma ValidateSearchRoundTrip(p: TodosSearch)
    ensures ValidateSearch(Given(FilterName(p.filter)), Given(p.search)) == Some(p)
  {
  }

  // ---------------------------------------------------------------------------
  // The loader

  predicate StatusMatches(f: StatusFilter, t: Todo) {
    match f
    case All => true
    case Completed => t.completed
    case Pending => !t.completed
  }

  /** `q` (already lower-cased) occurs in the lower-cased title or description. */
  predicate TextMatches(q: string, t: Todo) {
    Includes(Lower(t.title), q) || Includes(Lower(t.description), q)
  }

  /** The loader's first `.filter`: the tasks whose completion flag is `completed`, in order. */
  function FilterByStatus(s: seq<Todo>, completed: bool): (r: seq<Todo>)
    ensures |r| <= |s|
    ensures forall k :: 0 <= k < |r| ==> r[k].completed == completed
    ensures forall t :: t in r <==> t in s && t.completed == completed
    ensures IsSubsequence(r, s)
  {
    if s == [] then []
    else
      var rest := FilterByStatus(s[1..], completed);
      assert forall t :: t in s <==> t == s[0] || t in s[1..];
      assert s == [s[0]] + s[1..];
      if s[0].completed == completed then
        SubsequenceKeep(rest, s[0], s[1..]);
        [s[0]] + rest
      else
        SubsequenceSkip(rest, s[0], s[1..]);
        rest
  }

  /** The loader's second `.filter`: the tasks whose title or description contains `q`, in order. */
  function FilterBySearch(s: seq<Todo>, q: string): (r: seq<Todo>)
    ensures |r| <= |s|
    ensures forall k :: 0 <= k < |r| ==> TextMatches(q, r[k])
    ensures forall t :: t in r <==> t in s && TextMatches(q, t)
    ensures IsSubsequence(r, s)
  {
    if s == [] then []
    else
      var rest := FilterBySearch(s[1..], q);
      assert forall t :: t in s <==> t == s[0] || t in s[1..];
      assert s == [s[0]] + s[1..];
      if TextMatches(q, s[0]) then
        SubsequenceKeep(rest, s[0], s[1..]);
        [s[0]] + rest
      else
        SubsequenceSkip(rest, s[0], s[1..]);
        rest
  }

  /** When every task has the wanted flag, the status filter keeps the sequence as it is. */
  lemma {:induction false} FilterByStatusKeepsAll(s: seq<Todo>, completed: bool)
    requires forall k :: 0 <= k < |s| ==> s[k].completed == completed
    ensures FilterByStatus(s, completed) == s
  {
    if s != [] {
      FilterByStatusKeepsAll(s[1..], completed);
      assert s == [s[0]] + s[1..];
    }
  }

  /** What the list should show of a task: its status fits and, unless the search is empty, its text matches. */
  predicate Wanted(filter: StatusFilter, search: string, t: Todo) {
    StatusMatches(filter, t) && (search == "" || TextMatches(Lower(search), t))
  }

  /** The reference the loader is measured against: one pass keeping exactly the wanted tasks. */
  function Select(all: seq<Todo>, filter: StatusFilter, search: string): seq<Todo> {
    if all == [] then []
    else (if Wanted(filter, search, all[0]) then [all[0]] else []) + Select(all[1..], filter, search)
  }

  lemma StatusStep(x: Todo, rest: seq<Todo>, completed: bool)
    ensures FilterByStatus([x] + rest, completed) ==
      (if x.completed == completed then [x] else []) + FilterByStatus(rest, completed)
  {
    assert ([x] + rest)[0] == x && ([x] + rest)[1..] == rest;
  }

  lemma SearchStep(x: Todo, rest: seq<Todo>, q: string)
    ensures FilterBySearch([x] + rest, q) ==
      (if TextMatches(q, x) then [x] else []) + FilterBySearch(rest, q)
  {
    assert ([x] + rest)[0] == x && ([x] + rest)[1..] == rest;
  }

  lemma {:induction false} StatusThenSearchIsSelect(all: seq<Todo>, filter: StatusFilter, search: string)
    requires filter != All && search != ""
    ensures FilterBySearch(FilterByStatus(all, filter == Completed), Lower(search)) == Select(all, filter, search)
  {
    if all != [] {
      var x, tail := all[0], all[1..];
      var wanted, q := filter == Completed, Lower(search);
      StatusThenSearchIsSelect(tail, filter, search);
      assert all == [x] + tail;
      StatusStep(x, tail, wanted);
      var rest := FilterByStatus(tail, wanted);
      if x.completed == wanted {
        SearchStep(x, rest, q);
        assert FilterBySearch(FilterByStatus(all, wanted), q) == (if TextMatches(q, x) then [x] else []) + FilterBySearch(rest, q);
      } else {
        assert FilterByStatus(all, wanted) == rest;
      }
      assert Wanted(filter, search, x) <==> x.completed == wanted && TextMatches(q, x);
      assert Select(all, filter, search) == (if Wanted(filter, search, x) then [x] else []) + Select(tail, filter, search);
    }
  }

  lemma {:induction false} StatusOnlyIsSelect(all: seq<Todo>, filter: StatusFilter)
    requires filter != All
    ensures FilterByStatus(all, filter == Completed) == Select(all, filter, "")
  {
    if all != [] {
      StatusOnlyIsSelect(all[1..], filter);
      assert Wanted(filter, "", all[0]) <==> all[0].completed == (filter == Completed);
    }
  }

  lemma {:induction false} SearchOnlyIsSelect(all: seq<Todo>, search: string)
    requires search != ""
    ensures FilterBySearch(all, Lower(search)) == Select(all, All, search)
  {
    if all != [] {
      SearchOnlyIsSelect(all[1..], search);
      assert Wanted(All, search, all[0]) <==> TextMatches(Lower(search), all[0]);
    }
  }

  lemma {:induction false} NoFilterIsSelect(all: seq<Todo>)
    ensures all == Select(all, All, "")
  {
    if all != [] {
      NoFilterIsSelect(all[1..]);
      assert all == [all[0]] + all[1..];
    }
  }

  /**
   * The list loader: the status filter unless it is "all", then the search
   * unless it is empty. The two chained filters amount to the one-pass reference.
   */
  function Load(all: seq<Todo>, filter: StatusFilter, search: string): (r: seq<Todo>)
    ensures r == Select(all, filter, search)
  {
    if filter != All && search != "" then
      StatusThenSearchIsSelect(all, filter, search);
      FilterBySearch(FilterByStatus(all, filter == Completed), Lower(search))
    else if filter != All then
      StatusOnlyIsSelect(all, filter);
      FilterByStatus(all, filter == Completed)
    else if search != "" then
      SearchOnlyIsSelect(all, search);
      FilterBySearch(all, Lower(search))
    else
      NoFilterIsSelect(all);
      all
  }

  /** The reference keeps exactly the wanted tasks, in their order. */
  lemma {:induction false} SelectSpec(all: seq<Todo>, filter: StatusFilter, search: string)
    ensures IsSubsequence(Select(all, filter, search), all)
    ensures forall t :: t in Select(all, filter, search) <==> t in all && Wanted(filter, search, t)
  {
    if all != [] {
      SelectSpec(all[1..], filter, search);
      var rest := Select(all[1..], filter, search);
      assert all == [all[0]] + all[1..];
      if Wanted(filter, search, all[0]) {
        SubsequenceKeep(rest, all[0], all[1..]);
      } else {
        assert Select(all, filter, search) == rest;
        SubsequenceSkip(rest, all[0], all[1..]);
      }
    }
  }

  /**
   * The list shows an order-preserving selection of the store's tasks: each
   * task is shown iff its status fits the filter and, for a non-empty search,
   * the lower-cased search occurs in its lower-cased title or description.
   */
  lemma LoadSpec(all: seq<Todo>, filter: StatusFilter, search: string)
    ensures IsSubsequence(Load(all, filter, search), all)
    ensures forall t :: t in Load(all, filter, search) <==>
      && t in all
      && (filter == Completed ==> t.completed)
      && (filter == Pending ==> !t.completed)
      && (search != "" ==> Includes(Lower(t.title), Lower(search)) || Includes(Lower(t.description), Lower(search)))
  {
    SelectSpec(all, filter, search);
  }

  /** With no status filter and an empty search, the list is the store's whole collection. */
  lemma {:induction false} NothingFilteredWithDefaults(all: seq<Todo>)
    ensures Load(all, All, "") == all
  {
    NoFilterIsSelect(all);
  }

  /** An empty search never excludes a task: every task of the right status is listed. */
  lemma EmptySearchExcludesNothing(all: seq<Todo>, filter: StatusFilter)
    ensures forall t :: t in all && StatusMatches(filter, t) ==> t in Load(all, filter, "")
  {
    LoadSpec(all, filter, "");
  }

  lemma {:induction false} SelectPartition(all: seq<Todo>, search: string)
    ensures |Select(all, Completed, search)| + |Select(all, Pending, search)| == |Select(all, All, search)|
  {
    if all != [] {
      SelectPartition(all[1..], search);
    }
  }

  /** Completed and pending split the list in two: together they hold as many tasks as "all" does. */
  lemma StatusPartition(all: seq<Todo>, search: string)
    ensures |Load(all, Completed, search)| + |Load(all, Pending, search)| == |Load(all, All, search)|
  {
    SelectPartition(all, search);
  }

  // ---------------------------------------------------------------------------
  // Quick actions

  datatype QuickAction = Toggle | Delete

  /**
   * `handleQuickAction`. A toggle looks the task up in the list the page
   * loaded (not in the store) and, if it is there, asks the store to set
   * `completed` to the negation of the loaded value. A delete asks the store
   * to delete the id once the user has confirmed.
   */
  method HandleQuickAction(store: Api.TodoStore, loaded: seq<Todo>, todoId: int, action: QuickAction, confirmed: bool)
    requires store.Valid()
    modifies store
    ensures store.nextId == old(store.nextId)
    ensures action == Toggle ==>
      var i := Api.FindIndex(loaded, todoId);
      store.todos == if i == -1 then old(store.todos)
                     else Api.ApplyUpdate(old(store.todos), todoId, UpdateTodoData(None, None, Some(!loaded[i].completed)))
    ensures action == Delete ==>
      store.todos == if confirmed then Api.ApplyDelete(old(store.todos), todoId) else old(store.todos)
    ensures store.Valid()
    ensures action == Delete && confirmed ==> Api.FindIndex(store.todos, todoId) == -1
  {
    match action
    case Toggle =>
      var i := Api.FindIndex(loaded, todoId);
      if i != -1 {
        var todo := loaded[i];
        var _ := store.UpdateTodo(todoId, UpdateTodoData(None, None, Some(!todo.completed)));
      }
    case Delete =>
      if confirmed {
        var _ := store.DeleteTodo(todoId);
      }
  }

  // ---------------------------------------------------------------------------
  // The seeded store (ids 1, 2, 3; only 2 completed), step by step

  /** A collection shaped like the seed: ids 1, 2 and 3, and only task 2 completed. */
  ghost predicate SeedShaped(s: seq<Todo>) {
    && |s| == 3
    && s[0].id == 1 && s[1].id == 2 && s[2].id == 3
    && !s[0].completed && s[1].completed && !s[2].completed
  }

  lemma SeedIsSeedShaped()
    ensures SeedShaped(Api.Seed())
  {
  }

  /** The pending list of the seed holds tasks 1 and 3. */
  lemma {:induction false} SeedPendingList(s: seq<Todo>)
    requires SeedShaped(s)
    ensures Load(s, Pending, "") == [s[0], s[2]]
  {
    assert FilterByStatus(s[2..], false) == [s[2]];
    assert FilterByStatus(s[1..], false) == [s[2]];
  }

  lemma {:induction false} SeedMarkPending(s: seq<Todo>)
    requires SeedShaped(s)
    ensures Api.ApplyUpdate(s, 2, UpdateTodoData(None, None, Some(false))) == s[1 := s[1].(completed := false)]
  {
    assert Api.FindIndex(s, 2) == 1;
  }

  /** Once task 2 is marked pending, the pending list holds all three tasks. */
  lemma {:induction false} SeedPendingListAfterUpdate(s: seq<Todo>)
    requires SeedShaped(s)
    ensures var u := Api.ApplyUpdate(s, 2, UpdateTodoData(None, None, Some(false)));
      Load(u, Pending, "") == u && u[0].id == 1 && u[1].id == 2 && u[2].id == 3
  {
    SeedMarkPending(s);
    var u := s[1 := s[1].(completed := false)];
    assert forall k :: 0 <= k < |u| ==> !u[k].completed;
    FilterByStatusKeepsAll(u, false);
    StatusOnlyIsSelect(u, Pending);
  }

  /** Deleting task 1 of the seed leaves tasks 2 and 3, and a lookup of 1 then finds nothing. */
  lemma {:induction false} SeedDelete(s: seq<Todo>)
    requires SeedShaped(s)
    ensures var u := Api.ApplyDelete(s, 1);
      u == s[1..] && Api.FindIndex(u, 1) == -1
  {
    assert Api.FindIndex(s, 1) == 0;
  }
}
