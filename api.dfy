/**
 * The in-memory task store: an ordered collection of tasks and the counter that
 * hands out ids, with the five operations the pages call. Each operation is a
 * synchronous step (the artificial latency of the original is not modelled).
 */
module Api {
  import opened Wrappers
  import opened Types

  /** Array.prototype.findIndex on the id: the first position holding `id`, or -1. */
  function FindIndex(s: seq<Todo>, id: int): (r: int)
    ensures -1 <= r < |s|
    ensures r == -1 <==> forall k :: 0 <= k < |s| ==> s[k].id != id
    ensures r >= 0 ==> s[r].id == id && forall k :: 0 <= k < r ==> s[k].id != id
  {
    if s == [] then -1
    else if s[0].id == id then 0
    else
      var i := FindIndex(s[1..], id);
      if i == -1 then -1 else i + 1
  }

  /**
   * The object spread `{ ...t, ...d }`: every field the update supplies replaces
   * the task's, every other field is kept. An update carries no id and no
   * creation time, so those never change.
   */
  function Merge(t: Todo, d: UpdateTodoData): (r: Todo)
    ensures r.id == t.id && r.createdAt == t.createdAt
    ensures d.title.Some? ==> r.title == d.title.value
    ensures d.title.None? ==> r.title == t.title
    ensures d.description.Some? ==> r.description == d.description.value
    ensures d.description.None? ==> r.description == t.description
    ensures d.completed.Some? ==> r.completed == d.completed.value
    ensures d.completed.None? ==> r.completed == t.completed
  {
    t.(title := d.title.GetOr(t.title),
       description := d.description.GetOr(t.description),
       completed := d.completed.GetOr(t.completed))
  }

  /** What `updateTodo` leaves in the collection: the first task with `id` merged with `d`, or no change. */
  function ApplyUpdate(s: seq<Todo>, id: int, d: UpdateTodoData): (r: seq<Todo>)
    ensures |r| == |s|
    ensures FindIndex(s, id) == -1 ==> r == s
    ensures FindIndex(s, id) >= 0 ==> r[FindIndex(s, id)] == Merge(s[FindIndex(s, id)], d)
    ensures forall k :: 0 <= k < |s| && k != FindIndex(s, id) ==> r[k] == s[k]
    ensures forall k :: 0 <= k < |s| ==> r[k].id == s[k].id && r[k].createdAt == s[k].createdAt
  {
    var i := FindIndex(s, id);
    if i == -1 then s else s[i := Merge(s[i], d)]
  }

  /** What `deleteTodo` leaves in the collection: the first task with `id` spliced out, or no change. */
  function ApplyDelete(s: seq<Todo>, id: int): (r: seq<Todo>)
    ensures FindIndex(s, id) == -1 ==> r == s
    ensures FindIndex(s, id) >= 0 ==> |r| == |s| - 1
    ensures forall k :: 0 <= k < |r| && k < FindIndex(s, id) ==> r[k] == s[k]
    ensures FindIndex(s, id) >= 0 ==> forall k :: FindIndex(s, id) <= k < |r| ==> r[k] == s[k + 1]
  {
    var i := FindIndex(s, id);
    if i == -1 then s else s[..i] + s[i + 1..]
  }

  /**
   * The store's invariant: every id is positive and below the counter, and no
   * two tasks share an id.
   */
  ghost predicate IdsValid(s: seq<Todo>, nextId: int) {
    && 1 <= nextId
    && (forall k :: 0 <= k < |s| ==> 1 <= s[k].id < nextId)
    && (forall j, k :: 0 <= j < k < |s| ==> s[j].id != s[k].id)
  }

  /** The counter the store starts with: one past the largest seed id. */
  const SeedNextId: int := 4

  /** The three tasks the store starts with; they meet the invariant with the counter at 4. */
  function Seed(): (r: seq<Todo>)
    ensures IdsValid(r, SeedNextId)
  {
    [ Todo(1, "Learn TanStack Router", "Complete the tutorial and understand all core concepts",
           false, "2024-01-01T10:00:00Z"),
      Todo(2, "Build a React app", "Create a new React application with modern routing",
           true, "2024-01-02T14:30:00Z"),
      Todo(3, "Deploy to production", "Deploy the finished app to Vercel or Netlify",
           false, "2024-01-03T09:15:00Z") ]
  }

  /** In a store that keeps its invariant, the task at position `k` is the one a lookup of its id finds. */
  lemma {:induction false} LookupFindsOwnPosition(s: seq<Todo>, nextId: int, k: int)
    requires IdsValid(s, nextId) && 0 <= k < |s|
    ensures FindIndex(s, s[k].id) == k
  {
  }

  /** A new task with the counter's value is found at the end, and the invariant holds with the counter bumped. */
  lemma {:induction false} CreateKeepsIds(s: seq<Todo>, nextId: int, t: Todo)
    requires IdsValid(s, nextId) && t.id == nextId
    ensures IdsValid(s + [t], nextId + 1)
    ensures FindIndex(s + [t], nextId) == |s|
  {
    var s' := s + [t];
    assert s'[|s|] == t;
    assert forall k :: 0 <= k < |s| ==> s'[k] == s[k];
  }

  /** Updating never rewrites an id, so the invariant and every lookup are as before. */
  lemma {:induction false} UpdateKeepsIds(s: seq<Todo>, nextId: int, id: int, d: UpdateTodoData)
    requires IdsValid(s, nextId)
    ensures IdsValid(ApplyUpdate(s, id, d), nextId)
    ensures forall other :: FindIndex(ApplyUpdate(s, id, d), other) == FindIndex(s, other)
  {
  }

  /**
   * Deleting keeps the invariant; afterwards the deleted id is found nowhere,
   * and every other id is still found, at the same place or one earlier.
   */
  lemma {:induction false} DeleteKeepsIds(s: seq<Todo>, nextId: int, id: int)
    requires IdsValid(s, nextId)
    ensures IdsValid(ApplyDelete(s, id), nextId)
    ensures FindIndex(ApplyDelete(s, id), id) == -1
    ensures forall other :: other != id ==>
      (FindIndex(ApplyDelete(s, id), other) == -1 <==> FindIndex(s, other) == -1)
  {
    var i := FindIndex(s, id);
    if i >= 0 {
      var r := ApplyDelete(s, id);
      // position k of the result holds position k of s before the gap, k + 1 after it
      assert forall k :: 0 <= k < |r| ==> r[k] == s[if k < i then k else k + 1];
      forall k | 0 <= k < |r| ensures r[k].id != id {
        var w := if k < i then k else k + 1;
        assert r[k] == s[w] && w != i;
      }
      forall other | other != id && FindIndex(s, other) >= 0
        ensures FindIndex(r, other) >= 0
      {
        var j := FindIndex(s, other);
        assert j != i;
        var k := if j < i then j else j - 1;
        assert r[k] == s[j];
      }
    }
  }

  /** The module-level collection and counter of the store, as one object. */
  class TodoStore {
    var todos: seq<Todo>
    var nextId: int

    ghost predicate Valid()
      reads this
    {
      IdsValid(todos, nextId)
    }

    /** The state the module starts in: the seed tasks, and the counter at 4. */
    constructor ()
      ensures todos == Seed() && nextId == SeedNextId
      ensures Valid()
    {
      todos := Seed();
      nextId := SeedNextId;
    }

    /** `getTodos`: the whole collection, in insertion order. */
    method GetTodos() returns (r: seq<Todo>)
      ensures r == todos
    {
      r := todos;
    }

    /** `getTodo`: the first task with the id, or `None`. */
    method GetTodo(id: int) returns (r: Option<Todo>)
      ensures r.None? <==> forall k :: 0 <= k < |todos| ==> todos[k].id != id
      ensures r.Some? ==> r.value.id == id && r.value in todos
      ensures r.Some? ==> exists k :: 0 <= k < |todos| && todos[k] == r.value && forall j :: 0 <= j < k ==> todos[j].id != id
    {
      var i := FindIndex(todos, id);
      if i == -1 {
        r := None;
      } else {
        r := Some(todos[i]);
      }
    }

    /** `createTodo`: a pending task with the next id and the given time is appended and returned. */
    method CreateTodo(data: CreateTodoData, now: string) returns (t: Todo)
      requires Valid()
      modifies this
      ensures t == Todo(old(nextId), data.title, data.description, false, now)
      ensures todos == old(todos) + [t]
      ensures nextId == old(nextId) + 1
      ensures Valid()
      ensures FindIndex(todos, t.id) == |todos| - 1
    {
      CreateKeepsIds(todos, nextId, Todo(nextId, data.title, data.description, false, now));
      t := Todo(nextId, data.title, data.description, false, now);
      nextId := nextId + 1;
      todos := todos + [t];
    }

    /** `updateTodo`: merges `data` into the first task with `id` in place, and returns it; `None` if there is none. */
    method UpdateTodo(id: int, data: UpdateTodoData) returns (r: Option<Todo>)
      requires Valid()
      modifies this
      ensures todos == ApplyUpdate(old(todos), id, data)
      ensures nextId == old(nextId)
      ensures r.None? <==> FindIndex(old(todos), id) == -1
      ensures r.Some? ==> r.value == Merge(old(todos)[FindIndex(old(todos), id)], data)
      ensures Valid()
      ensures forall other :: FindIndex(todos, other) == FindIndex(old(todos), other)
    {
      var index := FindIndex(todos, id);
      if index == -1 {
        return None;
      }
      UpdateKeepsIds(todos, nextId, id, data);
      todos := todos[index := Merge(todos[index], data)];
      r := Some(todos[index]);
    }

    /** `deleteTodo`: splices out the first task with `id` and says whether there was one. */
    method DeleteTodo(id: int) returns (ok: bool)
      requires Valid()
      modifies this
      ensures todos == ApplyDelete(old(todos), id)
      ensures nextId == old(nextId)
      ensures ok <==> FindIndex(old(todos), id) >= 0
      ensures Valid()
      ensures FindIndex(todos, id) == -1
      ensures forall other :: other != id ==> (FindIndex(todos, other) == -1 <==> FindIndex(old(todos), other) == -1)
    {
      var index := FindIndex(todos, id);
      if index == -1 {
        return false;
      }
      DeleteKeepsIds(todos, nextId, id);
      todos := todos[..index] + todos[index + 1..];
      ok := true;
    }
  }
}
