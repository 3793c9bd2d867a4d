/**
 * The task form: the fields it starts with, the guard and payload of its
 * submit handler, and when its submit button is enabled.
 */
module TodoForm {
  import opened Wrappers
  import opened Types
  import opened Text
  import Api

  /** The fields the form starts with: those of the task being edited, or empty ones for a new task. */
  function InitialFields(todo: Option<Todo>): (r: TodoFormData)
    ensures todo.None? ==> r == TodoFormData("", "")
    ensures todo.Some? ==> r == TodoFormData(todo.value.title, todo.value.description)
  {
    var title := if todo.Some? && todo.value.title != "" then todo.value.title else "";
    var description := if todo.Some? && todo.value.description != "" then todo.value.description else "";
    TodoFormData(title, description)
  }

  /**
   * `handleSubmit`: nothing is submitted (`None`) when the title is blank;
   * otherwise the payload holds the trimmed title and the trimmed description.
   */
  function HandleSubmit(title: string, description: string): (r: Option<TodoFormData>)
    ensures r.None? <==> AllSpace(title)
    ensures r.Some? ==> r.value.title == Trim(title) && r.value.description == Trim(description)
    ensures r.Some? ==> r.value.title != "" && !IsSpace(r.value.title[0]) && !IsSpace(r.value.title[|r.value.title| - 1])
  {
    if Trim(title) == "" then None
    else Some(TodoFormData(Trim(title), Trim(description)))
  }

  /** `disabled={isLoading || !title.trim()}`, negated. */
  function SubmitEnabled(isLoading: bool, title: string): (r: bool)
    ensures r <==> !isLoading && !AllSpace(title)
  {
    !(isLoading || Trim(title) == "")
  }

  /** While nothing is loading, the button is enabled exactly when pressing it would submit. */
  lemma EnabledIffSubmits(title: string, description: string)
    ensures SubmitEnabled(false, title) <==> HandleSubmit(title, description).Some?
  {
  }

  /** A submitted payload, put back in the form and submitted again, comes out unchanged. */
  lemma ResubmitIsStable(title: string, description: string)
    requires HandleSubmit(title, description).Some?
    ensures var p := HandleSubmit(title, description).value;
      HandleSubmit(p.title, p.description) == Some(p)
  {
    TrimIdempotent(title);
    TrimIdempotent(description);
  }

  /**
   * Submitting the edit form untouched, for a task whose title is not blank and
   * whose fields are already trimmed, makes an update that leaves the task as it was.
   */
  lemma UntouchedEditChangesNothing(todo: Todo)
    requires Trim(todo.title) == todo.title != "" && Trim(todo.description) == todo.description
    ensures var fields := InitialFields(Some(todo));
      var p := HandleSubmit(fields.title, fields.description);
      p.Some? && Api.Merge(todo, UpdateTodoData(Some(p.value.title), Some(p.value.description), None)) == todo
  {
  }

  /** No task in the collection has a blank title. */
  ghost predicate TitlesNotBlank(s: seq<Todo>) {
    forall k :: 0 <= k < |s| ==> !AllSpace(s[k].title)
  }

  /**
   * Titles stay non-blank when every write comes from the form: creating from
   * a payload, updating title and description from a payload, or toggling the
   * completion flag.
   */
  lemma {:induction false} FormWritesKeepTitles(s: seq<Todo>, title: string, description: string, id: int, now: string, done: bool)
    requires TitlesNotBlank(s) && HandleSubmit(title, description).Some?
    ensures var p := HandleSubmit(title, description).value;
      && TitlesNotBlank(s + [Todo(id, p.title, p.description, false, now)])
      && TitlesNotBlank(Api.ApplyUpdate(s, id, UpdateTodoData(Some(p.title), Some(p.description), None)))
      && TitlesNotBlank(Api.ApplyUpdate(s, id, UpdateTodoData(None, None, Some(done))))
  {
    var p := HandleSubmit(title, description).value;
    assert p.title[0] in p.title;
    var t := Todo(id, p.title, p.description, false, now);
    assert forall k :: 0 <= k < |s| ==> (s + [t])[k] == s[k];
  }

  lemma SeedTitlesNotBlank()
    ensures TitlesNotBlank(Api.Seed())
  {
    var s := Api.Seed();
    assert !IsSpace(s[0].title[0]) && !IsSpace(s[1].title[0]) && !IsSpace(s[2].title[0]);
  }
}
