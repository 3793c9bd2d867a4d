/** The records the application passes around. */
module Types {
  import opened Wrappers

  /** A task as the store holds it. `createdAt` is an ISO-8601 timestamp kept as text. */
  datatype Todo = Todo(id: int, title: string, description: string, completed: bool, createdAt: string)

  /** What the form collects, and what a new task is created from. */
  datatype TodoFormData = TodoFormData(title: string, description: string)

  type CreateTodoData = TodoFormData

  /** A partial update: a field that is `None` is not part of the update. */
  datatype UpdateTodoData = UpdateTodoData(title: Option<string>, description: Option<string>, completed: Option<bool>)
}
