/** The shapes shared by the components (src/types.ts). */
module Types {
  import opened Wrappers

  type TaskId = string

  /** One to-do item; `completedAt` is `number | null`, timestamps are milliseconds. */
  datatype Task = Task(id: TaskId, title: string, completed: bool, createdAt: int, completedAt: Option<int>)

  /** The view selector: "all" | "pending" | "done". */
  datatype Filter = All | Pending | Done
}
