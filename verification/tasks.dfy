/**
 The data shapes of the TaskFlow task service: the task record as it is kept
 in the task table, the creation and partial-update payloads, the list
 filters, and the two domain errors the handlers signal.
 */
module Tasks {
  import opened Optional

  /**
   The task statuses and priorities. The service imports its enums from the
   ORM model module, which is not part of this model; the members here follow
   the commented-out copies in app.py, whose values are all non-empty strings.
   */
  datatype Status = Todo | InProgress | Done

  datatype Priority = Low | Medium | High

  /** A clock reading; the service takes it from the wall clock, the model as a parameter. */
  type Timestamp = int

  /**
   One row of the task table. `status` and `priority` may hold `None`
   because a partial update copies an explicit `null` into the row.
   */
  datatype Task = Task(
    id: string,
    title: string,
    description: Option<string>,
    status: Option<Status>,
    priority: Option<Priority>,
    assignee: Option<string>,
    dueDate: Option<Timestamp>,
    createdAt: Timestamp,
    updatedAt: Timestamp
  )

  /** The creation payload; `None` in `status` or `priority` means the key was omitted. */
  datatype TaskCreate = TaskCreate(
    title: string,
    description: Option<string>,
    status: Option<Status>,
    priority: Option<Priority>,
    assignee: Option<string>,
    dueDate: Option<Timestamp>
  )

  /**
   One key of a partial-update body: either not sent at all, or sent with a
   value (which for the nullable keys may itself be `None`, an explicit null).
   */
  datatype Field<+T> = Absent | Present(value: T) {

    /** The sent value, or `current` when the key was not sent. */
    function Or(current: T): T {
      match this
      case Present(v) => v
      case Absent => current
    }
  }

  /** The update payload: every key tri-state (absent, null, or a value). */
  datatype TaskUpdate = TaskUpdate(
    title: Field<Option<string>>,
    description: Field<Option<string>>,
    status: Field<Option<Status>>,
    priority: Field<Option<Priority>>,
    assignee: Field<Option<string>>,
    dueDate: Field<Option<Timestamp>>
  )

  /** The query-string filters of the list operation; `None` means not given. */
  datatype Filter = Filter(
    status: Option<Status>,
    priority: Option<Priority>,
    assignee: Option<string>
  )

  /** The task table, keyed by task id. */
  type Store = map<string, Task>

  datatype Error = NotFound(id: string) | InvalidArgument(message: string)

  datatype Result<+T> = Ok(value: T) | Err(error: Error)

  /** What one request leaves behind: the store after it, and its outcome. */
  datatype Response<+T> = Response(store: Store, result: Result<T>)

  /** The fixed message of the empty-title rejection. */
  const EmptyTitleMessage: string := "Title cannot be empty"

  /** The message of the rejection of a null status or priority (not in the service). */
  const NullEnumMessage: string := "Status and priority cannot be null"

  /** The update body that sends no key at all. */
  const EmptyUpdate: TaskUpdate :=
    TaskUpdate(Absent, Absent, Absent, Absent, Absent, Absent)
}
