/**
 The request handlers of the task service as pure operations on the task
 table. Each operation takes the table before the request and returns the
 table after it together with the outcome; a failed request leaves the
 table as it was (nothing is committed).
 */
module TaskStore {
  import opened Optional
  import opened Tasks

  // ---------------------------------------------------------------------------
  // Store invariants
  // ---------------------------------------------------------------------------

  /** Every row is stored under its own id. */
  predicate Keyed(store: Store) {
    forall id | id in store :: store[id].id == id
  }

  /** The invariants the service keeps: rows under their own id, non-empty titles, and `created_at <= updated_at`. */
  predicate Valid(store: Store) {
    && Keyed(store)
    && forall id | id in store ::
      && store[id].title != ""
      && store[id].createdAt <= store[id].updatedAt
  }

  /** No row holds a null status or priority. */
  predicate EnumsSet(store: Store) {
    forall id | id in store :: store[id].status.Some? && store[id].priority.Some?
  }

  // ---------------------------------------------------------------------------
  // List
  // ---------------------------------------------------------------------------

  /**
   A string query parameter constrains the listing only when it is truthy,
   i.e. non-empty. Status and priority filters always constrain: this
   assumes, as `Matches` does, that no enum member is falsy.
   */
  predicate Constrains(assignee: Option<string>) {
    assignee.Some? && assignee.value != ""
  }

  /** The row satisfies every filter that constrains (AND semantics). */
  predicate Matches(t: Task, f: Filter) {
    && (f.status.Some? ==> t.status == f.status)
    && (f.priority.Some? ==> t.priority == f.priority)
    && (Constrains(f.assignee) ==> t.assignee == f.assignee)
  }

  /**
   The rows that satisfy the filters, in no particular order: every
   returned row is a stored row that matches, every matching row is
   returned, and none is returned twice. No match gives the empty sequence.
   */
  method List(store: Store, f: Filter) returns (r: seq<Task>)
    requires Keyed(store)
    ensures forall i | 0 <= i < |r| :: r[i].id in store && store[r[i].id] == r[i] && Matches(r[i], f)
    ensures forall id | id in store && Matches(store[id], f) :: store[id] in r
    ensures forall i, j | 0 <= i < j < |r| :: r[i].id != r[j].id
  {
    r := [];
    var pending := store.Keys;
    while pending != {}
      invariant pending <= store.Keys
      invariant forall i | 0 <= i < |r| ::
        r[i].id in store && store[r[i].id] == r[i] && Matches(r[i], f) && r[i].id !in pending
      invariant forall id | id in store && id !in pending && Matches(store[id], f) :: store[id] in r
      invariant forall i, j | 0 <= i < j < |r| :: r[i].id != r[j].id
      decreases pending
    {
      var id :| id in pending;
      if Matches(store[id], f) {
        r := r + [store[id]];
      }
      pending := pending - {id};
    }
  }

  // ---------------------------------------------------------------------------
  // Get
  // ---------------------------------------------------------------------------

  /** The stored row with the given id, or `NotFound` naming the id; never changes the store. */
  function Get(store: Store, id: string): (r: Response<Task>)
    ensures r.store == store
    ensures r.result.Ok? <==> id in store
    ensures r.result.Ok? ==> r.result.value == store[id]
    ensures r.result.Err? ==> r.result.error == NotFound(id)
  {
    if id in store then Response(store, Ok(store[id]))
    else Response(store, Err(NotFound(id)))
  }

  // ---------------------------------------------------------------------------
  // Create
  // ---------------------------------------------------------------------------

  /**
   The row built from a creation payload: omitted status and priority take
   their defaults, and both timestamps are the creation time.
   */
  function NewTask(data: TaskCreate, id: string, now: Timestamp): (t: Task)
    ensures t.id == id && t.title == data.title
    ensures t.description == data.description && t.assignee == data.assignee && t.dueDate == data.dueDate
    ensures data.status.None? ==> t.status == Some(Todo)
    ensures data.status.Some? ==> t.status == data.status
    ensures data.priority.None? ==> t.priority == Some(Medium)
    ensures data.priority.Some? ==> t.priority == data.priority
    ensures t.createdAt == now == t.updatedAt
  {
    Task(id, data.title, data.description,
         Some(data.status.GetOr(Todo)), Some(data.priority.GetOr(Medium)),
         data.assignee, data.dueDate, now, now)
  }

  /**
   Rejects an empty title; otherwise stores the new row under the fresh id
   and returns it. The fresh id stands for the generated identifier.
   */
  function Create(store: Store, data: TaskCreate, freshId: string, now: Timestamp): (r: Response<Task>)
    requires freshId !in store
    ensures data.title == "" <==> r.result.Err?
    ensures r.result.Err? ==> r.store == store && r.result.error == InvalidArgument(EmptyTitleMessage)
    ensures r.result.Ok? ==>
      && r.store.Keys == store.Keys + {freshId}
      && r.store[freshId] == r.result.value
      && (forall id | id in store :: r.store[id] == store[id])
    ensures r.result.Ok? ==>
      && r.result.value.id == freshId
      && r.result.value.title == data.title
      && r.result.value.status == Some(data.status.GetOr(Todo))
      && r.result.value.priority == Some(data.priority.GetOr(Medium))
      && r.result.value.description == data.description
      && r.result.value.assignee == data.assignee
      && r.result.value.dueDate == data.dueDate
      && r.result.value.createdAt == now == r.result.value.updatedAt
  {
    if data.title == "" then
      Response(store, Err(InvalidArgument(EmptyTitleMessage)))
    else
      var t := NewTask(data, freshId, now);
      Response(store[freshId := t], Ok(t))
  }

  // ---------------------------------------------------------------------------
  // Update
  // ---------------------------------------------------------------------------

  /** The title key was sent and is falsy: null or the empty string. */
  predicate TitleRejected(u: TaskUpdate) {
    u.title.Present? && (u.title.value.None? || u.title.value.value == "")
  }

  /** A field after the update: the sent value when the key was present, the old one otherwise. */
  predicate Applied<T(==)>(f: Field<T>, before: T, after: T) {
    (f.Absent? ==> after == before) && (f.Present? ==> after == f.value)
  }

  /**
   The reference meaning of a successful partial update: every sent key
   takes the sent value (an explicit null included), every other field
   keeps its value, the id and creation time stay, and the update time is `now`.
   */
  predicate Patched(before: Task, u: TaskUpdate, now: Timestamp, after: Task) {
    && after.id == before.id
    && Applied(u.title, Some(before.title), Some(after.title))
    && Applied(u.description, before.description, after.description)
    && Applied(u.status, before.status, after.status)
    && Applied(u.priority, before.priority, after.priority)
    && Applied(u.assignee, before.assignee, after.assignee)
    && Applied(u.dueDate, before.dueDate, after.dueDate)
    && after.createdAt == before.createdAt
    && after.updatedAt == now
  }

  /** Copies every sent key into the row and refreshes the update time. */
  function ApplyUpdate(t: Task, u: TaskUpdate, now: Timestamp): (r: Task)
    requires !TitleRejected(u)
    ensures Patched(t, u, now, r)
  {
    t.(
      title := u.title.Or(Some(t.title)).GetOr(t.title),
      description := u.description.Or(t.description),
      status := u.status.Or(t.status),
      priority := u.priority.Or(t.priority),
      assignee := u.assignee.Or(t.assignee),
      dueDate := u.dueDate.Or(t.dueDate),
      updatedAt := now
    )
  }

  /**
   `NotFound` for an unknown id; `InvalidArgument` when the title key is
   sent falsy, with nothing changed; otherwise the row is patched, every
   other row is untouched, and the patched row is returned.
   */
  function Update(store: Store, id: string, u: TaskUpdate, now: Timestamp): (r: Response<Task>)
    ensures id !in store ==> r.store == store && r.result == Err(NotFound(id))
    ensures id in store && TitleRejected(u) ==>
      r.store == store && r.result == Err(InvalidArgument(EmptyTitleMessage))
    ensures r.result.Ok? <==> id in store && !TitleRejected(u)
    ensures r.result.Ok? ==>
      && r.store.Keys == store.Keys
      && r.store[id] == r.result.value
      && Patched(store[id], u, now, r.result.value)
      && (forall k | k in store && k != id :: r.store[k] == store[k])
  {
    if id !in store then
      Response(store, Err(NotFound(id)))
    else if TitleRejected(u) then
      Response(store, Err(InvalidArgument(EmptyTitleMessage)))
    else
      var t := ApplyUpdate(store[id], u, now);
      Response(store[id := t], Ok(t))
  }

  /** The body sends an explicit null for `status` or `priority`. */
  predicate EnumNulled(u: TaskUpdate) {
    u.status == Present(None) || u.priority == Present(None)
  }

  /**
   The update as the response schema requires it: like `Update`, but an
   explicit null for `status` or `priority` is rejected with
   `InvalidArgument` and nothing changes, instead of being stored.
   */
  function UpdateStrict(store: Store, id: string, u: TaskUpdate, now: Timestamp): (r: Response<Task>)
    ensures id !in store ==> r.store == store && r.result == Err(NotFound(id))
    ensures id in store && TitleRejected(u) ==>
      r.store == store && r.result == Err(InvalidArgument(EmptyTitleMessage))
    ensures id in store && !TitleRejected(u) && EnumNulled(u) ==>
      r.store == store && r.result == Err(InvalidArgument(NullEnumMessage))
    ensures r.result.Ok? <==> id in store && !TitleRejected(u) && !EnumNulled(u)
    ensures r.result.Ok? ==>
      && r.store.Keys == store.Keys
      && r.store[id] == r.result.value
      && Patched(store[id], u, now, r.result.value)
      && (store[id].status.Some? ==> r.result.value.status.Some?)
      && (store[id].priority.Some? ==> r.result.value.priority.Some?)
      && (forall k | k in store && k != id :: r.store[k] == store[k])
  {
    if id in store && !TitleRejected(u) && EnumNulled(u) then
      Response(store, Err(InvalidArgument(NullEnumMessage)))
    else
      Update(store, id, u, now)
  }

  // ---------------------------------------------------------------------------
  // Delete
  // ---------------------------------------------------------------------------

  /** `NotFound` for an unknown id; otherwise removes exactly that row. */
  function Delete(store: Store, id: string): (r: Response<()>)
    ensures id !in store ==> r.store == store && r.result == Err(NotFound(id))
    ensures id in store ==> r.result.Ok? && r.store.Keys == store.Keys - {id}
    ensures forall k | k in r.store :: k in store && r.store[k] == store[k]
  {
    if id !in store then Response(store, Err(NotFound(id)))
    else Response(store - {id}, Ok(()))
  }
}
