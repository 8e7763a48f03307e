/**
 Properties that relate several task-store operations: what a read sees
 after a write, which store invariants each write keeps, idempotence of a
 partial update, and the effect of the list filters.
 */
module TaskStoreProperties {
  import opened Optional
  import opened Tasks
  import opened TaskStore

  // ---------------------------------------------------------------------------
  // Reads after writes
  // ---------------------------------------------------------------------------

  /** A created task is read back exactly as the create returned it. */
  lemma GetAfterCreate(store: Store, data: TaskCreate, freshId: string, now: Timestamp)
    requires freshId !in store
    requires data.title != ""
    ensures Get(Create(store, data, freshId, now).store, freshId).result
         == Create(store, data, freshId, now).result
  {
  }

  /** A successful update is read back as the update returned it. */
  lemma GetAfterUpdate(store: Store, id: string, u: TaskUpdate, now: Timestamp)
    requires Update(store, id, u, now).result.Ok?
    ensures Get(Update(store, id, u, now).store, id).result == Update(store, id, u, now).result
  {
  }

  /** After a delete, reading or deleting the same id again is `NotFound`. */
  lemma GetAfterDelete(store: Store, id: string)
    requires id in store
    ensures Get(Delete(store, id).store, id).result == Err(NotFound(id))
    ensures Delete(Delete(store, id).store, id).result == Err(NotFound(id))
  {
  }

  /** A write to one id is invisible to reads of every other id. */
  lemma WritesAreLocal(store: Store, id: string, other: string, u: TaskUpdate, now: Timestamp)
    requires other != id
    ensures Get(Update(store, id, u, now).store, other) == Get(store, other).(store := Update(store, id, u, now).store)
    ensures Get(Delete(store, id).store, other).result == Get(store, other).result
  {
  }

  // ---------------------------------------------------------------------------
  // Invariants kept by the writes
  // ---------------------------------------------------------------------------

  lemma CreateKeepsValid(store: Store, data: TaskCreate, freshId: string, now: Timestamp)
    requires Valid(store) && EnumsSet(store)
    requires freshId !in store
    ensures Valid(Create(store, data, freshId, now).store)
    ensures EnumsSet(Create(store, data, freshId, now).store)
  {
  }

  /** An update keeps the invariants when the clock has not gone back before the row's creation. */
  lemma UpdateKeepsValid(store: Store, id: string, u: TaskUpdate, now: Timestamp)
    requires Valid(store)
    requires id in store ==> store[id].createdAt <= now
    ensures Valid(Update(store, id, u, now).store)
  {
  }

  lemma DeleteKeepsValid(store: Store, id: string)
    requires Valid(store) && EnumsSet(store)
    ensures Valid(Delete(store, id).store) && EnumsSet(Delete(store, id).store)
  {
  }

  /**
   A successful update leaves every status and priority non-null exactly
   when it does not send an explicit null for either of them.
   */
  lemma UpdateKeepsEnumsSetIff(store: Store, id: string, u: TaskUpdate, now: Timestamp)
    requires EnumsSet(store)
    requires Update(store, id, u, now).result.Ok?
    ensures EnumsSet(Update(store, id, u, now).store)
        <==> u.status != Present(None) && u.priority != Present(None)
  {
  }

  /**
   The update as written accepts an explicit `status: null` and stores it,
   although the response schema allows no null status.
   */
  lemma NullStatusStored(store: Store, id: string, now: Timestamp)
    requires id in store
    ensures Update(store, id, EmptyUpdate.(status := Present(None)), now).result.Ok?
    ensures Update(store, id, EmptyUpdate.(status := Present(None)), now).result.value.status == None
  {
  }

  /** The strict update keeps every invariant, non-null status and priority included. */
  lemma UpdateStrictKeepsInvariants(store: Store, id: string, u: TaskUpdate, now: Timestamp)
    requires Valid(store) && EnumsSet(store)
    requires id in store ==> store[id].createdAt <= now
    ensures Valid(UpdateStrict(store, id, u, now).store)
    ensures EnumsSet(UpdateStrict(store, id, u, now).store)
  {
  }

  /** The strict update differs from the update as written only on a null status or priority. */
  lemma UpdateStrictAgrees(store: Store, id: string, u: TaskUpdate, now: Timestamp)
    requires !EnumNulled(u)
    ensures UpdateStrict(store, id, u, now) == Update(store, id, u, now)
  {
  }

  // ---------------------------------------------------------------------------
  // Partial-update laws
  // ---------------------------------------------------------------------------

  /** Sending the same body twice at the same time changes nothing more than sending it once. */
  lemma UpdateIdempotent(store: Store, id: string, u: TaskUpdate, now: Timestamp)
    ensures Update(Update(store, id, u, now).store, id, u, now) == Update(store, id, u, now)
  {
  }

  /** An empty body only refreshes the update time of the row. */
  lemma EmptyUpdateTouchesOnlyTimestamp(store: Store, id: string, now: Timestamp)
    requires id in store
    ensures Update(store, id, EmptyUpdate, now).store == store[id := store[id].(updatedAt := now)]
  {
  }

  /**
   On a valid store, a successful update at a later time moves the update
   time strictly forward and keeps the creation time.
   */
  lemma UpdateAdvancesTimestamp(store: Store, id: string, u: TaskUpdate, now: Timestamp)
    requires Valid(store)
    requires id in store && store[id].updatedAt < now
    requires !TitleRejected(u)
    ensures Update(store, id, u, now).result.value.updatedAt > store[id].updatedAt
    ensures Update(store, id, u, now).result.value.createdAt == store[id].createdAt
    ensures Update(store, id, u, now).result.value.createdAt < Update(store, id, u, now).result.value.updatedAt
  {
  }

  // ---------------------------------------------------------------------------
  // List filters
  // ---------------------------------------------------------------------------

  /** With no filter, every row matches. */
  lemma NoFilterMatchesAll(t: Task)
    ensures Matches(t, Filter(None, None, None))
  {
  }

  /** An empty assignee is falsy, so it filters exactly like an absent one. */
  lemma EmptyAssigneeIgnored(t: Task, f: Filter)
    ensures Matches(t, f.(assignee := Some(""))) <==> Matches(t, f.(assignee := None))
  {
  }

  /** A row with a null assignee never matches a non-empty assignee filter. */
  lemma NullAssigneeNeverMatches(t: Task, f: Filter)
    requires t.assignee.None? && Constrains(f.assignee)
    ensures !Matches(t, f)
  {
  }

  // ---------------------------------------------------------------------------
  // The create / update / delete scenario
  // ---------------------------------------------------------------------------

  /**
   Creating `{title: "Write spec", priority: high}` gives status `todo` and no
   description; updating `{status: done}` later keeps the title and moves the
   update time forward; deleting it makes a later read `NotFound`.
   */
  lemma CreateUpdateDeleteScenario(store: Store, id: string, t0: Timestamp, t1: Timestamp)
    requires id !in store && t0 < t1
    ensures
      var data := TaskCreate("Write spec", None, None, Some(High), None, None);
      var created := Create(store, data, id, t0);
      var patch := EmptyUpdate.(status := Present(Some(Done)));
      var updated := Update(created.store, id, patch, t1);
      var deleted := Delete(updated.store, id);
      && created.result.Ok?
      && created.result.value.status == Some(Todo)
      && created.result.value.priority == Some(High)
      && created.result.value.description == None
      && updated.result.Ok?
      && updated.result.value.status == Some(Done)
      && updated.result.value.title == "Write spec"
      && updated.result.value.updatedAt > created.result.value.updatedAt
      && deleted.result.Ok?
      && Get(deleted.store, id).result == Err(NotFound(id))
  {
  }
}
