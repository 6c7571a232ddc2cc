/** Bulk operations on todos (backend/usecase/bulk_operations/service.py). Each listed id is
    handled in turn: an id that is missing or belongs to another user is counted as failed
    and nothing is written for it; every other id goes through the todo use case. The clock
    read `now()` is the parameter `now`. */
module BulkOperations {
  import opened Wrappers
  import opened TodoRepository
  import TodoManagement

  datatype BulkUpdateRequest = BulkUpdateRequest(
    todoIds: seq<int>,
    userId: int,
    status: Option<string>,
    priority: Option<string>,
    category: Option<string>,
    labels: Option<seq<string>>,
    projectId: Option<int>)

  datatype BulkDeleteRequest = BulkDeleteRequest(todoIds: seq<int>, userId: int)

  /** `BulkUpdateResponse` and `BulkDeleteResponse`: `doneCount` is the updated or deleted count. */
  datatype BulkResponse = BulkResponse(doneCount: int, failedCount: int, failedIds: seq<int>, success: bool)

  datatype BulkError = EmptyTodoList

  /** The todo exists and belongs to the user. */
  predicate OwnedBy(todos: map<int, Todo>, todoId: int, userId: int) {
    todoId in todos && todos[todoId].userId == userId
  }

  /** The todo update `bulk_update` asks for: the five bulk fields, nothing else. */
  function BulkUpdateFor(req: BulkUpdateRequest, todoId: int): (u: TodoManagement.UpdateTodoRequest)
    ensures u.todoId == todoId && u.userId == req.userId
    ensures u.(status := None, priority := None, category := None, labels := None, projectId := None)
            == TodoManagement.EmptyUpdate(todoId, req.userId)
  {
    TodoManagement.EmptyUpdate(todoId, req.userId).(status := req.status, priority := req.priority,
                                                  category := req.category, labels := req.labels,
                                                  projectId := req.projectId)
  }

  /** The row a successful bulk update of `t` stores. */
  function BulkRow(req: BulkUpdateRequest, t: Todo, now: int): Todo {
    ApplyUpdate(t, TodoManagement.ToRepoUpdate(BulkUpdateFor(req, t.id), now))
  }

  /** A bulk update changes the five bulk fields that are given, and updated_at when `now` is
      truthy; every other field of the row stays as it was. */
  lemma BulkRowTouchesOnly(req: BulkUpdateRequest, t: Todo, now: int)
    ensures BulkRow(req, t, now) == t.(status := req.status.GetOr(t.status),
                                       priority := req.priority.GetOr(t.priority),
                                       category := req.category.GetOr(t.category),
                                       labels := req.labels.GetOr(t.labels),
                                       projectId := if req.projectId.Some? then req.projectId else t.projectId,
                                       updatedAt := if Truthy(now) then Some(now) else t.updatedAt)
  {
  }

  /** The table after the ids have been handled in turn by `bulk_update`. */
  function UpdateAll(todos: map<int, Todo>, req: BulkUpdateRequest, ids: seq<int>, now: int): (r: map<int, Todo>)
    ensures r.Keys == todos.Keys
    ensures forall id | id in r :: r[id].id == todos[id].id && r[id].userId == todos[id].userId
  {
    if ids == [] then todos
    else
      var m := UpdateAll(todos, req, ids[..|ids| - 1], now);
      var id := ids[|ids| - 1];
      if OwnedBy(m, id, req.userId) then m[id := ApplyUpdate(m[id], TodoManagement.ToRepoUpdate(BulkUpdateFor(req, id), now))]
      else m
  }

  /** The ids that fail, in input order: each one that is missing or belongs to another user,
      as often as it is listed. */
  function FailedUpdates(todos: map<int, Todo>, userId: int, ids: seq<int>): (r: seq<int>)
    ensures |r| <= |ids|
  {
    if ids == [] then []
    else
      var earlier := FailedUpdates(todos, userId, ids[..|ids| - 1]);
      var id := ids[|ids| - 1];
      if OwnedBy(todos, id, userId) then earlier else earlier + [id]
  }

  /** The failed ids are exactly the listed ids the user does not own. */
  lemma {:induction false} FailedUpdatesExact(todos: map<int, Todo>, userId: int, ids: seq<int>)
    ensures var r := FailedUpdates(todos, userId, ids);
      && (forall x | x in r :: x in ids && !OwnedBy(todos, x, userId))
      && (forall i | 0 <= i < |ids| && !OwnedBy(todos, ids[i], userId) :: ids[i] in r)
    decreases |ids|
  {
    if ids != [] {
      var init := ids[..|ids| - 1];
      FailedUpdatesExact(todos, userId, init);
      assert forall i | 0 <= i < |ids| - 1 :: init[i] == ids[i];
    }
  }

  /** Whatever the order and repetition of the ids, every listed todo of the user ends up
      updated exactly as one update would leave it (the update is idempotent), and every other
      row is untouched. */
  lemma {:induction false} UpdateAllRows(todos: map<int, Todo>, req: BulkUpdateRequest, ids: seq<int>, now: int)
    requires forall id | id in todos :: todos[id].id == id
    ensures var r := UpdateAll(todos, req, ids, now);
      forall id | id in todos ::
        r[id] == if id in ids && OwnedBy(todos, id, req.userId) then BulkRow(req, todos[id], now) else todos[id]
    decreases |ids|
  {
    if ids != [] {
      var init := ids[..|ids| - 1];
      var last := ids[|ids| - 1];
      UpdateAllRows(todos, req, init, now);
      var m := UpdateAll(todos, req, init, now);
      assert ids == init + [last];
      forall id | id in todos
        ensures UpdateAll(todos, req, ids, now)[id] ==
                  if id in ids && OwnedBy(todos, id, req.userId) then BulkRow(req, todos[id], now) else todos[id]
      {
        if id == last && OwnedBy(todos, id, req.userId) {
          ApplyUpdateIdempotent(todos[id], TodoManagement.ToRepoUpdate(BulkUpdateFor(req, id), now));
        }
      }
    }
  }

  /** The outcome of a loop that counted `failedIds` as failures out of `total` ids. */
  function Outcome(total: int, failedIds: seq<int>): (r: BulkResponse)
    ensures r.doneCount + r.failedCount == total && r.failedCount == |failedIds| && r.failedIds == failedIds
    ensures r.success <==> r.failedCount == 0
  {
    BulkResponse(total - |failedIds|, |failedIds|, failedIds, |failedIds| == 0)
  }

  /** One turn of the `bulk_update` loop, as the folds over the first i + 1 ids see it. */
  lemma UpdateStep(todos: map<int, Todo>, req: BulkUpdateRequest, ids: seq<int>, i: nat, now: int)
    requires i < |ids|
    ensures var m := UpdateAll(todos, req, ids[..i], now);
      UpdateAll(todos, req, ids[..i + 1], now)
        == if OwnedBy(m, ids[i], req.userId) then m[ids[i] := ApplyUpdate(m[ids[i]], TodoManagement.ToRepoUpdate(BulkUpdateFor(req, ids[i]), now))]
           else m
    ensures FailedUpdates(todos, req.userId, ids[..i + 1])
         == FailedUpdates(todos, req.userId, ids[..i]) + if OwnedBy(todos, ids[i], req.userId) then [] else [ids[i]]
  {
    assert ids[..i + 1][..i] == ids[..i];
  }

  /** Updating never changes which user owns which todo. */
  lemma UpdateAllOwners(todos: map<int, Todo>, req: BulkUpdateRequest, ids: seq<int>, now: int, id: int)
    ensures OwnedBy(UpdateAll(todos, req, ids, now), id, req.userId) <==> OwnedBy(todos, id, req.userId)
  {
  }

  /** One turn of the `bulk_update` loop: a todo of the caller is updated, any other id fails
      and nothing is written. */
  method UpdateOne(store: TodoStore, req: BulkUpdateRequest, id: int, now: int) returns (ok: bool)
    requires store.Valid()
    modifies store
    ensures store.Valid() && store.nextId == old(store.nextId)
    ensures ok == OwnedBy(old(store.todos), id, req.userId)
    ensures store.todos == if ok then old(store.todos)[id := ApplyUpdate(old(store.todos)[id], TodoManagement.ToRepoUpdate(BulkUpdateFor(req, id), now))]
                           else old(store.todos)
  {
    var found := store.GetById(id);
    if found.None? || found.value.userId != req.userId {
      ok := false;
    } else {
      var _ := TodoManagement.UpdateTodo(store, BulkUpdateFor(req, id), now);
      ok := true;
    }
  }

  /** `bulk_update`: an empty list is rejected and nothing is written. Otherwise every id is
      counted once, as updated or as failed; the failed ids are exactly the missing or foreign
      ones, in input order; success means nothing failed; and the table is `UpdateAll`. */
  method BulkUpdate(store: TodoStore, req: BulkUpdateRequest, now: int) returns (r: Result<BulkResponse, BulkError>)
    requires store.Valid()
    modifies store
    ensures store.Valid() && store.nextId == old(store.nextId)
    ensures req.todoIds == [] ==> r == Failure(EmptyTodoList) && store.todos == old(store.todos)
    ensures req.todoIds != [] ==>
      && r == Success(Outcome(|req.todoIds|, FailedUpdates(old(store.todos), req.userId, req.todoIds)))
      && store.todos == UpdateAll(old(store.todos), req, req.todoIds, now)
  {
    if req.todoIds == [] {
      return Failure(EmptyTodoList);
    }
    var updated := 0;
    var failedIds: seq<int> := [];
    ghost var start := store.todos;
    for i := 0 to |req.todoIds|
      invariant store.Valid() && store.nextId == old(store.nextId)
      invariant store.todos == UpdateAll(start, req, req.todoIds[..i], now)
      invariant failedIds == FailedUpdates(start, req.userId, req.todoIds[..i])
      invariant updated + |failedIds| == i
    {
      var id := req.todoIds[i];
      UpdateStep(start, req, req.todoIds, i, now);
      UpdateAllOwners(start, req, req.todoIds[..i], now, id);
      var ok := UpdateOne(store, req, id, now);
      if ok {
        updated := updated + 1;
      } else {
        failedIds := failedIds + [id];
      }
    }
    assert req.todoIds[..|req.todoIds|] == req.todoIds;
    assert store.todos == UpdateAll(start, req, req.todoIds, now);
    assert failedIds == FailedUpdates(start, req.userId, req.todoIds);
    r := Success(BulkResponse(updated, |failedIds|, failedIds, |failedIds| == 0));
  }

  /** The table after the ids have been handled in turn by `bulk_delete`. */
  function DeleteAll(todos: map<int, Todo>, userId: int, ids: seq<int>): (r: map<int, Todo>)
    ensures r.Keys <= todos.Keys
    ensures forall id | id in r :: r[id] == todos[id]
  {
    if ids == [] then todos
    else
      var m := DeleteAll(todos, userId, ids[..|ids| - 1]);
      var id := ids[|ids| - 1];
      if OwnedBy(m, id, userId) then m - {id} else m
  }

  /** The ids `bulk_delete` counts as failed, in input order: each id missing at its turn,
      including one an earlier entry of the list already deleted, or belonging to another user. */
  function FailedDeletes(todos: map<int, Todo>, userId: int, ids: seq<int>): (r: seq<int>)
    ensures |r| <= |ids|
    ensures forall x | x in r :: x in ids
  {
    if ids == [] then []
    else
      var earlier := FailedDeletes(todos, userId, ids[..|ids| - 1]);
      var id := ids[|ids| - 1];
      if OwnedBy(DeleteAll(todos, userId, ids[..|ids| - 1]), id, userId) then earlier else earlier + [id]
  }

  /** The table after a bulk delete is the old table without the listed todos of the user:
      a listed todo of another user, and every unlisted todo, stays. */
  lemma {:induction false} DeleteAllRemovesOwnedListed(todos: map<int, Todo>, userId: int, ids: seq<int>)
    ensures DeleteAll(todos, userId, ids).Keys == set id | id in todos && !(id in ids && OwnedBy(todos, id, userId))
    decreases |ids|
  {
    if ids != [] {
      var init := ids[..|ids| - 1];
      var last := ids[|ids| - 1];
      DeleteAllRemovesOwnedListed(todos, userId, init);
      assert ids == init + [last];
    }
  }

  /** An entry of the list fails exactly when its todo is missing or foreign, or when the same
      id came earlier in the list: a repeated id is deleted once and fails afterwards. */
  lemma DeleteFailsAt(todos: map<int, Todo>, userId: int, ids: seq<int>, i: int)
    requires 0 <= i < |ids|
    ensures OwnedBy(DeleteAll(todos, userId, ids[..i]), ids[i], userId) <==>
            OwnedBy(todos, ids[i], userId) && ids[i] !in ids[..i]
  {
    DeleteAllRemovesOwnedListed(todos, userId, ids[..i]);
  }

  /** One pass of the loop of `bulk_delete`: a missing or foreign todo fails and nothing is
      written; otherwise the todo use case deletes exactly that row. */
  method DeleteOne(store: TodoStore, todoId: int, userId: int) returns (failed: bool)
    requires store.Valid()
    modifies store
    ensures store.Valid()
    ensures failed <==> !OwnedBy(old(store.todos), todoId, userId)
    ensures store.todos == if failed then old(store.todos) else old(store.todos) - {todoId}
    ensures |store.todos| == |old(store.todos)| - (if failed then 0 else 1)
  {
    var found := store.GetById(todoId);
    if found.None? || found.value.userId != userId {
      return true;
    }
    var _ := TodoManagement.DeleteTodo(store, todoId, userId);
    failed := false;
  }

  /** `bulk_delete`: an empty list is rejected and nothing is written. Otherwise every id is
      counted once, as deleted or as failed; the failed ids are `FailedDeletes`, in input order;
      success means nothing failed; the table is `DeleteAll`, and it lost exactly as many
      rows as were counted deleted. */
  method BulkDelete(store: TodoStore, req: BulkDeleteRequest) returns (r: Result<BulkResponse, BulkError>)
    requires store.Valid()
    modifies store
    ensures store.Valid()
    ensures req.todoIds == [] ==> r == Failure(EmptyTodoList) && store.todos == old(store.todos)
    ensures req.todoIds != [] ==>
      && r == Success(Outcome(|req.todoIds|, FailedDeletes(old(store.todos), req.userId, req.todoIds)))
      && store.todos == DeleteAll(old(store.todos), req.userId, req.todoIds)
      && |store.todos| == |old(store.todos)| - r.value.doneCount
  {
    if req.todoIds == [] {
      return Failure(EmptyTodoList);
    }
    var deleted := 0;
    var failedIds: seq<int> := [];
    ghost var start := store.todos;
    for i := 0 to |req.todoIds|
      invariant store.Valid()
      invariant store.todos == DeleteAll(start, req.userId, req.todoIds[..i])
      invariant failedIds == FailedDeletes(start, req.userId, req.todoIds[..i])
      invariant deleted + |failedIds| == i
      invariant |store.todos| == |start| - deleted
    {
      var id := req.todoIds[i];
      ghost var ids := req.todoIds[..i + 1];
      assert ids[..i] == req.todoIds[..i] && ids[i] == id;
      ghost var owned := OwnedBy(store.todos, id, req.userId);
      assert DeleteAll(start, req.userId, ids) == if owned then store.todos - {id} else store.todos;
      assert FailedDeletes(start, req.userId, ids) == if owned then failedIds else failedIds + [id];
      var failed := DeleteOne(store, id, req.userId);
      if failed {
        failedIds := failedIds + [id];
      } else {
        deleted := deleted + 1;
      }
    }
    assert req.todoIds[..|req.todoIds|] == req.todoIds;
    r := Success(BulkResponse(deleted, |failedIds|, failedIds, |failedIds| == 0));
  }
}
