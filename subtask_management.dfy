/** Subtask use cases (backend/usecase/subtask_management/service.py). Every operation on an
    existing subtask checks, in this order: the subtask exists, the todo exists, the todo
    belongs to the caller, the subtask belongs to the todo. The clock is the parameter `now`. */
module SubtaskManagement {
  import opened Wrappers
  import opened BaseModels
  import opened SubtaskRepository
  import TodoRepository
  import TodoManagement

  datatype SubtaskError =
    | SubtaskTitleRequired
    | SubtaskNotFound(subtaskId: int)
    | TodoNotFound(todoId: int)
    | TodoAccessDenied(todoId: int, userId: int)
    | BadRequest(subtaskId: int, todoId: int)

  datatype AddSubtaskRequest = AddSubtaskRequest(todoId: int, title: string, userId: int, order: Option<int>)

  datatype UpdateSubtaskRequest = UpdateSubtaskRequest(
    subtaskId: int,
    todoId: int,
    userId: int,
    title: Option<string>,
    status: Option<string>,
    order: Option<int>)

  datatype MarkSubtaskDoneRequest = MarkSubtaskDoneRequest(subtaskId: int, todoId: int, userId: int, done: bool)

  datatype GetSubtasksRequest = GetSubtasksRequest(todoId: int, userId: int, status: Option<string>)

  datatype SubtaskList = SubtaskList(subtasks: seq<Subtask>, total: int, progress: real)

  /** A row whose completion time is set exactly when its status is Done. */
  predicate Consistent(s: Subtask) {
    (s.status == Done) <==> s.completedAt.Some?
  }

  /** The guard of `add_subtask` and `get_subtasks`: NotFound before AccessDenied. */
  function TodoGuard(todos: TodoRepository.TodoStore, todoId: int, userId: int): (r: Option<SubtaskError>)
    requires todos.Valid()
    reads todos
    ensures r.None? <==> todoId in todos.todos && todos.todos[todoId].userId == userId
    ensures todoId !in todos.todos ==> r == Some(TodoNotFound(todoId))
    ensures todoId in todos.todos && todos.todos[todoId].userId != userId ==> r == Some(TodoAccessDenied(todoId, userId))
  {
    match todos.GetById(todoId)
    case None => Some(TodoNotFound(todoId))
    case Some(t) => if t.userId != userId then Some(TodoAccessDenied(todoId, userId)) else None
  }

  /** The guard of the operations on one subtask: the subtask exists, then the todo guard,
      then the subtask belongs to the todo. */
  function SubtaskGuard(subtasks: SubtaskStore, todos: TodoRepository.TodoStore, subtaskId: int, todoId: int, userId: int)
    : (r: Option<SubtaskError>)
    requires subtasks.Valid() && todos.Valid()
    reads subtasks, todos
    ensures subtasks.GetById(subtaskId).None? ==> r == Some(SubtaskNotFound(subtaskId))
    ensures subtasks.GetById(subtaskId).Some? && TodoGuard(todos, todoId, userId).Some? ==> r == TodoGuard(todos, todoId, userId)
    ensures subtasks.GetById(subtaskId).Some? && TodoGuard(todos, todoId, userId).None? ==>
      (r.None? <==> subtasks.GetById(subtaskId).value.todoId == todoId) && (r.Some? ==> r == Some(BadRequest(subtaskId, todoId)))
    ensures r.None? ==> FindBy(subtasks.rows, subtaskId, IdOf).Some?
  {
    match subtasks.GetById(subtaskId)
    case None => Some(SubtaskNotFound(subtaskId))
    case Some(s) =>
      if TodoGuard(todos, todoId, userId).Some? then TodoGuard(todos, todoId, userId)
      else if s.todoId != todoId then Some(BadRequest(subtaskId, todoId))
      else None
  }

  /** The order `add_subtask` stores, as written: the requested one, otherwise computed over the
      20 newest subtasks of the todo. */
  function OrderFor(req: AddSubtaskRequest, rows: seq<Subtask>): (r: int)
    ensures req.order.Some? ==> r == req.order.value
    ensures req.order.None? ==> forall s | s in QueryRows(rows, OfTodo(req.todoId)) :: s.order < r
    ensures req.order.None? && QueryRows(rows, OfTodo(req.todoId)) != [] ==>
              exists s | s in QueryRows(rows, OfTodo(req.todoId)) :: s.order == r - 1
    ensures req.order.None? && QueryRows(rows, OfTodo(req.todoId)) == [] ==> r == 0
  {
    if req.order.Some? then req.order.value else NextKey(QueryRows(rows, OfTodo(req.todoId)), OrderOf)
  }

  /** The evidently intended order: one past the largest order of every subtask of the todo. */
  function OrderAfterAll(req: AddSubtaskRequest, rows: seq<Subtask>): (r: int)
    ensures req.order.None? && req.todoId != 0 ==> forall s | s in rows && s.todoId == req.todoId :: s.order < r
  {
    if req.order.Some? then req.order.value else NextKey(RowsOfTodo(rows, req.todoId), OrderOf)
  }

  /** With at most 20 subtasks in the todo the window holds all of them, so the computed order
      is past every existing order. */
  lemma OrderForSmallTodo(req: AddSubtaskRequest, rows: seq<Subtask>)
    requires req.order.None? && req.todoId != 0
    requires |RowsOfTodo(rows, req.todoId)| <= DefaultLimit
    ensures forall s | s in rows && s.todoId == req.todoId :: s.order < OrderFor(req, rows)
    ensures OrderFor(req, rows) == OrderAfterAll(req, rows)
  {
    var f := OfTodo(req.todoId);
    var sel := Select(rows, f);
    var q := QueryRows(rows, f);
    NextKeySameElements(q, sel, OrderOf);
  }

  /** As written, with more than 20 subtasks in the todo the computed order is one past the
      order of some subtask other than the oldest. */
  lemma OrderForFromNewer(req: AddSubtaskRequest, rows: seq<Subtask>)
    requires req.order.None? && req.todoId != 0 && Increasing(rows)
    requires |RowsOfTodo(rows, req.todoId)| > DefaultLimit
    ensures exists s | s in rows && s.todoId == req.todoId && s != RowsOfTodo(rows, req.todoId)[0] ::
              OrderFor(req, rows) == s.order + 1
  {
    var f := OfTodo(req.todoId);
    OldestOutsideWindow(rows, req.todoId);
    var q := QueryRows(rows, f);
    assert q != [] by { assert |q| == DefaultLimit; }
    var m := NextKey(q, OrderOf);
    var top :| top in q && top.order == m - 1;
    assert top in rows && Matches(top, f);
    assert OrderFor(req, rows) == top.order + 1;
  }

  /** As written, when the oldest subtask of a todo with more than 20 subtasks holds the
      largest order, the new subtask gets an order at or below it, where the intended order is
      above it. */
  lemma OrderForBelowOldest(req: AddSubtaskRequest, rows: seq<Subtask>)
    requires req.order.None? && req.todoId != 0 && Increasing(rows)
    requires |RowsOfTodo(rows, req.todoId)| > DefaultLimit
    requires var oldest := RowsOfTodo(rows, req.todoId)[0];
             forall s | s in rows && s.todoId == req.todoId && s != oldest :: s.order < oldest.order
    ensures OrderFor(req, rows) <= RowsOfTodo(rows, req.todoId)[0].order < OrderAfterAll(req, rows)
  {
    var oldest := RowsOfTodo(rows, req.todoId)[0];
    assert oldest in RowsOfTodo(rows, req.todoId);
    OrderForFromNewer(req, rows);
  }

  /** Creating the row once the order is known: status ToDo, both timestamps `now`, no
      completion time. */
  method Insert(subtasks: SubtaskStore, req: AddSubtaskRequest, order: int, now: int) returns (s: Subtask)
    requires subtasks.Valid() && req.title != []
    modifies subtasks
    ensures subtasks.Valid()
    ensures s == Subtask(old(subtasks.nextId), req.title, ToDo, req.todoId, order, now, now, None)
    ensures subtasks.rows == old(subtasks.rows) + [s] && subtasks.nextId == old(subtasks.nextId) + 1
  {
    var created := subtasks.Create(SubtaskCreateRequest(req.title, ToDo, req.todoId, order, now, now, None));
    s := created.value;
  }

  /** `add_subtask`, as written: an empty title is rejected first, then the todo guard; the
      order defaults to `OrderFor`. */
  method AddSubtask(subtasks: SubtaskStore, todos: TodoRepository.TodoStore, req: AddSubtaskRequest, now: int)
    returns (r: Result<Subtask, SubtaskError>)
    requires subtasks.Valid() && todos.Valid()
    modifies subtasks
    ensures subtasks.Valid()
    ensures req.title == [] ==> r == Failure(SubtaskTitleRequired)
    ensures req.title != [] && TodoGuard(todos, req.todoId, req.userId).Some? ==>
      r == Failure(TodoGuard(todos, req.todoId, req.userId).value)
    ensures r.Failure? ==> subtasks.rows == old(subtasks.rows) && subtasks.nextId == old(subtasks.nextId)
    ensures r.Success? <==> req.title != [] && TodoGuard(todos, req.todoId, req.userId).None?
    ensures r.Success? ==>
      && r.value == Subtask(old(subtasks.nextId), req.title, ToDo, req.todoId, OrderFor(req, old(subtasks.rows)), now, now, None)
      && subtasks.rows == old(subtasks.rows) + [r.value]
      && Consistent(r.value)
  {
    if req.title == [] {
      return Failure(SubtaskTitleRequired);
    }
    var guard := TodoGuard(todos, req.todoId, req.userId);
    if guard.Some? {
      return Failure(guard.value);
    }
    var order := if req.order.Some? then req.order.value
                 else NextKey(subtasks.GetSubtasks(OfTodo(req.todoId)), OrderOf);
    var s := Insert(subtasks, req, order, now);
    r := Success(s);
  }

  /** `add_subtask` with the evidently intended order: past every subtask of the todo. */
  method AddSubtaskAfterAll(subtasks: SubtaskStore, todos: TodoRepository.TodoStore, req: AddSubtaskRequest, now: int)
    returns (r: Result<Subtask, SubtaskError>)
    requires subtasks.Valid() && todos.Valid()
    modifies subtasks
    ensures subtasks.Valid()
    ensures req.title == [] ==> r == Failure(SubtaskTitleRequired)
    ensures req.title != [] && TodoGuard(todos, req.todoId, req.userId).Some? ==>
      r == Failure(TodoGuard(todos, req.todoId, req.userId).value)
    ensures r.Failure? ==> subtasks.rows == old(subtasks.rows) && subtasks.nextId == old(subtasks.nextId)
    ensures r.Success? <==> req.title != [] && TodoGuard(todos, req.todoId, req.userId).None?
    ensures r.Success? ==>
      && r.value == Subtask(old(subtasks.nextId), req.title, ToDo, req.todoId, OrderAfterAll(req, old(subtasks.rows)), now, now, None)
      && subtasks.rows == old(subtasks.rows) + [r.value]
      && (req.order.None? ==> forall s | s in old(subtasks.rows) && s.todoId == req.todoId :: s.order < r.value.order)
  {
    if req.title == [] {
      return Failure(SubtaskTitleRequired);
    }
    var guard := TodoGuard(todos, req.todoId, req.userId);
    if guard.Some? {
      return Failure(guard.value);
    }
    var order := OrderAfterAll(req, subtasks.rows);
    var s := Insert(subtasks, req, order, now);
    r := Success(s);
  }

  /** The completion time `update_subtask` sends: `now` when moving to Done, None when a
      non-empty other status leaves Done, the stored time when the status is missing or empty
      on a Done row, otherwise None. */
  function CompletedAtFor(requested: Option<string>, current: Subtask, now: int): (r: Option<int>)
    ensures requested == Some(Done) && current.status != Done ==> r == Some(now)
    ensures requested == Some(Done) && current.status == Done ==> r.None?
    ensures requested.Some? && requested.value != "" && requested.value != Done ==> r.None?
    ensures requested.None? || requested == Some("") ==> r == if current.status == Done then current.completedAt else None
  {
    if requested == Some(Done) && current.status != Done then Some(now)
    else if requested.Some? && requested.value != "" && requested.value != Done && current.status == Done then None
    else if current.status == Done && (requested.None? || requested.value == "") then current.completedAt
    else None
  }

  /** The repository request `update_subtask` builds for the stored row `current`. */
  function UpdateFor(req: UpdateSubtaskRequest, current: Subtask, now: int): (u: SubtaskUpdateRequest)
    ensures u.title == req.title && u.status == req.status && u.order == req.order && u.updatedAt == Some(now)
  {
    SubtaskUpdateRequest(req.title, req.status, req.order, Some(now), CompletedAtFor(req.status, current, now))
  }

  /** What `update_subtask` stores for each status transition, once the use-case decision and
      the repository's own completion-time rule have both run. */
  lemma UpdateSubtaskCompletion(req: UpdateSubtaskRequest, current: Subtask, now: int)
    ensures var r := ApplySubtaskUpdate(current, UpdateFor(req, current, now));
      && (req.status == Some(Done) && current.status != Done ==> r.status == Done && r.completedAt == Some(now))
      && (req.status == Some(Done) && current.status == Done ==> r.status == Done && r.completedAt == current.completedAt)
      && (req.status.Some? && req.status.value != Done && req.status.value != "" ==> r.completedAt.None?)
      && (req.status.None? ==> r.status == current.status && r.completedAt == current.completedAt)
      && (req.status == Some("") ==> r.status == "" && r.completedAt == (if current.status == Done then current.completedAt else None))
      && (now != 0 ==> r.updatedAt == now)
  {
  }

  /** An update that names no status or a non-empty one keeps a consistent row consistent. */
  lemma UpdateKeepsConsistent(req: UpdateSubtaskRequest, current: Subtask, now: int)
    requires Consistent(current) && req.status != Some("")
    ensures Consistent(ApplySubtaskUpdate(current, UpdateFor(req, current, now)))
  {
    UpdateSubtaskCompletion(req, current, now);
  }

  /** An empty status on a Done row stores status "" with the completion time still set. */
  lemma EmptyStatusKeepsCompletion(req: UpdateSubtaskRequest, current: Subtask, now: int)
    requires req.status == Some("") && Consistent(current) && current.status == Done
    ensures !Consistent(ApplySubtaskUpdate(current, UpdateFor(req, current, now)))
  {
    UpdateSubtaskCompletion(req, current, now);
  }

  /** `update_subtask`: the subtask guard, then one repository update of the stored row. */
  method UpdateSubtask(subtasks: SubtaskStore, todos: TodoRepository.TodoStore, req: UpdateSubtaskRequest, now: int)
    returns (r: Result<Subtask, SubtaskError>)
    requires subtasks.Valid() && todos.Valid()
    modifies subtasks
    ensures subtasks.Valid() && subtasks.nextId == old(subtasks.nextId)
    ensures var g := old(SubtaskGuard(subtasks, todos, req.subtaskId, req.todoId, req.userId));
      && (g.Some? ==> r == Failure(g.value) && subtasks.rows == old(subtasks.rows))
      && (g.None? ==>
            var i := FindBy(old(subtasks.rows), req.subtaskId, IdOf).value;
            var current := old(subtasks.rows)[i];
            && r == Success(ApplySubtaskUpdate(current, UpdateFor(req, current, now)))
            && subtasks.rows == old(subtasks.rows)[i := r.value])
  {
    var guard := SubtaskGuard(subtasks, todos, req.subtaskId, req.todoId, req.userId);
    if guard.Some? {
      return Failure(guard.value);
    }
    var current := subtasks.GetById(req.subtaskId).value;
    assert current == subtasks.rows[FindBy(subtasks.rows, req.subtaskId, IdOf).value];
    var updated := subtasks.Update(req.subtaskId, UpdateFor(req, current, now));
    r := Success(updated.value);
  }

  /** `delete_subtask`: the subtask guard, then exactly that row leaves the table. */
  method DeleteSubtask(subtasks: SubtaskStore, todos: TodoRepository.TodoStore, subtaskId: int, todoId: int, userId: int)
    returns (r: Result<(), SubtaskError>)
    requires subtasks.Valid() && todos.Valid()
    modifies subtasks
    ensures subtasks.Valid() && subtasks.nextId == old(subtasks.nextId)
    ensures var g := old(SubtaskGuard(subtasks, todos, subtaskId, todoId, userId));
      && (g.Some? ==> r == Failure(g.value) && subtasks.rows == old(subtasks.rows))
      && (g.None? ==>
            var i := FindBy(old(subtasks.rows), subtaskId, IdOf).value;
            r == Success(()) && subtasks.rows == old(subtasks.rows)[..i] + old(subtasks.rows)[i + 1..])
  {
    var guard := SubtaskGuard(subtasks, todos, subtaskId, todoId, userId);
    if guard.Some? {
      return Failure(guard.value);
    }
    var _ := subtasks.Delete(subtaskId);
    r := Success(());
  }

  /** The repository request `mark_subtask_done` builds. */
  function MarkUpdate(done: bool, now: int): (u: SubtaskUpdateRequest)
    ensures u.title.None? && u.order.None? && u.updatedAt == Some(now)
  {
    SubtaskUpdateRequest(None, Some(if done then Done else ToDo), None, Some(now), if done then Some(now) else None)
  }

  /** Marking done stores Done with completion time `now`; marking undone stores ToDo with no
      completion time. Title and order are untouched, and the row ends consistent. */
  lemma MarkOutcome(s: Subtask, done: bool, now: int)
    ensures var r := ApplySubtaskUpdate(s, MarkUpdate(done, now));
      && r.status == (if done then Done else ToDo)
      && r.completedAt == (if done then Some(now) else None)
      && r.title == s.title && r.order == s.order && r.todoId == s.todoId
      && Consistent(r)
  {
  }

  /** `mark_subtask_done`: the subtask guard, then one repository update. */
  method MarkSubtaskDone(subtasks: SubtaskStore, todos: TodoRepository.TodoStore, req: MarkSubtaskDoneRequest, now: int)
    returns (r: Result<Subtask, SubtaskError>)
    requires subtasks.Valid() && todos.Valid()
    modifies subtasks
    ensures subtasks.Valid() && subtasks.nextId == old(subtasks.nextId)
    ensures var g := old(SubtaskGuard(subtasks, todos, req.subtaskId, req.todoId, req.userId));
      && (g.Some? ==> r == Failure(g.value) && subtasks.rows == old(subtasks.rows))
      && (g.None? ==>
            var i := FindBy(old(subtasks.rows), req.subtaskId, IdOf).value;
            && r == Success(ApplySubtaskUpdate(old(subtasks.rows)[i], MarkUpdate(req.done, now)))
            && subtasks.rows == old(subtasks.rows)[i := r.value])
  {
    var guard := SubtaskGuard(subtasks, todos, req.subtaskId, req.todoId, req.userId);
    if guard.Some? {
      return Failure(guard.value);
    }
    var updated := subtasks.Update(req.subtaskId, MarkUpdate(req.done, now));
    r := Success(updated.value);
  }

  /** The query `get_subtasks` runs: the todo, the optional status, ordered by "order", with
      the default window of 20 rows. */
  function ListFilter(req: GetSubtasksRequest): (f: SubtaskFilter)
    ensures f.page == Page(DefaultLimit, DefaultOffset) && f.orderBy == "order"
  {
    SubtaskFilter(Some(req.todoId), req.status, "order", Page(DefaultLimit, DefaultOffset))
  }

  /** `get_subtasks`: the todo guard, then at most 20 rows of the todo, sorted by order;
      `total` counts the rows returned, not the todo's subtasks, and progress is computed over
      the same rows. */
  function GetSubtasks(subtasks: SubtaskStore, todos: TodoRepository.TodoStore, req: GetSubtasksRequest)
    : (r: Result<SubtaskList, SubtaskError>)
    requires subtasks.Valid() && todos.Valid()
    reads subtasks, todos
    ensures r.Failure? <==> TodoGuard(todos, req.todoId, req.userId).Some?
    ensures r.Failure? ==> r.error == TodoGuard(todos, req.todoId, req.userId).value
    ensures r.Success? ==>
      var n := |Select(subtasks.rows, ListFilter(req))|;
      && r.value.total == |r.value.subtasks| == (if n < DefaultLimit then n else DefaultLimit)
      && (forall s | s in r.value.subtasks ::
            s in subtasks.rows && s.todoId == req.todoId && (req.status.Some? && req.status.value != "" ==> s.status == req.status.value))
      && (n <= DefaultLimit ==> forall s | s in subtasks.rows && Matches(s, ListFilter(req)) :: s in r.value.subtasks)
      && SortedByOrder(r.value.subtasks)
      && r.value.progress == TodoManagement.Progress(StatusesOf(r.value.subtasks))
      && 0.0 <= r.value.progress <= 100.0
  {
    match TodoGuard(todos, req.todoId, req.userId)
    case Some(e) => Failure(e)
    case None =>
      var f := ListFilter(req);
      assert req.todoId in todos.todos && IsSet(f.todoId);
      var rows := subtasks.GetSubtasks(f);
      Success(SubtaskList(rows, |rows|, TodoManagement.Progress(StatusesOf(rows))))
  }
}
