/** The todo use-case layer (backend/usecase/todo_management/service.py): every operation
    re-reads the todo, checks it exists and belongs to the caller, then writes through the
    repository. The clock read `now()` is the parameter `now`. */
module TodoManagement {
  import opened Wrappers
  import opened TodoRepository
  import BaseModels
  import SubtaskRepository

  datatype TodoError =
    | TodoTitleRequired
    | TodoNotFound(todoId: int)
    | AccessDenied(todoId: int, userId: int)
    | InvalidFilter(reason: BaseModels.ValidationError)

  datatype CreateTodoRequest = CreateTodoRequest(
    title: string,
    description: Option<string>,
    deadline: Option<int>,
    priority: string,
    status: string,
    category: Option<string>,
    labels: Option<seq<string>>,
    userId: int,
    projectId: Option<int>,
    previousId: Option<int>,
    nextId: Option<int>,
    order: int,
    autoRepeat: string)

  datatype CreateTodoResponse = CreateTodoResponse(todoId: int, title: string, status: string, userId: int, createdAt: int)

  /** `UpdateTodoRequest`: the target, the caller, and optional new values (None = unchanged). */
  datatype UpdateTodoRequest = UpdateTodoRequest(
    todoId: int,
    userId: int,
    title: Option<string>,
    description: Option<string>,
    deadline: Option<int>,
    priority: Option<string>,
    status: Option<string>,
    category: Option<string>,
    labels: Option<seq<string>>,
    projectId: Option<int>,
    previousId: Option<int>,
    nextId: Option<int>,
    order: Option<int>,
    autoRepeat: Option<string>,
    completedAt: Option<int>)

  /** An update request for `todoId` on behalf of `userId` that changes nothing. */
  function EmptyUpdate(todoId: int, userId: int): UpdateTodoRequest {
    UpdateTodoRequest(todoId, userId, None, None, None, None, None, None, None, None, None, None, None, None, None)
  }

  /** The usecase view of a todo: the stored row plus its subtask progress. */
  datatype TodoView = TodoView(todo: Todo, progress: real)

  datatype TodoListResponse = TodoListResponse(todos: seq<TodoView>, total: int)

  /** The filter fields the model follows; the deadline and creation-time ranges are left to the query. */
  datatype TodoFilter = TodoFilter(
    userId: int,
    projectId: Option<int>,
    status: Option<string>,
    priority: Option<string>,
    category: Option<string>,
    labelName: Option<string>,
    search: Option<string>,
    orderBy: string,
    limit: Option<int>,
    offset: Option<int>)

  datatype GetAllMyTodosRequest = GetAllMyTodosRequest(
    userId: int,
    status: Option<string>,
    priority: Option<string>,
    category: Option<string>,
    labelName: Option<string>,
    search: Option<string>,
    orderBy: string,
    limit: Option<int>,
    offset: Option<int>)

  /** Number of subtasks whose status is 'Done'. */
  function CountDone(statuses: seq<string>): (n: nat)
    ensures n <= |statuses|
  {
    if statuses == [] then 0
    else (if statuses[0] == "Done" then 1 else 0) + CountDone(statuses[1..])
  }

  /** The Done count equals the number of subtasks exactly when every status is 'Done'. */
  lemma {:induction false} CountDoneAll(statuses: seq<string>)
    ensures CountDone(statuses) == |statuses| <==> forall i | 0 <= i < |statuses| :: statuses[i] == "Done"
  {
    if statuses != [] {
      CountDoneAll(statuses[1..]);
      assert forall i | 1 <= i < |statuses| :: statuses[i] == statuses[1..][i - 1];
    }
  }

  /** Subtask progress as a percentage of Done subtasks; 0 when there are none.
      The rounding to two decimals is not modelled. */
  function Progress(statuses: seq<string>): (r: real)
    ensures statuses == [] ==> r == 0.0
    ensures 0.0 <= r <= 100.0
    ensures statuses != [] ==> (r == 100.0 <==> CountDone(statuses) == |statuses|)
    ensures statuses != [] ==> (r == 0.0 <==> CountDone(statuses) == 0)
  {
    if statuses == [] then 0.0
    else
      var done, n := CountDone(statuses) as real, |statuses| as real;
      assert done * 100.0 / n == 100.0 ==> done == n by {
        if done * 100.0 / n == 100.0 {
          assert done * 100.0 == 100.0 * n;
        }
      }
      done * 100.0 / n
  }

  /** The subtasks `_calculate_progress_from_subtasks` counts: it asks the subtask repository
      with only the todo id given, so it gets the 20 newest subtasks of the todo. */
  function ProgressRows(subtaskRows: seq<SubtaskRepository.Subtask>, todoId: int): (r: seq<SubtaskRepository.Subtask>)
    ensures |r| <= BaseModels.DefaultLimit
    ensures forall s | s in r :: s in subtaskRows && (todoId != 0 ==> s.todoId == todoId)
  {
    SubtaskRepository.QueryRows(subtaskRows, SubtaskRepository.OfTodo(todoId))
  }

  /** 100 exactly when every status is 'Done', and there is at least one. */
  lemma AllDoneProgress(rows: seq<SubtaskRepository.Subtask>)
    ensures Progress(SubtaskRepository.StatusesOf(rows)) == 100.0 <==> rows != [] && forall s | s in rows :: s.status == "Done"
  {
    var st := SubtaskRepository.StatusesOf(rows);
    CountDoneAll(st);
    if rows != [] && (forall i | 0 <= i < |st| :: st[i] == "Done") {
      forall s | s in rows ensures s.status == "Done" {
        var k :| 0 <= k < |rows| && rows[k] == s;
        assert st[k] == "Done";
      }
    }
  }

  /** Progress of `todoId` over the subtask table `subtaskRows`, as written: the share of Done
      subtasks among the 20 newest of the todo. */
  function ProgressOf(subtaskRows: seq<SubtaskRepository.Subtask>, todoId: int): (r: real)
    ensures 0.0 <= r <= 100.0
    ensures r == 100.0 <==>
      ProgressRows(subtaskRows, todoId) != [] && forall s | s in ProgressRows(subtaskRows, todoId) :: s.status == "Done"
  {
    AllDoneProgress(ProgressRows(subtaskRows, todoId));
    Progress(SubtaskRepository.StatusesOf(ProgressRows(subtaskRows, todoId)))
  }

  /** The evidently intended progress: the share of Done subtasks among all of the todo's. */
  function ProgressOfAll(subtaskRows: seq<SubtaskRepository.Subtask>, todoId: int): (r: real)
    requires todoId != 0
    ensures 0.0 <= r <= 100.0
    ensures r == 100.0 <==>
      (exists s :: s in subtaskRows && s.todoId == todoId)
      && forall s | s in subtaskRows && s.todoId == todoId :: s.status == "Done"
  {
    var rows := SubtaskRepository.RowsOfTodo(subtaskRows, todoId);
    AllDoneProgress(rows);
    assert rows != [] ==> rows[0] in rows;
    Progress(SubtaskRepository.StatusesOf(rows))
  }

  /** As written, a todo with more than 20 subtasks whose only unfinished subtask is the oldest
      one shows 100% progress, where the intended progress is below 100%. */
  lemma ProgressIgnoresOldest(subtaskRows: seq<SubtaskRepository.Subtask>, todoId: int)
    requires todoId != 0 && SubtaskRepository.Increasing(subtaskRows)
    requires |SubtaskRepository.RowsOfTodo(subtaskRows, todoId)| > BaseModels.DefaultLimit
    requires SubtaskRepository.RowsOfTodo(subtaskRows, todoId)[0].status != "Done"
    requires forall s | s in subtaskRows && s.todoId == todoId && s != SubtaskRepository.RowsOfTodo(subtaskRows, todoId)[0] ::
               s.status == "Done"
    ensures ProgressOf(subtaskRows, todoId) == 100.0
    ensures ProgressOfAll(subtaskRows, todoId) < 100.0
  {
    var all := SubtaskRepository.RowsOfTodo(subtaskRows, todoId);
    SubtaskRepository.OldestOutsideWindow(subtaskRows, todoId);
    assert all[0] in all;
    var q := ProgressRows(subtaskRows, todoId);
    assert q != [] by { assert |q| == BaseModels.DefaultLimit; }
  }

  /** The repository request `create_todo` builds: both timestamps are `now`, nothing completed. */
  function ToRepoCreate(req: CreateTodoRequest, now: int): (c: CreateRequest)
    ensures c.createdAt == Some(now) && c.updatedAt == Some(now) && c.completedAt.None?
    ensures c.title == req.title && c.description == req.description && c.deadline == req.deadline
    ensures c.priority == req.priority && c.status == req.status && c.category == req.category
    ensures c.labels == req.labels && c.userId == req.userId && c.projectId == req.projectId
    ensures c.previousId == req.previousId && c.nextId == req.nextId
    ensures c.order == req.order && c.autoRepeat == req.autoRepeat
  {
    CreateRequest(req.title, req.description, req.deadline, req.priority, req.status, req.category,
                  req.labels, req.userId, req.projectId, req.previousId, req.nextId, req.order,
                  req.autoRepeat, Some(now), Some(now), None)
  }

  /** The repository request `update_todo` builds: every optional field forwarded as given,
      created_at None (never updated), updated_at `now`. */
  function ToRepoUpdate(req: UpdateTodoRequest, now: int): (u: UpdateRequest)
    ensures u.createdAt.None? && u.updatedAt == Some(now)
    ensures u.title == req.title && u.description == req.description && u.deadline == req.deadline
    ensures u.priority == req.priority && u.status == req.status && u.category == req.category
    ensures u.labels == req.labels && u.projectId == req.projectId
    ensures u.previousId == req.previousId && u.nextId == req.nextId
    ensures u.order == req.order && u.autoRepeat == req.autoRepeat && u.completedAt == req.completedAt
    ensures req == EmptyUpdate(req.todoId, req.userId) ==> OnlyTimestamp(u)
  {
    UpdateRequest(req.title, req.description, req.deadline, req.priority, req.status, req.category,
                  req.labels, req.projectId, req.previousId, req.nextId, req.order, None, Some(now),
                  req.completedAt, req.autoRepeat)
  }

  /** True when `todoId` exists and belongs to `userId`. */
  ghost predicate Owns(todos: map<int, Todo>, todoId: int, userId: int) {
    todoId in todos && todos[todoId].userId == userId
  }

  /** The shared guard: NotFound before AccessDenied. */
  function AccessError(todos: map<int, Todo>, todoId: int, userId: int): (r: Option<TodoError>)
    ensures r.None? <==> Owns(todos, todoId, userId)
    ensures todoId !in todos ==> r == Some(TodoNotFound(todoId))
    ensures todoId in todos && todos[todoId].userId != userId ==> r == Some(AccessDenied(todoId, userId))
  {
    if todoId !in todos then Some(TodoNotFound(todoId))
    else if todos[todoId].userId != userId then Some(AccessDenied(todoId, userId))
    else None
  }

  /** `create_todo`: an empty title is rejected before anything is stored; otherwise the todo is
      stored with created_at == updated_at == now and no completion time. */
  method CreateTodo(store: TodoStore, req: CreateTodoRequest, now: int) returns (r: Result<CreateTodoResponse, TodoError>)
    requires store.Valid()
    modifies store
    ensures store.Valid()
    ensures req.title == [] ==> r == Failure(TodoTitleRequired) && store.todos == old(store.todos)
    ensures req.title != [] ==>
      && r.Success?
      && r.value.todoId !in old(store.todos)
      && store.todos == old(store.todos)[r.value.todoId := FromCreate(r.value.todoId, ToRepoCreate(req, now))]
      && store.todos[r.value.todoId].createdAt == Some(now)
      && store.todos[r.value.todoId].updatedAt == Some(now)
      && store.todos[r.value.todoId].completedAt.None?
      && r.value == CreateTodoResponse(r.value.todoId, req.title, req.status, req.userId, now)
  {
    if req.title == [] {
      return Failure(TodoTitleRequired);
    }
    var created := store.Create(ToRepoCreate(req, now));
    var t := created.value;
    r := Success(CreateTodoResponse(t.id, t.title, t.status, t.userId, now));
  }

  /** `get_todo_by_id`: NotFound, then AccessDenied; only the owner reads the todo. */
  method GetTodoById(store: TodoStore, subtasks: SubtaskRepository.SubtaskStore, todoId: int, userId: int)
    returns (r: Result<TodoView, TodoError>)
    requires store.Valid() && subtasks.Valid()
    ensures AccessError(store.todos, todoId, userId).Some? ==> r == Failure(AccessError(store.todos, todoId, userId).value)
    ensures r.Success? <==> Owns(store.todos, todoId, userId)
    ensures r.Success? ==> r.value == TodoView(store.todos[todoId], ProgressOf(subtasks.rows, todoId))
  {
    var found := store.GetById(todoId);
    if found.None? {
      return Failure(TodoNotFound(todoId));
    }
    if found.value.userId != userId {
      return Failure(AccessDenied(todoId, userId));
    }
    r := Success(TodoView(found.value, ProgressOf(subtasks.rows, todoId)));
  }

  /** `update_todo`: NotFound, then AccessDenied, writing nothing in either case; otherwise only
      the target row changes, to the repository update of the forwarded fields. */
  method UpdateTodo(store: TodoStore, req: UpdateTodoRequest, now: int) returns (r: Result<Todo, TodoError>)
    requires store.Valid()
    modifies store
    ensures store.Valid() && store.nextId == old(store.nextId)
    ensures !Owns(old(store.todos), req.todoId, req.userId) ==>
      && r == Failure(AccessError(old(store.todos), req.todoId, req.userId).value)
      && store.todos == old(store.todos)
    ensures Owns(old(store.todos), req.todoId, req.userId) ==>
      && r == Success(ApplyUpdate(old(store.todos)[req.todoId], ToRepoUpdate(req, now)))
      && store.todos == old(store.todos)[req.todoId := r.value]
      && r.value.userId == req.userId
      && r.value.createdAt == old(store.todos)[req.todoId].createdAt
  {
    var existing := store.GetById(req.todoId);
    if existing.None? {
      return Failure(TodoNotFound(req.todoId));
    }
    if existing.value.userId != req.userId {
      return Failure(AccessDenied(req.todoId, req.userId));
    }
    var updated := store.Update(req.todoId, ToRepoUpdate(req, now));
    r := Success(updated.value);
  }

  /** `delete_todo`: NotFound, then AccessDenied; only the owner removes the todo. */
  method DeleteTodo(store: TodoStore, todoId: int, userId: int) returns (r: Result<(), TodoError>)
    requires store.Valid()
    modifies store
    ensures store.Valid()
    ensures !Owns(old(store.todos), todoId, userId) ==>
      r == Failure(AccessError(old(store.todos), todoId, userId).value) && store.todos == old(store.todos)
    ensures Owns(old(store.todos), todoId, userId) ==> r.Success? && store.todos == old(store.todos) - {todoId}
  {
    var existing := store.GetById(todoId);
    if existing.None? {
      return Failure(TodoNotFound(todoId));
    }
    if existing.value.userId != userId {
      return Failure(AccessDenied(todoId, userId));
    }
    var _ := store.Delete(todoId);
    r := Success(());
  }

  /** `get_todos`: `matching` are the rows the query selects, in query order. The filter's window
      is validated and applied, and `total` is the size of the returned page (not the number
      of matching rows). Each todo carries its progress over the subtask table `subtaskRows`. */
  function GetTodos(f: TodoFilter, matching: seq<Todo>, subtaskRows: seq<SubtaskRepository.Subtask>)
    : (r: Result<TodoListResponse, TodoError>)
    ensures r.Failure? <==> BaseModels.ValidatePage(f.limit, f.offset).Failure?
    ensures BaseModels.ValidatePage(f.limit, f.offset).Failure? ==>
      r == Failure(InvalidFilter(BaseModels.ValidatePage(f.limit, f.offset).error))
    ensures r.Success? ==>
      var page := BaseModels.Window(matching, BaseModels.ValidatePage(f.limit, f.offset).value);
      && r.value.total == |r.value.todos| == |page|
      && r.value.total <= BaseModels.ValidatePage(f.limit, f.offset).value.limit
      && forall i | 0 <= i < |r.value.todos| ::
           r.value.todos[i] == TodoView(page[i], ProgressOf(subtaskRows, page[i].id))
           && page[i] in matching
  {
    match BaseModels.ValidatePage(f.limit, f.offset)
    case Failure(e) => Failure(InvalidFilter(e))
    case Success(page) =>
      var rows := BaseModels.Window(matching, page);
      var views := seq(|rows|, i requires 0 <= i < |rows| => TodoView(rows[i], ProgressOf(subtaskRows, rows[i].id)));
      Success(TodoListResponse(views, |views|))
  }

  /** The filter `get_all_my_todos` hands to `get_todos`: the caller's own fields, project_id None. */
  function AllMyTodosFilter(req: GetAllMyTodosRequest): (f: TodoFilter)
    ensures f.projectId.None? && f.userId == req.userId
    ensures f.limit == req.limit && f.offset == req.offset
  {
    TodoFilter(req.userId, None, req.status, req.priority, req.category, req.labelName, req.search,
               req.orderBy, req.limit, req.offset)
  }

  /** `get_all_my_todos` is `get_todos` over every project (project_id None). */
  function GetAllMyTodos(req: GetAllMyTodosRequest, matching: seq<Todo>, subtaskRows: seq<SubtaskRepository.Subtask>)
    : (r: Result<TodoListResponse, TodoError>)
    ensures r == GetTodos(AllMyTodosFilter(req), matching, subtaskRows)
    ensures r.Success? ==> r.value.total == |r.value.todos|
    ensures BaseModels.ValidatePage(req.limit, req.offset).Failure? <==> r.Failure?
    ensures r.Success? ==>
      var page := BaseModels.Window(matching, BaseModels.ValidatePage(req.limit, req.offset).value);
      |r.value.todos| == |page| && forall i | 0 <= i < |page| :: r.value.todos[i].todo == page[i]
  {
    GetTodos(AllMyTodosFilter(req), matching, subtaskRows)
  }
}
