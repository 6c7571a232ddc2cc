/** Kanban use cases (backend/usecase/kanban_management/service.py): the board view, moving a
    card, and the column operations. The clock read `now()` is the parameter `now`; the todo
    list the board shows is the parameter `todos`, the rows the todo query returned. */
module KanbanManagement {
  import opened Wrappers
  import opened BaseModels
  import opened KanbanRepository
  import ProjectRepository
  import ProjectManagement
  import TodoRepository
  import TodoManagement

  /** One entry of `DEFAULT_COLUMNS`. */
  datatype DefaultColumnSpec = DefaultColumnSpec(name: string, statusValue: string, color: string, order: int, isDefault: bool)

  /** The board a user gets while no active column of their own exists. */
  const DefaultColumns: seq<DefaultColumnSpec> := [
    DefaultColumnSpec("ToDo", "ToDo", "#6B7280", 0, true),
    DefaultColumnSpec("In Progress", "In Progress", "#3B82F6", 1, true),
    DefaultColumnSpec("Done", "Done", "#10B981", 2, true)
  ]

  /** The use-case `KanbanColumnDTO`. */
  datatype ColumnView = ColumnView(
    columnId: int,
    name: string,
    statusValue: string,
    color: string,
    projectId: Option<int>,
    userId: Option<int>,
    order: int,
    isDefault: bool,
    isActive: bool)

  /** `KanbanCardDTO`: a todo as the board shows it. */
  datatype Card = Card(
    todoId: int,
    title: string,
    description: string,
    priority: string,
    status: string,
    labels: seq<string>,
    deadline: Option<int>,
    projectId: Option<int>,
    order: int,
    progress: real)

  datatype BoardRequest = BoardRequest(projectId: Option<int>, userId: int)

  datatype Board = Board(columns: seq<ColumnView>, cards: seq<Card>, projectId: Option<int>)

  datatype MoveTodoRequest = MoveTodoRequest(todoId: int, newStatus: string, userId: int, newOrder: Option<int>)

  datatype MoveTodoResponse = MoveTodoResponse(todoId: int, oldStatus: string, newStatus: string, success: bool)

  datatype CreateColumnRequest = CreateColumnRequest(
    name: string,
    statusValue: Option<string>,
    color: Option<string>,
    projectId: Option<int>,
    userId: int,
    order: Option<int>)

  datatype CreateColumnResponse = CreateColumnResponse(columnId: int, name: string, statusValue: string, color: string, order: int)

  /** One entry of `column_orders`: a dictionary either of whose keys may be missing. */
  datatype ColumnOrder = ColumnOrder(columnId: Option<int>, order: Option<int>)

  datatype ReorderRequest = ReorderRequest(columnOrders: seq<ColumnOrder>, projectId: Option<int>, userId: int)

  /** Why a request was refused with `KanbanManagementBadRequestException`. */
  datatype Refusal =
    | NoProjectAccess(projectId: int)
    | NoTodoAccess(todoId: int)
    | NoColumnAccess(columnId: int)
    | DefaultColumnLocked
    | NoReorderAccess

  datatype KanbanError =
    | BoardProjectNotFound(projectId: int)
    | TodoNotFoundById(todoId: int)
    | ColumnNotFoundById(columnId: int)
    | ColumnNameRequired
    | BadRequest(userId: int, reason: Refusal)

  /** The owner a column query or a new column gets: none when a project is given, else the caller. */
  function ScopeUser(projectId: Option<int>, userId: int): Option<int> {
    if IsSet(projectId) then None else Some(userId)
  }

  /** `_repo_column_dto_to_usecase_dto`: every field of the stored column, carried over. */
  function ViewOf(c: Column): (v: ColumnView)
    ensures v.columnId == c.id && v.name == c.name && v.statusValue == c.statusValue && v.color == c.color
    ensures v.projectId == c.projectId && v.userId == c.userId && v.order == c.order
    ensures v.isDefault == c.isDefault && v.isActive == c.isActive
  {
    ColumnView(c.id, c.name, c.statusValue, c.color, c.projectId, c.userId, c.order, c.isDefault, c.isActive)
  }

  /** `_todo_dto_to_kanban_card`: the todo's own fields (the stored description and labels are
      already "" and [] when unset) and progress 0. */
  function CardOf(t: TodoRepository.Todo): (k: Card)
    ensures k.todoId == t.id && k.title == t.title && k.description == t.description
    ensures k.priority == t.priority && k.status == t.status && k.labels == t.labels
    ensures k.deadline == t.deadline && k.projectId == t.projectId && k.order == t.order
    ensures k.progress == 0.0
  {
    Card(t.id, t.title, t.description, t.priority, t.status, t.labels, t.deadline, t.projectId, t.order, 0.0)
  }

  /** A column belongs on the board of `req`: active, of the given project, and of the caller
      when no project is given. */
  predicate OnBoard(v: ColumnView, req: BoardRequest) {
    && v.isActive
    && (req.projectId.Some? ==> v.projectId == req.projectId)
    && (!IsSet(req.projectId) ==> v.userId == Some(req.userId))
  }

  /** The access rule of `get_kanban_board`: with a truthy project id the project must exist,
      and a private one is open only to its owner and to users with a member row. */
  function BoardGuard(projects: ProjectRepository.ProjectStore, req: BoardRequest): (r: Option<KanbanError>)
    requires projects.Valid()
    reads projects
    ensures !IsSet(req.projectId) ==> r.None?
    ensures IsSet(req.projectId) && req.projectId.value !in projects.projects ==>
      r == Some(BoardProjectNotFound(req.projectId.value))
    ensures IsSet(req.projectId) && req.projectId.value in projects.projects ==>
      && (r.None? <==> ProjectManagement.GetProjectById(projects, req.projectId.value, req.userId).Success?)
      && (r.Some? ==> r == Some(BadRequest(req.userId, NoProjectAccess(req.projectId.value))))
  {
    if !IsSet(req.projectId) then None
    else
      var pid := req.projectId.value;
      match projects.GetById(pid)
      case None => Some(BoardProjectNotFound(pid))
      case Some(p) =>
        if p.isPrivate && p.ownerId != req.userId && projects.GetMember(pid, req.userId).None? then
          Some(BadRequest(req.userId, NoProjectAccess(pid)))
        else None
  }

  /** The column query of `get_kanban_board`: active columns of the board, by "order", in the
      default window of 20 rows. */
  function BoardFilter(req: BoardRequest): (f: ColumnFilter)
    ensures f.isActive == Some(true) && f.orderBy == "order" && f.page == Page(DefaultLimit, DefaultOffset)
    ensures forall c :: Matches(c, f) <==> OnBoard(ViewOf(c), req)
  {
    ColumnFilter(req.projectId, ScopeUser(req.projectId, req.userId), None, Some(true), "order", Page(DefaultLimit, DefaultOffset))
  }

  /** One entry of `DEFAULT_COLUMNS` as a board column: no id, the board's project, the caller
      as owner only without a project, active. */
  function DefaultView(spec: DefaultColumnSpec, req: BoardRequest): (v: ColumnView)
    ensures v.columnId == 0 && v.name == spec.name && v.statusValue == spec.statusValue && v.color == spec.color
    ensures v.projectId == req.projectId && v.userId == ScopeUser(req.projectId, req.userId)
    ensures v.order == spec.order && v.isDefault == spec.isDefault && v.isActive
  {
    ColumnView(0, spec.name, spec.statusValue, spec.color, req.projectId, ScopeUser(req.projectId, req.userId),
               spec.order, spec.isDefault, true)
  }

  /** The default columns of the board, built one entry of `DEFAULT_COLUMNS` at a time: three
      columns ToDo, In Progress and Done, ordered 0, 1, 2, without an id, default and active. */
  method DefaultColumnViews(req: BoardRequest) returns (cols: seq<ColumnView>)
    ensures |cols| == 3
    ensures cols[0].statusValue == "ToDo" && cols[1].statusValue == "In Progress" && cols[2].statusValue == "Done"
    ensures forall i | 0 <= i < |cols| ::
      && cols[i] == DefaultView(DefaultColumns[i], req)
      && cols[i].columnId == 0 && cols[i].order == i && cols[i].isDefault
      && OnBoard(cols[i], req)
  {
    cols := [];
    for i := 0 to |DefaultColumns|
      invariant |cols| == i
      invariant forall k | 0 <= k < i :: cols[k] == DefaultView(DefaultColumns[k], req)
    {
      cols := cols + [DefaultView(DefaultColumns[i], req)];
    }
  }

  /** `get_kanban_board`: the access rule, then the stored active columns of the board (at most
      20, by order) or the three default columns when there are none, and one card per todo,
      in the order given, each with progress 0. */
  method GetKanbanBoard(projects: ProjectRepository.ProjectStore, columns: ColumnStore, req: BoardRequest, todos: seq<TodoRepository.Todo>)
    returns (r: Result<Board, KanbanError>)
    requires projects.Valid() && columns.Valid()
    ensures r.Success? <==> BoardGuard(projects, req).None?
    ensures r.Failure? ==> r.error == BoardGuard(projects, req).value
    ensures r.Success? ==>
      var stored := Select(columns.columns, BoardFilter(req));
      && r.value.projectId == req.projectId
      && (forall v | v in r.value.columns :: OnBoard(v, req))
      && (forall i, j | 0 <= i < j < |r.value.columns| :: r.value.columns[i].order <= r.value.columns[j].order)
      && (stored == [] ==>
            && |r.value.columns| == 3
            && r.value.columns[0].name == "ToDo" && r.value.columns[1].name == "In Progress" && r.value.columns[2].name == "Done"
            && forall i | 0 <= i < 3 :: r.value.columns[i] == DefaultView(DefaultColumns[i], req) && r.value.columns[i].order == i)
      && (stored != [] ==>
            var q := columns.GetColumns(BoardFilter(req));
            && |r.value.columns| == |q| <= DefaultLimit
            && forall i | 0 <= i < |q| :: r.value.columns[i] == ViewOf(q[i]))
      && (stored != [] ==> forall v | v in r.value.columns :: exists c | c in columns.columns :: v == ViewOf(c))
      && (0 < |stored| <= DefaultLimit ==> forall c | c in stored :: ViewOf(c) in r.value.columns)
      && |r.value.cards| == |todos|
      && forall i | 0 <= i < |todos| :: r.value.cards[i] == CardOf(todos[i])
  {
    var guard := BoardGuard(projects, req);
    if guard.Some? {
      return Failure(guard.value);
    }
    var f := BoardFilter(req);
    var custom := columns.GetColumns(f);
    var views: seq<ColumnView>;
    if custom != [] {
      views := seq(|custom|, i requires 0 <= i < |custom| => ViewOf(custom[i]));
      assert forall k | 0 <= k < |custom| :: views[k] == ViewOf(custom[k]);
      forall c | c in Select(columns.columns, f) && |Select(columns.columns, f)| <= DefaultLimit
        ensures ViewOf(c) in views
      {
        assert c in columns.columns && Matches(c, f);
        var k := IndexOf(custom, c);
        assert views[k] == ViewOf(c);
      }
    } else {
      views := DefaultColumnViews(req);
    }
    var cards := seq(|todos|, i requires 0 <= i < |todos| => CardOf(todos[i]));
    r := Success(Board(views, cards, req.projectId));
  }

  /** The todo update `move_todo` asks for: the new status and the new order, nothing else. */
  function MoveUpdate(req: MoveTodoRequest): (u: TodoManagement.UpdateTodoRequest)
    ensures u.todoId == req.todoId && u.userId == req.userId
    ensures u.status == Some(req.newStatus) && u.order == req.newOrder
    ensures u.(status := None, order := None) == TodoManagement.EmptyUpdate(req.todoId, req.userId)
  {
    TodoManagement.EmptyUpdate(req.todoId, req.userId).(status := Some(req.newStatus), order := req.newOrder)
  }

  /** `move_todo`: NotFound, then BadRequest for another user's todo, writing nothing; otherwise
      the todo update changes the status, the order when one is given, and updated_at, and the
      response reports the status before and after the move. */
  method MoveTodo(todos: TodoRepository.TodoStore, req: MoveTodoRequest, now: int) returns (r: Result<MoveTodoResponse, KanbanError>)
    requires todos.Valid()
    modifies todos
    ensures todos.Valid()
    ensures req.todoId !in old(todos.todos) ==>
      r == Failure(TodoNotFoundById(req.todoId)) && todos.todos == old(todos.todos)
    ensures req.todoId in old(todos.todos) && old(todos.todos)[req.todoId].userId != req.userId ==>
      r == Failure(BadRequest(req.userId, NoTodoAccess(req.todoId))) && todos.todos == old(todos.todos)
    ensures TodoManagement.Owns(old(todos.todos), req.todoId, req.userId) ==>
      var before := old(todos.todos)[req.todoId];
      && r == Success(MoveTodoResponse(req.todoId, before.status, req.newStatus, true))
      && todos.todos == old(todos.todos)[req.todoId := TodoRepository.ApplyUpdate(before, TodoManagement.ToRepoUpdate(MoveUpdate(req), now))]
      && todos.todos[req.todoId] == before.(status := req.newStatus,
                                            order := if req.newOrder.Some? then req.newOrder.value else before.order,
                                            updatedAt := if Truthy(now) then Some(now) else before.updatedAt)
  {
    var found := todos.GetById(req.todoId);
    if found.None? {
      return Failure(TodoNotFoundById(req.todoId));
    }
    if found.value.userId != req.userId {
      return Failure(BadRequest(req.userId, NoTodoAccess(req.todoId)));
    }
    var oldStatus := found.value.status;
    var _ := TodoManagement.UpdateTodo(todos, MoveUpdate(req), now);
    r := Success(MoveTodoResponse(req.todoId, oldStatus, req.newStatus, true));
  }

  /** The query `create_column` runs for the existing columns: active columns of the same
      project (or of the caller), with the default ordering "-id" and window of 20 rows. */
  function ExistingColumnsFilter(req: CreateColumnRequest): (f: ColumnFilter)
    ensures f.isActive == Some(true) && f.orderBy == "-id" && f.page == Page(DefaultLimit, DefaultOffset)
    ensures f.projectId == req.projectId && f.userId == ScopeUser(req.projectId, req.userId)
  {
    ColumnFilter(req.projectId, ScopeUser(req.projectId, req.userId), None, Some(true), DefaultOrderBy, Page(DefaultLimit, DefaultOffset))
  }

  /** The order `create_column` stores, as written: the requested one, otherwise computed over
      the 20 newest active columns. */
  function ColumnOrderFor(req: CreateColumnRequest, cols: seq<Column>): (r: int)
    ensures req.order.Some? ==> r == req.order.value
    ensures req.order.None? ==> forall c | c in QueryColumns(cols, ExistingColumnsFilter(req)) :: c.order < r
    ensures req.order.None? && QueryColumns(cols, ExistingColumnsFilter(req)) != [] ==>
              exists c | c in QueryColumns(cols, ExistingColumnsFilter(req)) :: c.order == r - 1
    ensures req.order.None? && QueryColumns(cols, ExistingColumnsFilter(req)) == [] ==> r == 0
  {
    if req.order.Some? then req.order.value else NextKey(QueryColumns(cols, ExistingColumnsFilter(req)), OrderOf)
  }

  /** The evidently intended order: one past the largest order of every active column in the
      same scope, or 0 when there is none. */
  function ColumnOrderAfterAll(req: CreateColumnRequest, cols: seq<Column>): (r: int)
    ensures req.order.None? ==> forall c | c in cols && Matches(c, ExistingColumnsFilter(req)) :: c.order < r
    ensures req.order.None? && Select(cols, ExistingColumnsFilter(req)) == [] ==> r == 0
  {
    if req.order.Some? then req.order.value else NextKey(Select(cols, ExistingColumnsFilter(req)), OrderOf)
  }

  /** With at most 20 active columns in scope the window holds all of them, so the computed
      order is past every existing order, and 0 when there are none. */
  lemma ColumnOrderForSmallScope(req: CreateColumnRequest, cols: seq<Column>)
    requires req.order.None?
    requires |Select(cols, ExistingColumnsFilter(req))| <= DefaultLimit
    ensures ColumnOrderFor(req, cols) == ColumnOrderAfterAll(req, cols)
    ensures forall c | c in cols && Matches(c, ExistingColumnsFilter(req)) :: c.order < ColumnOrderFor(req, cols)
  {
    var f := ExistingColumnsFilter(req);
    NextKeySameElements(QueryColumns(cols, f), Select(cols, f), OrderOf);
  }

  /** As written, with more than 20 active columns in scope the oldest one is outside the
      window the order is computed over. */
  lemma ColumnOrderForIgnoresOldest(req: CreateColumnRequest, cols: seq<Column>)
    requires Ascending(cols, IdOf)
    requires |Select(cols, ExistingColumnsFilter(req))| > DefaultLimit
    ensures Select(cols, ExistingColumnsFilter(req))[0] !in QueryColumns(cols, ExistingColumnsFilter(req))
  {
    var f := ExistingColumnsFilter(req);
    var sel := Select(cols, f);
    var q := QueryColumns(cols, f);
    assert q == Window(Reverse(sel), f.page);
    forall i | 0 <= i < |q| ensures q[i] != sel[0] {
      assert q[i] == Reverse(sel)[i] == sel[|sel| - 1 - i];
    }
  }

  /** As written, with more than 20 active columns in scope the computed order is one past
      the order of some column other than the oldest. */
  lemma ColumnOrderForFromNewer(req: CreateColumnRequest, cols: seq<Column>)
    requires req.order.None? && Ascending(cols, IdOf)
    requires |Select(cols, ExistingColumnsFilter(req))| > DefaultLimit
    ensures var oldest := Select(cols, ExistingColumnsFilter(req))[0];
      exists c | c in cols && Matches(c, ExistingColumnsFilter(req)) && c != oldest :: ColumnOrderFor(req, cols) == c.order + 1
  {
    var top := WindowTop(req, cols);
  }

  /** The column of the window whose order the computed one is one past. */
  lemma WindowTop(req: CreateColumnRequest, cols: seq<Column>) returns (top: Column)
    requires req.order.None? && Ascending(cols, IdOf)
    requires |Select(cols, ExistingColumnsFilter(req))| > DefaultLimit
    ensures top in cols && Matches(top, ExistingColumnsFilter(req))
    ensures top != Select(cols, ExistingColumnsFilter(req))[0]
    ensures ColumnOrderFor(req, cols) == top.order + 1
  {
    var f := ExistingColumnsFilter(req);
    ColumnOrderForIgnoresOldest(req, cols);
    var q := QueryColumns(cols, f);
    assert f.page.offset == 0 && f.page.limit == DefaultLimit;
    assert |q| == DefaultLimit;
    top := NextKeyWitness(q, OrderOf);
  }

  /** As written, when the oldest active column of a scope with more than 20 holds the largest
      order, the new column gets an order at or below it, where the intended order is above it. */
  lemma ColumnOrderForBelowOldest(req: CreateColumnRequest, cols: seq<Column>)
    requires req.order.None? && Ascending(cols, IdOf)
    requires |Select(cols, ExistingColumnsFilter(req))| > DefaultLimit
    requires var oldest := Select(cols, ExistingColumnsFilter(req))[0];
             forall c | c in cols && Matches(c, ExistingColumnsFilter(req)) && c != oldest :: c.order < oldest.order
    ensures ColumnOrderFor(req, cols) <= Select(cols, ExistingColumnsFilter(req))[0].order < ColumnOrderAfterAll(req, cols)
  {
    var oldest := Select(cols, ExistingColumnsFilter(req))[0];
    assert oldest in Select(cols, ExistingColumnsFilter(req));
    ColumnOrderForFromNewer(req, cols);
  }

  /** The repository request `create_column` builds once the order is known. */
  function ColumnCreateFor(req: CreateColumnRequest, order: int, now: int): (c: ColumnCreateRequest)
    ensures c.name == req.name && c.order == order && !c.isDefault && c.isActive
    ensures c.projectId == req.projectId && c.userId == ScopeUser(req.projectId, req.userId)
    ensures c.createdAt == now && c.updatedAt == now
  {
    ColumnCreateRequest(req.name, Some(OrElse(req.statusValue, "")), Some(OrElse(req.color, DefaultColor)),
                        req.projectId, ScopeUser(req.projectId, req.userId), order, false, true, now, now)
  }

  /** Storing the new column once the order is known. */
  method InsertColumn(columns: ColumnStore, req: CreateColumnRequest, order: int, now: int) returns (r: CreateColumnResponse)
    requires columns.Valid() && req.name != []
    modifies columns
    ensures columns.Valid()
    ensures var c := FromCreate(old(columns.nextId), ColumnCreateFor(req, order, now));
      && columns.columns == old(columns.columns) + [c]
      && r == CreateColumnResponse(c.id, c.name, c.statusValue, c.color, c.order)
  {
    var created := columns.CreateColumn(ColumnCreateFor(req, order, now));
    var c := created.value;
    r := CreateColumnResponse(c.id, c.name, c.statusValue, c.color, c.order);
  }

  /** `create_column`, as written: an empty name is rejected; otherwise one user column is
      added, not default, active, with colour '#6B7280' unless one is given, owned by the caller
      only when no project is given, and with the order `ColumnOrderFor`. */
  method CreateColumn(columns: ColumnStore, req: CreateColumnRequest, now: int) returns (r: Result<CreateColumnResponse, KanbanError>)
    requires columns.Valid()
    modifies columns
    ensures columns.Valid()
    ensures req.name == [] ==> r == Failure(ColumnNameRequired) && columns.columns == old(columns.columns)
    ensures req.name != [] ==> |columns.columns| == |old(columns.columns)| + 1
    ensures req.name != [] ==>
      var c := columns.columns[|old(columns.columns)|];
      && columns.columns[..|old(columns.columns)|] == old(columns.columns)
      && c == FromCreate(old(columns.nextId), ColumnCreateFor(req, ColumnOrderFor(req, old(columns.columns)), now))
      && (forall d | d in old(columns.columns) :: d.id != c.id)
      && !c.isDefault && c.isActive && c.color == OrElse(req.color, DefaultColor)
      && c.userId == ScopeUser(req.projectId, req.userId)
      && r == Success(CreateColumnResponse(c.id, c.name, c.statusValue, c.color, c.order))
  {
    if req.name == [] {
      return Failure(ColumnNameRequired);
    }
    var order := req.order.GetOr(0);
    if req.order.None? {
      var existing := columns.GetColumns(ExistingColumnsFilter(req));
      order := NextKey(existing, OrderOf);
    }
    assert order == ColumnOrderFor(req, columns.columns);
    var made := InsertColumn(columns, req, order, now);
    r := Success(made);
  }

  /** `create_column` with the evidently intended order: past every active column in scope. */
  method CreateColumnAfterAll(columns: ColumnStore, req: CreateColumnRequest, now: int) returns (r: Result<CreateColumnResponse, KanbanError>)
    requires columns.Valid()
    modifies columns
    ensures columns.Valid()
    ensures req.name == [] ==> r == Failure(ColumnNameRequired) && columns.columns == old(columns.columns)
    ensures req.name != [] ==> |columns.columns| == |old(columns.columns)| + 1
    ensures req.name != [] ==>
      var c := columns.columns[|old(columns.columns)|];
      && columns.columns[..|old(columns.columns)|] == old(columns.columns)
      && c == FromCreate(old(columns.nextId), ColumnCreateFor(req, ColumnOrderAfterAll(req, old(columns.columns)), now))
      && (req.order.None? ==> forall d | d in old(columns.columns) && Matches(d, ExistingColumnsFilter(req)) :: d.order < c.order)
      && r == Success(CreateColumnResponse(c.id, c.name, c.statusValue, c.color, c.order))
  {
    if req.name == [] {
      return Failure(ColumnNameRequired);
    }
    var made := InsertColumn(columns, req, ColumnOrderAfterAll(req, columns.columns), now);
    r := Success(made);
  }

  /** The access rule shared by `delete_column` and the corrected reorder: a column owned by
      another user is refused; a column of an existing project is open only to the project's
      owner and to its members with role Owner or Admin. */
  predicate MayChange(projects: ProjectRepository.ProjectStore, c: Column, userId: int)
    requires projects.Valid()
    reads projects
  {
    && !(IsSet(c.userId) && c.userId.value != userId)
    && (IsSet(c.projectId) && c.projectId.value in projects.projects ==>
          ProjectManagement.MayAdminister(projects.projects[c.projectId.value], projects.GetMember(c.projectId.value, userId), userId))
  }

  /** The same rule written the way `delete_column` runs it, one check after another. */
  function ColumnAccessError(projects: ProjectRepository.ProjectStore, c: Column, userId: int): (r: Option<KanbanError>)
    requires projects.Valid()
    reads projects
    ensures r.None? <==> MayChange(projects, c, userId)
    ensures r.Some? ==> r == Some(BadRequest(userId, NoColumnAccess(c.id)))
  {
    if IsSet(c.userId) && c.userId.value != userId then Some(BadRequest(userId, NoColumnAccess(c.id)))
    else if IsSet(c.projectId) then
      match projects.GetById(c.projectId.value)
      case None => None
      case Some(p) =>
        if p.ownerId != userId then
          match projects.GetMember(c.projectId.value, userId)
          case None => Some(BadRequest(userId, NoColumnAccess(c.id)))
          case Some(m) =>
            if m.role != ProjectManagement.OwnerRole && m.role != ProjectManagement.AdminRole then
              Some(BadRequest(userId, NoColumnAccess(c.id)))
            else None
        else None
    else None
  }

  /** Removing the row at `i` keeps every row that differs from it. */
  lemma RemoveAtKeepsOthers(rows: seq<Column>, i: int)
    requires 0 <= i < |rows|
    ensures forall d | d in rows && d != rows[i] :: d in rows[..i] + rows[i + 1..]
  {
    forall d | d in rows && d != rows[i] ensures d in rows[..i] + rows[i + 1..] {
      var k :| 0 <= k < |rows| && rows[k] == d;
      if k < i {
        assert (rows[..i] + rows[i + 1..])[k] == d;
      } else {
        assert (rows[..i] + rows[i + 1..])[k - 1] == d;
      }
    }
  }

  /** `delete_column`: NotFound, then the access rule, then default columns are refused; only
      then does exactly that row leave the table. A default column is never deleted. */
  method DeleteColumn(projects: ProjectRepository.ProjectStore, columns: ColumnStore, columnId: int, userId: int) returns (r: Result<(), KanbanError>)
    requires projects.Valid() && columns.Valid()
    modifies columns
    ensures columns.Valid() && columns.nextId == old(columns.nextId)
    ensures FindBy(old(columns.columns), columnId, IdOf).None? ==>
      r == Failure(ColumnNotFoundById(columnId)) && columns.columns == old(columns.columns)
    ensures FindBy(old(columns.columns), columnId, IdOf).Some? ==>
      var i := FindBy(old(columns.columns), columnId, IdOf).value;
      var c := old(columns.columns)[i];
      && (!MayChange(projects, c, userId) ==>
            r == Failure(BadRequest(userId, NoColumnAccess(columnId))) && columns.columns == old(columns.columns))
      && (MayChange(projects, c, userId) && c.isDefault ==>
            r == Failure(BadRequest(userId, DefaultColumnLocked)) && columns.columns == old(columns.columns))
      && (MayChange(projects, c, userId) && !c.isDefault ==>
            r == Success(()) && columns.columns == old(columns.columns)[..i] + old(columns.columns)[i + 1..])
    ensures forall c | c in old(columns.columns) && c.isDefault :: c in columns.columns
  {
    var found := columns.GetColumnById(columnId);
    if found.None? {
      return Failure(ColumnNotFoundById(columnId));
    }
    var c := found.value;
    ghost var i := FindBy(columns.columns, columnId, IdOf).value;
    assert c == columns.columns[i] by {
      var k :| 0 <= k < |columns.columns| && columns.columns[k] == c;
      FindByAscending(columns.columns, k, IdOf);
    }
    var denied := ColumnAccessError(projects, c, userId);
    if denied.Some? {
      return Failure(denied.value);
    }
    if c.isDefault {
      return Failure(BadRequest(userId, DefaultColumnLocked));
    }
    ghost var before := columns.columns;
    var _ := columns.DeleteColumn(columnId);
    RemoveAtKeepsOthers(before, i);
    r := Success(());
  }

  /** The access rule of `reorder_columns`: refused only for a truthy project id naming an
      existing private project whose owner the caller is not and where the caller is not a
      member with role Owner or Admin. A missing or public project lets anyone through. */
  function ReorderGuard(projects: ProjectRepository.ProjectStore, req: ReorderRequest): (r: Option<KanbanError>)
    requires projects.Valid()
    reads projects
    ensures r.Some? <==>
      && IsSet(req.projectId) && req.projectId.value in projects.projects
      && projects.projects[req.projectId.value].isPrivate
      && !ProjectManagement.MayAdminister(projects.projects[req.projectId.value], projects.GetMember(req.projectId.value, req.userId), req.userId)
    ensures r.Some? ==> r == Some(BadRequest(req.userId, NoReorderAccess))
  {
    if !IsSet(req.projectId) then None
    else
      match projects.GetById(req.projectId.value)
      case None => None
      case Some(p) =>
        if p.isPrivate && p.ownerId != req.userId then
          match projects.GetMember(req.projectId.value, req.userId)
          case None => Some(BadRequest(req.userId, NoReorderAccess))
          case Some(m) =>
            if m.role != ProjectManagement.OwnerRole && m.role != ProjectManagement.AdminRole then
              Some(BadRequest(req.userId, NoReorderAccess))
            else None
        else None
  }

  /** The repository update one reorder entry sends. */
  function ReorderUpdate(order: int, now: int): (u: ColumnUpdateRequest)
    ensures u.order == Some(order) && u.updatedAt == Some(now)
    ensures u.name.None? && u.statusValue.None? && u.color.None? && u.isActive.None?
  {
    ColumnUpdateRequest(None, None, None, Some(order), None, Some(now))
  }

  /** One entry applied to the table: an entry missing a key, or naming no stored column,
      changes nothing. */
  function ApplyEntry(cols: seq<Column>, e: ColumnOrder, now: int): (r: seq<Column>)
    ensures |r| == |cols| && forall k | 0 <= k < |cols| :: r[k].id == cols[k].id
    ensures forall k | 0 <= k < |cols| && !Names(e, cols[k].id) :: r[k] == cols[k]
    // with unique ids, the named column takes the entry's order and nothing else changes
    ensures Ascending(cols, IdOf) ==> forall k | 0 <= k < |cols| && Names(e, cols[k].id) ::
      r[k] == ApplyColumnUpdate(cols[k], ReorderUpdate(e.order.value, now))
  {
    if e.columnId.None? || e.order.None? then cols
    else
      match FindBy(cols, e.columnId.value, IdOf)
      case None => cols
      case Some(i) => cols[i := ApplyColumnUpdate(cols[i], ReorderUpdate(e.order.value, now))]
  }

  /** The table after the entries have been applied in turn. */
  function ApplyReorder(cols: seq<Column>, entries: seq<ColumnOrder>, now: int): (r: seq<Column>)
    ensures |r| == |cols| && forall k | 0 <= k < |cols| :: r[k].id == cols[k].id
  {
    if entries == [] then cols
    else ApplyEntry(ApplyReorder(cols, entries[..|entries| - 1], now), entries[|entries| - 1], now)
  }

  /** The entry is complete and names the column `id`. */
  predicate Names(e: ColumnOrder, id: int) {
    e.columnId == Some(id) && e.order.Some?
  }

  /** The position of the last complete entry naming `id`, or -1 when there is none. */
  function LastNaming(entries: seq<ColumnOrder>, id: int): (r: int)
    ensures -1 <= r < |entries|
    ensures r >= 0 ==> Names(entries[r], id)
    ensures forall k | r < k < |entries| :: !Names(entries[k], id)
  {
    if entries == [] then -1
    else
      var n := |entries| - 1;
      if Names(entries[n], id) then n
      else
        var earlier := LastNaming(entries[..n], id);
        assert forall k | earlier < k < n :: entries[..n][k] == entries[k];
        earlier
  }

  /** The order the last complete entry naming `id` asks for, if any. */
  function LastOrder(entries: seq<ColumnOrder>, id: int): (r: Option<int>)
    ensures r.None? <==> forall j | 0 <= j < |entries| :: !Names(entries[j], id)
    ensures r.Some? ==> exists j | 0 <= j < |entries| ::
      entries[j] == ColumnOrder(Some(id), r) && forall k | j < k < |entries| :: !Names(entries[k], id)
  {
    var j := LastNaming(entries, id);
    if j < 0 then None
    else
      assert entries[j] == ColumnOrder(Some(id), entries[j].order);
      entries[j].order
  }

  /** The reorder stated column by column: a column named by a complete entry takes the order
      of the last such entry and a truthy `now` as updated_at; every other column is unchanged. */
  function Reordered(cols: seq<Column>, entries: seq<ColumnOrder>, now: int): (r: seq<Column>)
    ensures |r| == |cols|
  {
    seq(|cols|, k requires 0 <= k < |cols| =>
      match LastOrder(entries, cols[k].id)
      case None => cols[k]
      case Some(o) => cols[k].(order := o, updatedAt := if Truthy(now) then now else cols[k].updatedAt))
  }

  /** Applying the entries in turn is the column-by-column description: on a table with
      distinct ids the last entry for a column wins and columns nobody names are untouched. */
  lemma {:induction false} ApplyReorderIsReordered(cols: seq<Column>, entries: seq<ColumnOrder>, now: int)
    requires Ascending(cols, IdOf)
    ensures ApplyReorder(cols, entries, now) == Reordered(cols, entries, now)
    decreases |entries|
  {
    if entries != [] {
      var init := entries[..|entries| - 1];
      var e := entries[|entries| - 1];
      ApplyReorderIsReordered(cols, init, now);
      var mid := Reordered(cols, init, now);
      var a := ApplyReorder(cols, entries, now);
      var b := Reordered(cols, entries, now);
      assert a == ApplyEntry(mid, e, now);
      forall k | 0 <= k < |cols| ensures a[k] == b[k] {
        assert mid[k].id == cols[k].id;
        if e.columnId == Some(cols[k].id) && e.order.Some? {
          assert Ascending(mid, IdOf) by {
            forall x, y | 0 <= x < y < |mid| ensures IdOf(mid[x]) < IdOf(mid[y]) {
              assert mid[x].id == cols[x].id && mid[y].id == cols[y].id;
            }
          }
          FindByAscending(mid, k, IdOf);
        } else if e.columnId.Some? && e.order.Some? && FindBy(mid, e.columnId.value, IdOf).Some? {
          var i := FindBy(mid, e.columnId.value, IdOf).value;
          assert i != k;
        }
      }
    }
  }

  /** The fold over the first i + 1 entries is one more entry applied to the fold over the first i. */
  lemma ApplyReorderStep(cols: seq<Column>, entries: seq<ColumnOrder>, i: nat, now: int)
    requires i < |entries|
    ensures ApplyReorder(cols, entries[..i + 1], now) == ApplyEntry(ApplyReorder(cols, entries[..i], now), entries[i], now)
  {
    assert entries[..i + 1][..i] == entries[..i];
  }

  /** One pass of the loop of `reorder_columns`: a complete entry naming a stored column sets
      its order and updated_at. */
  method ReorderEntry(columns: ColumnStore, e: ColumnOrder, now: int)
    requires columns.Valid()
    modifies columns
    ensures columns.Valid() && columns.nextId == old(columns.nextId)
    ensures columns.columns == ApplyEntry(old(columns.columns), e, now)
  {
    if e.columnId.Some? && e.order.Some? {
      var found := columns.GetColumnById(e.columnId.value);
      if found.Some? {
        var _ := columns.UpdateColumn(e.columnId.value, ReorderUpdate(e.order.value, now));
      }
    }
  }

  /** `reorder_columns`, as written: the access rule, then each entry in turn; entries missing
      a key or naming no stored column are skipped, and any other column gets the new order,
      whoever owns it. Success is reported whenever the access rule passes. */
  method ReorderColumns(projects: ProjectRepository.ProjectStore, columns: ColumnStore, req: ReorderRequest, now: int) returns (r: Result<(), KanbanError>)
    requires projects.Valid() && columns.Valid()
    modifies columns
    ensures columns.Valid() && columns.nextId == old(columns.nextId)
    ensures ReorderGuard(projects, req).Some? ==>
      r == Failure(ReorderGuard(projects, req).value) && columns.columns == old(columns.columns)
    ensures ReorderGuard(projects, req).None? ==>
      && r == Success(())
      && columns.columns == ApplyReorder(old(columns.columns), req.columnOrders, now)
      && columns.columns == Reordered(old(columns.columns), req.columnOrders, now)
  {
    var guard := ReorderGuard(projects, req);
    if guard.Some? {
      return Failure(guard.value);
    }
    ghost var start := columns.columns;
    for i := 0 to |req.columnOrders|
      invariant columns.Valid() && columns.nextId == old(columns.nextId)
      invariant columns.columns == ApplyReorder(start, req.columnOrders[..i], now)
    {
      ApplyReorderStep(start, req.columnOrders, i, now);
      ReorderEntry(columns, req.columnOrders[i], now);
    }
    assert req.columnOrders[..|req.columnOrders|] == req.columnOrders;
    assert columns.columns == ApplyReorder(start, req.columnOrders, now);
    assert columns.columns == Reordered(start, req.columnOrders, now) by {
      ApplyReorderIsReordered(start, req.columnOrders, now);
    }
    r := Success(());
  }

  /** As written, a column owned by another user is reordered: user 1 moves user 2's column. */
  lemma ReorderChangesForeignColumn(projects: ProjectRepository.ProjectStore, now: int)
    requires projects.Valid()
    ensures var c := Column(1, "Review", "Review", DefaultColor, None, Some(2), 0, false, true, 0, 0);
            var req := ReorderRequest([ColumnOrder(Some(1), Some(7))], None, 1);
            && ReorderGuard(projects, req).None?
            && !MayChange(projects, c, 1)
            && ApplyReorder([c], req.columnOrders, now)[0].order == 7
  {
    var c := Column(1, "Review", "Review", DefaultColor, None, Some(2), 0, false, true, 0, 0);
    var es := [ColumnOrder(Some(1), Some(7))];
    assert es[..0] == [];
    assert FindBy([c], 1, IdOf) == Some(0);
  }

  /** One entry with the access rule applied: a column the caller may not change is skipped. */
  function ApplyEntryChecked(projects: ProjectRepository.ProjectStore, userId: int, cols: seq<Column>, e: ColumnOrder, now: int): (r: seq<Column>)
    requires projects.Valid()
    reads projects
    ensures |r| == |cols| && forall k | 0 <= k < |cols| :: r[k].id == cols[k].id && r[k].userId == cols[k].userId && r[k].projectId == cols[k].projectId
    ensures forall k | 0 <= k < |cols| && !(Names(e, cols[k].id) && MayChange(projects, cols[k], userId)) :: r[k] == cols[k]
    // with unique ids, a named column the caller may change takes the entry's order
    ensures Ascending(cols, IdOf) ==> forall k | 0 <= k < |cols| && Names(e, cols[k].id) && MayChange(projects, cols[k], userId) ::
      r[k] == ApplyColumnUpdate(cols[k], ReorderUpdate(e.order.value, now))
  {
    if e.columnId.None? || e.order.None? then cols
    else
      match FindBy(cols, e.columnId.value, IdOf)
      case None => cols
      case Some(i) =>
        if MayChange(projects, cols[i], userId) then cols[i := ApplyColumnUpdate(cols[i], ReorderUpdate(e.order.value, now))]
        else cols
  }

  function ApplyReorderChecked(projects: ProjectRepository.ProjectStore, userId: int, cols: seq<Column>, entries: seq<ColumnOrder>, now: int): (r: seq<Column>)
    requires projects.Valid()
    reads projects
    ensures |r| == |cols| && forall k | 0 <= k < |cols| :: r[k].id == cols[k].id && r[k].userId == cols[k].userId && r[k].projectId == cols[k].projectId
  {
    if entries == [] then cols
    else ApplyEntryChecked(projects, userId, ApplyReorderChecked(projects, userId, cols, entries[..|entries| - 1], now), entries[|entries| - 1], now)
  }

  /** The corrected reorder leaves every column the caller may not change exactly as it was. */
  lemma {:induction false} CheckedReorderSparesForeign(projects: ProjectRepository.ProjectStore, userId: int, cols: seq<Column>, entries: seq<ColumnOrder>, now: int)
    requires projects.Valid()
    ensures forall k | 0 <= k < |cols| && !MayChange(projects, cols[k], userId) ::
      ApplyReorderChecked(projects, userId, cols, entries, now)[k] == cols[k]
    decreases |entries|
  {
    if entries != [] {
      var init := entries[..|entries| - 1];
      CheckedReorderSparesForeign(projects, userId, cols, init, now);
      var mid := ApplyReorderChecked(projects, userId, cols, init, now);
      forall k | 0 <= k < |cols| && !MayChange(projects, cols[k], userId)
        ensures ApplyReorderChecked(projects, userId, cols, entries, now)[k] == cols[k]
      {
        assert mid[k] == cols[k];
        assert !MayChange(projects, mid[k], userId);
      }
    }
  }

  lemma ApplyReorderCheckedStep(projects: ProjectRepository.ProjectStore, userId: int, cols: seq<Column>, entries: seq<ColumnOrder>, i: nat, now: int)
    requires projects.Valid() && i < |entries|
    ensures ApplyReorderChecked(projects, userId, cols, entries[..i + 1], now)
         == ApplyEntryChecked(projects, userId, ApplyReorderChecked(projects, userId, cols, entries[..i], now), entries[i], now)
  {
    assert entries[..i + 1][..i] == entries[..i];
  }

  /** One pass of the corrected loop: the entry is applied only to a column the caller may change. */
  method ReorderEntryChecked(projects: ProjectRepository.ProjectStore, columns: ColumnStore, userId: int, e: ColumnOrder, now: int)
    requires projects.Valid() && columns.Valid()
    modifies columns
    ensures columns.Valid() && columns.nextId == old(columns.nextId)
    ensures columns.columns == ApplyEntryChecked(projects, userId, old(columns.columns), e, now)
  {
    if e.columnId.Some? && e.order.Some? {
      var found := columns.GetColumnById(e.columnId.value);
      if found.Some? {
        ghost var j := FindBy(columns.columns, e.columnId.value, IdOf).value;
        assert found.value == columns.columns[j] by {
          var k :| 0 <= k < |columns.columns| && columns.columns[k] == found.value;
          FindByAscending(columns.columns, k, IdOf);
        }
        if ColumnAccessError(projects, found.value, userId).None? {
          var _ := columns.UpdateColumn(e.columnId.value, ReorderUpdate(e.order.value, now));
        }
      }
    }
  }

  /** `reorder_columns` with the per-column check its comment announces: the access rule of
      `delete_column` decides, column by column, whether an entry is applied. */
  method ReorderColumnsChecked(projects: ProjectRepository.ProjectStore, columns: ColumnStore, req: ReorderRequest, now: int) returns (r: Result<(), KanbanError>)
    requires projects.Valid() && columns.Valid()
    modifies columns
    ensures columns.Valid() && columns.nextId == old(columns.nextId)
    ensures ReorderGuard(projects, req).Some? ==>
      r == Failure(ReorderGuard(projects, req).value) && columns.columns == old(columns.columns)
    ensures ReorderGuard(projects, req).None? ==>
      && r == Success(())
      && columns.columns == ApplyReorderChecked(projects, req.userId, old(columns.columns), req.columnOrders, now)
    ensures forall k | 0 <= k < |old(columns.columns)| && !MayChange(projects, old(columns.columns)[k], req.userId) ::
      columns.columns[k] == old(columns.columns)[k]
  {
    var guard := ReorderGuard(projects, req);
    if guard.Some? {
      return Failure(guard.value);
    }
    ghost var start := columns.columns;
    for i := 0 to |req.columnOrders|
      invariant columns.Valid() && columns.nextId == old(columns.nextId)
      invariant columns.columns == ApplyReorderChecked(projects, req.userId, start, req.columnOrders[..i], now)
    {
      ApplyReorderCheckedStep(projects, req.userId, start, req.columnOrders, i, now);
      ReorderEntryChecked(projects, columns, req.userId, req.columnOrders[i], now);
    }
    assert req.columnOrders[..|req.columnOrders|] == req.columnOrders;
    assert columns.columns == ApplyReorderChecked(projects, req.userId, start, req.columnOrders, now);
    CheckedReorderSparesForeign(projects, req.userId, start, req.columnOrders, now);
    r := Success(());
  }
}
