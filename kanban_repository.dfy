/** The kanban column table and its repository (backend/repository/kanban/service.py).
    The table is a sequence of rows in insertion order; ids come from an auto-increment
    counter, so this is ascending id order. */
module KanbanRepository {
  import opened Wrappers
  import opened BaseModels

  /** The colour a column gets when none (or an empty one) is given. */
  const DefaultColor: string := "#6B7280"

  datatype Column = Column(
    id: int,
    name: string,
    statusValue: string,
    color: string,
    projectId: Option<int>,
    userId: Option<int>,
    order: int,
    isDefault: bool,
    isActive: bool,
    createdAt: int,
    updatedAt: int)

  datatype ColumnCreateRequest = ColumnCreateRequest(
    name: string,
    statusValue: Option<string>,
    color: Option<string>,
    projectId: Option<int>,
    userId: Option<int>,
    order: int,
    isDefault: bool,
    isActive: bool,
    createdAt: int,
    updatedAt: int)

  /** `KanbanColumnUpdateRequest`: None means "leave unchanged". */
  datatype ColumnUpdateRequest = ColumnUpdateRequest(
    name: Option<string>,
    statusValue: Option<string>,
    color: Option<string>,
    order: Option<int>,
    isActive: Option<bool>,
    updatedAt: Option<int>)

  /** `KanbanColumnFilter` after construction: the window has already been through `ValidatePage`. */
  datatype ColumnFilter = ColumnFilter(
    projectId: Option<int>,
    userId: Option<int>,
    isDefault: Option<bool>,
    isActive: Option<bool>,
    orderBy: string,
    page: Page)

  datatype ColumnRepoError = NameRequired | ColumnNotFound(columnId: int)

  /** Python's `s or default` on an optional string: None and "" both give the default. */
  function OrElse(s: Option<string>, default: string): (r: string)
    ensures s.Some? && s.value != "" ==> r == s.value
    ensures s.None? || s.value == "" ==> r == default
  {
    if s.Some? && s.value != "" then s.value else default
  }

  /** The row `create_column` stores under `id`: an empty status value becomes "" and an empty
      colour the default colour. */
  function FromCreate(id: int, req: ColumnCreateRequest): (r: Column)
    ensures r.id == id && r.name == req.name && r.projectId == req.projectId && r.userId == req.userId
    ensures r.statusValue == OrElse(req.statusValue, "") && r.color == OrElse(req.color, DefaultColor)
    ensures r.order == req.order && r.isDefault == req.isDefault && r.isActive == req.isActive
    ensures r.createdAt == req.createdAt && r.updatedAt == req.updatedAt
  {
    Column(id, req.name, OrElse(req.statusValue, ""), OrElse(req.color, DefaultColor), req.projectId, req.userId,
           req.order, req.isDefault, req.isActive, req.createdAt, req.updatedAt)
  }

  /** The row `update_column` saves: None fields are left alone, updated_at is written only
      when truthy, and id, owner, project, default flag and created_at are never written. */
  function ApplyColumnUpdate(c: Column, u: ColumnUpdateRequest): (r: Column)
    ensures r.id == c.id && r.projectId == c.projectId && r.userId == c.userId
    ensures r.isDefault == c.isDefault && r.createdAt == c.createdAt
    ensures u.name.None? ==> r.name == c.name
    ensures u.name.Some? ==> r.name == u.name.value
    ensures u.statusValue.None? ==> r.statusValue == c.statusValue
    ensures u.statusValue.Some? ==> r.statusValue == u.statusValue.value
    ensures u.color.None? ==> r.color == c.color
    ensures u.color.Some? ==> r.color == u.color.value
    ensures u.order.None? ==> r.order == c.order
    ensures u.order.Some? ==> r.order == u.order.value
    ensures u.isActive.None? ==> r.isActive == c.isActive
    ensures u.isActive.Some? ==> r.isActive == u.isActive.value
    ensures IsSet(u.updatedAt) ==> r.updatedAt == u.updatedAt.value
    ensures !IsSet(u.updatedAt) ==> r.updatedAt == c.updatedAt
  {
    Column(c.id, Pick(u.name, c.name), Pick(u.statusValue, c.statusValue), Pick(u.color, c.color), c.projectId,
           c.userId, Pick(u.order, c.order), c.isDefault, Pick(u.isActive, c.isActive), c.createdAt,
           if IsSet(u.updatedAt) then u.updatedAt.value else c.updatedAt)
  }

  function IdOf(c: Column): int {
    c.id
  }

  function OrderOf(c: Column): int {
    c.order
  }

  /** The row filters of `get_columns`: each criterion applies whenever it is not None. */
  predicate Matches(c: Column, f: ColumnFilter) {
    && (f.projectId.Some? ==> c.projectId == f.projectId)
    && (f.userId.Some? ==> c.userId == f.userId)
    && (f.isDefault.Some? ==> c.isDefault == f.isDefault.value)
    && (f.isActive.Some? ==> c.isActive == f.isActive.value)
  }

  function Keep(f: ColumnFilter): Column -> bool {
    c => Matches(c, f)
  }

  /** The rows that pass the filters, in table order. */
  function Select(cols: seq<Column>, f: ColumnFilter): (r: seq<Column>)
    ensures forall c | c in r :: c in cols && Matches(c, f)
    ensures forall c | c in cols && Matches(c, f) :: c in r
    ensures Ascending(cols, IdOf) ==> Ascending(r, IdOf)
  {
    WhereAscending(cols, Keep(f), IdOf);
    Where(cols, Keep(f))
  }

  /** The whole query of `get_columns` over the table `cols`: filters, ordering, window. */
  function QueryColumns(cols: seq<Column>, f: ColumnFilter): (r: seq<Column>)
    requires f.page.limit >= 1 && f.page.offset >= 0
    ensures |r| <= f.page.limit
    ensures f.page.offset == 0 ==> |r| == if |Select(cols, f)| < f.page.limit then |Select(cols, f)| else f.page.limit
    ensures forall c | c in r :: c in cols && Matches(c, f)
    ensures f.page.offset == 0 && |Select(cols, f)| <= f.page.limit ==> forall c | c in cols && Matches(c, f) :: c in r
    ensures f.orderBy == "order" ==> SortedBy(r, OrderOf)
    ensures f.orderBy == "-id" && Ascending(cols, IdOf) ==> Descending(r, IdOf)
  {
    Query(cols, Keep(f), f.orderBy, f.page, IdOf, OrderOf)
  }

  class ColumnStore {
    var columns: seq<Column>
    var nextId: int

    /** Rows are in ascending id order and the auto-increment counter is above every id. */
    ghost predicate Valid()
      reads this
    {
      && nextId >= 1
      && Ascending(columns, IdOf)
      && forall c | c in columns :: 1 <= c.id < nextId
    }

    constructor ()
      ensures Valid() && columns == [] && nextId == 1
    {
      columns := [];
      nextId := 1;
    }

    /** `create_column`: an empty name raises NameRequired and stores nothing; otherwise a row
        with a fresh id is appended. */
    method CreateColumn(req: ColumnCreateRequest) returns (r: Result<Column, ColumnRepoError>)
      requires Valid()
      modifies this
      ensures Valid()
      ensures req.name == [] ==> r == Failure(NameRequired) && columns == old(columns) && nextId == old(nextId)
      ensures req.name != [] ==>
        && r == Success(FromCreate(old(nextId), req))
        && (forall c | c in old(columns) :: c.id != r.value.id)
        && columns == old(columns) + [r.value]
        && nextId == old(nextId) + 1
    {
      if req.name == [] {
        return Failure(NameRequired);
      }
      var c := FromCreate(nextId, req);
      columns := columns + [c];
      nextId := nextId + 1;
      r := Success(c);
    }

    /** `get_column_by_id`: None for an unknown id, otherwise the row with that id. */
    function GetColumnById(id: int): (r: Option<Column>)
      requires Valid()
      reads this
      ensures r.None? <==> forall c | c in columns :: c.id != id
      ensures r.Some? ==> r.value in columns && r.value.id == id
    {
      match FindBy(columns, id, IdOf)
      case None => None
      case Some(i) => Some(columns[i])
    }

    /** `get_columns`: at most `limit` rows, each passing the filters; all of them when the
        window starts at 0 and they fit; sorted when ordered by "order", newest first by "-id". */
    function GetColumns(f: ColumnFilter): (r: seq<Column>)
      requires Valid() && f.page.limit >= 1 && f.page.offset >= 0
      reads this
      ensures |r| <= f.page.limit
      ensures f.page.offset == 0 ==> |r| == if |Select(columns, f)| < f.page.limit then |Select(columns, f)| else f.page.limit
      ensures forall c | c in r :: c in columns && Matches(c, f)
      ensures f.page.offset == 0 && |Select(columns, f)| <= f.page.limit ==> forall c | c in columns && Matches(c, f) :: c in r
      ensures f.orderBy == "order" ==> SortedBy(r, OrderOf)
      ensures f.orderBy == "-id" ==> Descending(r, IdOf)
    {
      QueryColumns(columns, f)
    }

    /** `update_column`: an unknown id raises ColumnNotFound; otherwise only that row changes. */
    method UpdateColumn(id: int, u: ColumnUpdateRequest) returns (r: Result<Column, ColumnRepoError>)
      requires Valid()
      modifies this
      ensures Valid() && nextId == old(nextId)
      ensures FindBy(old(columns), id, IdOf).None? ==> r == Failure(ColumnNotFound(id)) && columns == old(columns)
      ensures FindBy(old(columns), id, IdOf).Some? ==>
        var i := FindBy(old(columns), id, IdOf).value;
        && r == Success(ApplyColumnUpdate(old(columns)[i], u))
        && columns == old(columns)[i := r.value]
    {
      var found := FindBy(columns, id, IdOf);
      if found.None? {
        return Failure(ColumnNotFound(id));
      }
      var i := found.value;
      var c := ApplyColumnUpdate(columns[i], u);
      ReplaceAt(columns, i, c, IdOf);
      columns := columns[i := c];
      r := Success(c);
    }

    /** `delete_column`: an unknown id raises ColumnNotFound; otherwise exactly that row goes. */
    method DeleteColumn(id: int) returns (r: Result<(), ColumnRepoError>)
      requires Valid()
      modifies this
      ensures Valid() && nextId == old(nextId)
      ensures FindBy(old(columns), id, IdOf).None? ==> r == Failure(ColumnNotFound(id)) && columns == old(columns)
      ensures FindBy(old(columns), id, IdOf).Some? ==>
        var i := FindBy(old(columns), id, IdOf).value;
        r == Success(()) && columns == old(columns)[..i] + old(columns)[i + 1..]
    {
      var found := FindBy(columns, id, IdOf);
      if found.None? {
        return Failure(ColumnNotFound(id));
      }
      var i := found.value;
      RemoveAt(columns, i, IdOf);
      columns := columns[..i] + columns[i + 1..];
      r := Success(());
    }
  }
}
