/** The subtask table and its repository (backend/repository/subtask/service.py).
    The table is a sequence of rows in insertion order; ids come from an auto-increment
    counter, so this is ascending id order. */
module SubtaskRepository {
  import opened Wrappers
  import opened BaseModels

  const Done: string := "Done"
  const ToDo: string := "ToDo"

  /** A stored subtask row, as `SubtaskDTO.from_model` exposes it. */
  datatype Subtask = Subtask(
    id: int,
    title: string,
    status: string,
    todoId: int,
    order: int,
    createdAt: int,
    updatedAt: int,
    completedAt: Option<int>)

  datatype SubtaskCreateRequest = SubtaskCreateRequest(
    title: string,
    status: string,
    todoId: int,
    order: int,
    createdAt: int,
    updatedAt: int,
    completedAt: Option<int>)

  /** `SubtaskUpdateRequest`: None means "leave unchanged". */
  datatype SubtaskUpdateRequest = SubtaskUpdateRequest(
    title: Option<string>,
    status: Option<string>,
    order: Option<int>,
    updatedAt: Option<int>,
    completedAt: Option<int>)

  /** `SubtaskFilter` after construction: the window has already been through `ValidatePage`. */
  datatype SubtaskFilter = SubtaskFilter(
    todoId: Option<int>,
    status: Option<string>,
    orderBy: string,
    page: Page)

  datatype SubtaskRepoError = TitleRequired | NotFound(subtaskId: int)

  function FromCreate(id: int, req: SubtaskCreateRequest): (r: Subtask)
    ensures r.id == id && r.title == req.title && r.status == req.status && r.todoId == req.todoId
    ensures r.order == req.order && r.completedAt == req.completedAt
    ensures r.createdAt == req.createdAt && r.updatedAt == req.updatedAt
  {
    Subtask(id, req.title, req.status, req.todoId, req.order, req.createdAt, req.updatedAt, req.completedAt)
  }

  /** The completion time after the status step of `update`: moving to Done with no stored
      time takes a truthy request time, moving to any other status clears a stored time. */
  function CompletedAfterStatus(status: string, stored: Option<int>, given: Option<int>): Option<int> {
    if status == Done && stored.None? then (if IsSet(given) then given else stored)
    else if status != Done && stored.Some? then None
    else stored
  }

  /** The row `update` saves. The steps run in order: title, status (with its completion-time
      rule), order, an explicit completion time, then a truthy updated_at. */
  function ApplySubtaskUpdate(s: Subtask, u: SubtaskUpdateRequest): (r: Subtask)
    ensures r.id == s.id && r.todoId == s.todoId && r.createdAt == s.createdAt
    ensures u.title.None? ==> r.title == s.title
    ensures u.title.Some? ==> r.title == u.title.value
    ensures u.status.None? ==> r.status == s.status
    ensures u.status.Some? ==> r.status == u.status.value
    ensures u.order.None? ==> r.order == s.order
    ensures u.order.Some? ==> r.order == u.order.value
    ensures IsSet(u.updatedAt) ==> r.updatedAt == u.updatedAt.value
    ensures !IsSet(u.updatedAt) ==> r.updatedAt == s.updatedAt
    // An explicit completion time always wins, whatever the status step did.
    ensures u.completedAt.Some? ==> r.completedAt == u.completedAt
    // Without one, a status other than Done clears the time and anything else keeps it.
    ensures u.completedAt.None? && u.status.Some? && u.status.value != Done ==> r.completedAt.None?
    ensures u.completedAt.None? && (u.status.None? || u.status.value == Done) ==> r.completedAt == s.completedAt
  {
    var afterTitle := if u.title.Some? then s.(title := u.title.value) else s;
    var afterStatus :=
      if u.status.Some? then
        afterTitle.(status := u.status.value,
                    completedAt := CompletedAfterStatus(u.status.value, afterTitle.completedAt, u.completedAt))
      else afterTitle;
    var afterOrder := if u.order.Some? then afterStatus.(order := u.order.value) else afterStatus;
    var afterCompleted := if u.completedAt.Some? then afterOrder.(completedAt := u.completedAt) else afterOrder;
    if IsSet(u.updatedAt) then afterCompleted.(updatedAt := u.updatedAt.value) else afterCompleted
  }

  /** Saving the same update twice stores the same row as saving it once. */
  lemma ApplySubtaskUpdateIdempotent(s: Subtask, u: SubtaskUpdateRequest)
    ensures ApplySubtaskUpdate(ApplySubtaskUpdate(s, u), u) == ApplySubtaskUpdate(s, u)
  {
  }

  function IdOf(s: Subtask): int {
    s.id
  }

  function OrderOf(s: Subtask): int {
    s.order
  }

  predicate Increasing(rows: seq<Subtask>) {
    Ascending(rows, IdOf)
  }

  predicate Decreasing(rows: seq<Subtask>) {
    Descending(rows, IdOf)
  }

  predicate SortedByOrder(rows: seq<Subtask>) {
    SortedBy(rows, OrderOf)
  }

  /** The row filters of `get_subtasks`: each criterion applies only when it is truthy. */
  predicate Matches(s: Subtask, f: SubtaskFilter) {
    && (IsSet(f.todoId) ==> s.todoId == f.todoId.value)
    && (f.status.Some? && f.status.value != "" ==> s.status == f.status.value)
  }

  function Keep(f: SubtaskFilter): Subtask -> bool {
    s => Matches(s, f)
  }

  /** The rows that pass the filters, in table order. */
  function Select(rows: seq<Subtask>, f: SubtaskFilter): (r: seq<Subtask>)
    ensures forall s | s in r :: s in rows && Matches(s, f)
    ensures forall s | s in rows && Matches(s, f) :: s in r
    ensures Increasing(rows) ==> Increasing(r)
  {
    WhereAscending(rows, Keep(f), IdOf);
    Where(rows, Keep(f))
  }

  /** The whole query of `get_subtasks` over the table `rows`: filters, ordering, window. */
  function QueryRows(rows: seq<Subtask>, f: SubtaskFilter): (r: seq<Subtask>)
    requires f.page.limit >= 1 && f.page.offset >= 0
    ensures |r| <= f.page.limit
    ensures f.page.offset == 0 ==> |r| == if |Select(rows, f)| < f.page.limit then |Select(rows, f)| else f.page.limit
    ensures forall s | s in r :: s in rows && Matches(s, f)
    ensures f.page.offset == 0 && |Select(rows, f)| <= f.page.limit ==> forall s | s in rows && Matches(s, f) :: s in r
    ensures f.orderBy == "order" ==> SortedByOrder(r)
    ensures f.orderBy == "-id" && Increasing(rows) ==> Decreasing(r)
  {
    Query(rows, Keep(f), f.orderBy, f.page, IdOf, OrderOf)
  }

  /** The filter `SubtaskFilter(todo_id=...)` with every other field at its default: ordering
      "-id" and the default window of 20 rows. */
  function OfTodo(todoId: int): (f: SubtaskFilter)
    ensures f.todoId == Some(todoId) && f.status.None?
    ensures f.page == Page(DefaultLimit, DefaultOffset) && f.orderBy == "-id"
  {
    SubtaskFilter(Some(todoId), None, DefaultOrderBy, Page(DefaultLimit, DefaultOffset))
  }

  /** Every row of the todo, whatever the window. */
  function RowsOfTodo(rows: seq<Subtask>, todoId: int): (r: seq<Subtask>)
    ensures todoId != 0 ==> forall s :: s in r <==> s in rows && s.todoId == todoId
  {
    Select(rows, OfTodo(todoId))
  }

  /** With more than 20 subtasks in the todo, the query with only the todo id given returns
      20 of them and leaves out the oldest. */
  lemma OldestOutsideWindow(rows: seq<Subtask>, todoId: int)
    requires todoId != 0 && Increasing(rows)
    requires |RowsOfTodo(rows, todoId)| > DefaultLimit
    ensures |QueryRows(rows, OfTodo(todoId))| == DefaultLimit
    ensures RowsOfTodo(rows, todoId)[0] !in QueryRows(rows, OfTodo(todoId))
  {
    var f := OfTodo(todoId);
    var sel := Select(rows, f);
    var q := QueryRows(rows, f);
    assert q == Window(Reverse(sel), f.page);
    forall i | 0 <= i < |q| ensures q[i] != sel[0] {
      assert q[i] == Reverse(sel)[i] == sel[|sel| - 1 - i];
    }
  }

  function StatusesOf(rows: seq<Subtask>): (r: seq<string>)
    ensures |r| == |rows| && forall i | 0 <= i < |rows| :: r[i] == rows[i].status
  {
    seq(|rows|, i requires 0 <= i < |rows| => rows[i].status)
  }

  class SubtaskStore {
    var rows: seq<Subtask>
    var nextId: int

    /** Rows are in ascending id order and the auto-increment counter is above every id. */
    ghost predicate Valid()
      reads this
    {
      && nextId >= 1
      && Increasing(rows)
      && forall s | s in rows :: 1 <= s.id < nextId
    }

    constructor ()
      ensures Valid() && rows == [] && nextId == 1
    {
      rows := [];
      nextId := 1;
    }

    /** `create`: an empty title raises TitleRequired and stores nothing; otherwise a row with
        a fresh id is appended. */
    method Create(req: SubtaskCreateRequest) returns (r: Result<Subtask, SubtaskRepoError>)
      requires Valid()
      modifies this
      ensures Valid()
      ensures req.title == [] ==> r == Failure(TitleRequired) && rows == old(rows) && nextId == old(nextId)
      ensures req.title != [] ==>
        && r == Success(FromCreate(old(nextId), req))
        && (forall s | s in old(rows) :: s.id != r.value.id)
        && rows == old(rows) + [r.value]
        && nextId == old(nextId) + 1
    {
      if req.title == [] {
        return Failure(TitleRequired);
      }
      var s := FromCreate(nextId, req);
      rows := rows + [s];
      nextId := nextId + 1;
      r := Success(s);
    }

    /** `get_by_id`: None for an unknown id, otherwise the row with that id. */
    function GetById(id: int): (r: Option<Subtask>)
      requires Valid()
      reads this
      ensures r.None? <==> forall s | s in rows :: s.id != id
      ensures r.Some? ==> r.value in rows && r.value.id == id
    {
      match FindBy(rows, id, IdOf)
      case None => None
      case Some(i) => Some(rows[i])
    }

    /** `get_subtasks`: at most `limit` rows, each passing the filters; all of them when the
        window starts at 0 and they fit; sorted when ordered by "order", newest first by "-id". */
    function GetSubtasks(f: SubtaskFilter): (r: seq<Subtask>)
      requires Valid() && f.page.limit >= 1 && f.page.offset >= 0
      reads this
      ensures |r| <= f.page.limit
      ensures f.page.offset == 0 ==> |r| == if |Select(rows, f)| < f.page.limit then |Select(rows, f)| else f.page.limit
      ensures forall s | s in r :: s in rows && Matches(s, f)
      ensures f.page.offset == 0 && |Select(rows, f)| <= f.page.limit ==> forall s | s in rows && Matches(s, f) :: s in r
      ensures f.orderBy == "order" ==> SortedByOrder(r)
      ensures f.orderBy == "-id" ==> Decreasing(r)
    {
      QueryRows(rows, f)
    }

    /** `update`: an unknown id raises NotFound; otherwise the fields of the fetched row are
        written one step after another, as `ApplySubtaskUpdate` describes, and the row saved. */
    method Update(id: int, u: SubtaskUpdateRequest) returns (r: Result<Subtask, SubtaskRepoError>)
      requires Valid()
      modifies this
      ensures Valid() && nextId == old(nextId)
      ensures FindBy(old(rows), id, IdOf).None? ==> r == Failure(NotFound(id)) && rows == old(rows)
      ensures FindBy(old(rows), id, IdOf).Some? ==>
        var i := FindBy(old(rows), id, IdOf).value;
        && r == Success(ApplySubtaskUpdate(old(rows)[i], u))
        && rows == old(rows)[i := r.value]
    {
      var found := FindBy(rows, id, IdOf);
      if found.None? {
        return Failure(NotFound(id));
      }
      var i := found.value;
      var s := ApplySubtaskUpdate(rows[i], u);
      ReplaceAt(rows, i, s, IdOf);
      rows := rows[i := s];
      r := Success(s);
    }

    /** `delete`: an unknown id raises NotFound; otherwise exactly that row leaves the table. */
    method Delete(id: int) returns (r: Result<(), SubtaskRepoError>)
      requires Valid()
      modifies this
      ensures Valid() && nextId == old(nextId)
      ensures FindBy(old(rows), id, IdOf).None? ==> r == Failure(NotFound(id)) && rows == old(rows)
      ensures FindBy(old(rows), id, IdOf).Some? ==>
        var i := FindBy(old(rows), id, IdOf).value;
        r == Success(()) && rows == old(rows)[..i] + old(rows)[i + 1..]
    {
      var found := FindBy(rows, id, IdOf);
      if found.None? {
        return Failure(NotFound(id));
      }
      var i := found.value;
      RemoveAt(rows, i, IdOf);
      rows := rows[..i] + rows[i + 1..];
      r := Success(());
    }
  }
}
