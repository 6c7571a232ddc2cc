/** The todo table and its repository (backend/repository/todo/service.py).
    The table is a map from id to record; ids are handed out by an auto-increment counter. */
module TodoRepository {
  import opened Wrappers

  /** A stored todo row, as `TodoDTO.from_model` exposes it. */
  datatype Todo = Todo(
    id: int,
    title: string,
    description: string,
    deadline: Option<int>,
    priority: string,
    status: string,
    category: string,
    labels: seq<string>,
    userId: int,
    projectId: Option<int>,
    previousId: Option<int>,
    nextId: Option<int>,
    order: int,
    autoRepeat: string,
    createdAt: Option<int>,
    updatedAt: Option<int>,
    completedAt: Option<int>)

  /** `TodoCreateRequest`: optional description, category and labels. */
  datatype CreateRequest = CreateRequest(
    title: string,
    description: Option<string>,
    deadline: Option<int>,
    priority: string,
    status: string,
    category: Option<string>,
    labels: Option<seq<string>>,
    userId: int,
    projectId: Option<int>,
    previousId: Option<int>,
    nextId: Option<int>,
    order: int,
    autoRepeat: string,
    createdAt: Option<int>,
    updatedAt: Option<int>,
    completedAt: Option<int>)

  /** `TodoUpdateRequest`: every field is optional, and `None` means "leave unchanged". */
  datatype UpdateRequest = UpdateRequest(
    title: Option<string>,
    description: Option<string>,
    deadline: Option<int>,
    priority: Option<string>,
    status: Option<string>,
    category: Option<string>,
    labels: Option<seq<string>>,
    projectId: Option<int>,
    previousId: Option<int>,
    nextId: Option<int>,
    order: Option<int>,
    createdAt: Option<int>,
    updatedAt: Option<int>,
    completedAt: Option<int>,
    autoRepeat: Option<string>)

  /** An update request with every field left at its default `None`. */
  const NoChange: UpdateRequest :=
    UpdateRequest(None, None, None, None, None, None, None, None, None, None, None, None, None, None, None)

  datatype RepoError = TitleRequired | NotFound(todoId: int)

  /** The two dependency link fields of a todo. */
  datatype LinkKind = PreviousLink | NextLink

  function LinkOf(t: Todo, kind: LinkKind): Option<int> {
    match kind
    case PreviousLink => t.previousId
    case NextLink => t.nextId
  }

  /** The row `create` stores under `id`: None description and category become "", None labels []. */
  function FromCreate(id: int, req: CreateRequest): (r: Todo)
    ensures r.id == id && r.userId == req.userId && r.title == req.title
    ensures req.description.None? ==> r.description == ""
    ensures req.description.Some? ==> r.description == req.description.value
    ensures req.category.None? ==> r.category == ""
    ensures req.category.Some? ==> r.category == req.category.value
    ensures req.labels.None? ==> r.labels == []
    ensures req.labels.Some? ==> r.labels == req.labels.value
    ensures r.deadline == req.deadline && r.priority == req.priority && r.status == req.status
    ensures r.projectId == req.projectId && r.order == req.order && r.autoRepeat == req.autoRepeat
    ensures r.previousId == req.previousId && r.nextId == req.nextId
    ensures r.createdAt == req.createdAt && r.updatedAt == req.updatedAt
    ensures r.completedAt == req.completedAt
  {
    Todo(id, req.title, req.description.GetOr(""), req.deadline, req.priority, req.status,
         req.category.GetOr(""), req.labels.GetOr([]), req.userId, req.projectId,
         req.previousId, req.nextId, req.order, req.autoRepeat,
         req.createdAt, req.updatedAt, req.completedAt)
  }

  /** True when the request carries nothing but (possibly) an updated_at timestamp. */
  predicate OnlyTimestamp(u: UpdateRequest) {
    u.(updatedAt := None) == NoChange
  }

  /** The row `update` saves: each non-None field overwrites the stored one, updated_at only when
      truthy, and created_at, id and user_id are never written. */
  function ApplyUpdate(t: Todo, u: UpdateRequest): (r: Todo)
    ensures r.id == t.id && r.userId == t.userId && r.createdAt == t.createdAt
    ensures OnlyTimestamp(u) ==> r == t.(updatedAt := r.updatedAt)
    ensures r.updatedAt == (if IsSet(u.updatedAt) then u.updatedAt else t.updatedAt)
    ensures u.title.None? ==> r.title == t.title
    ensures u.title.Some? ==> r.title == u.title.value
    ensures u.description.None? ==> r.description == t.description
    ensures u.description.Some? ==> r.description == u.description.value
    ensures u.deadline.None? ==> r.deadline == t.deadline
    ensures u.deadline.Some? ==> r.deadline == u.deadline
    ensures u.priority.None? ==> r.priority == t.priority
    ensures u.priority.Some? ==> r.priority == u.priority.value
    ensures u.status.None? ==> r.status == t.status
    ensures u.status.Some? ==> r.status == u.status.value
    ensures u.category.None? ==> r.category == t.category
    ensures u.category.Some? ==> r.category == u.category.value
    ensures u.labels.None? ==> r.labels == t.labels
    ensures u.labels.Some? ==> r.labels == u.labels.value
    ensures u.projectId.None? ==> r.projectId == t.projectId
    ensures u.projectId.Some? ==> r.projectId == u.projectId
    ensures u.previousId.None? ==> r.previousId == t.previousId
    ensures u.previousId.Some? ==> r.previousId == u.previousId
    ensures u.nextId.None? ==> r.nextId == t.nextId
    ensures u.nextId.Some? ==> r.nextId == u.nextId
    ensures u.order.None? ==> r.order == t.order
    ensures u.order.Some? ==> r.order == u.order.value
    ensures u.autoRepeat.None? ==> r.autoRepeat == t.autoRepeat
    ensures u.autoRepeat.Some? ==> r.autoRepeat == u.autoRepeat.value
    ensures u.completedAt.None? ==> r.completedAt == t.completedAt
    ensures u.completedAt.Some? ==> r.completedAt == u.completedAt
    // a link can be set through an update, but never reset to None
    ensures r.previousId.None? ==> t.previousId.None?
    ensures r.nextId.None? ==> t.nextId.None?
  {
    Todo(t.id,
         Pick(u.title, t.title),
         Pick(u.description, t.description),
         PickOpt(u.deadline, t.deadline),
         Pick(u.priority, t.priority),
         Pick(u.status, t.status),
         Pick(u.category, t.category),
         Pick(u.labels, t.labels),
         t.userId,
         PickOpt(u.projectId, t.projectId),
         PickOpt(u.previousId, t.previousId),
         PickOpt(u.nextId, t.nextId),
         Pick(u.order, t.order),
         Pick(u.autoRepeat, t.autoRepeat),
         t.createdAt,
         if IsSet(u.updatedAt) then u.updatedAt else t.updatedAt,
         PickOpt(u.completedAt, t.completedAt))
  }

  /** Applying the same update twice stores the same row as applying it once. */
  lemma ApplyUpdateIdempotent(t: Todo, u: UpdateRequest)
    ensures ApplyUpdate(ApplyUpdate(t, u), u) == ApplyUpdate(t, u)
  {
  }

  class TodoStore {
    var todos: map<int, Todo>
    var nextId: int

    /** Every row is stored under its own id, and the auto-increment counter is above every id. */
    ghost predicate Valid()
      reads this
    {
      nextId >= 1 && forall id | id in todos :: 1 <= id < nextId && todos[id].id == id
    }

    constructor ()
      ensures Valid() && todos == map[] && nextId == 1
    {
      todos := map[];
      nextId := 1;
    }

    /** `create`: an empty title raises TitleRequired and stores nothing; otherwise a fresh id
        is allocated and the normalised row stored under it. */
    method Create(req: CreateRequest) returns (r: Result<Todo, RepoError>)
      requires Valid()
      modifies this
      ensures Valid()
      ensures req.title == [] ==> r == Failure(TitleRequired) && todos == old(todos) && nextId == old(nextId)
      ensures req.title != [] ==>
        && r == Success(FromCreate(old(nextId), req))
        && r.value.id !in old(todos)
        && todos == old(todos)[r.value.id := r.value]
        && nextId == old(nextId) + 1
    {
      if req.title == [] {
        return Failure(TitleRequired);
      }
      var t := FromCreate(nextId, req);
      todos := todos[nextId := t];
      nextId := nextId + 1;
      r := Success(t);
    }

    /** `get_by_id`: None for an unknown id, otherwise the stored row. */
    function GetById(id: int): (r: Option<Todo>)
      requires Valid()
      reads this
      ensures r.None? <==> id !in todos
      ensures r.Some? ==> r.value == todos[id] && r.value.id == id
    {
      if id in todos then Some(todos[id]) else None
    }

    /** `update`: an unknown id raises NotFound; otherwise the fetched row is overwritten field by
        field with every non-None value of the request, then saved. No other row changes. */
    method Update(id: int, u: UpdateRequest) returns (r: Result<Todo, RepoError>)
      requires Valid()
      modifies this
      ensures Valid() && nextId == old(nextId)
      ensures id !in old(todos) ==> r == Failure(NotFound(id)) && todos == old(todos)
      ensures id in old(todos) ==>
        && r == Success(ApplyUpdate(old(todos)[id], u))
        && todos == old(todos)[id := r.value]
    {
      if id !in todos {
        return Failure(NotFound(id));
      }
      var t := ApplyUpdate(todos[id], u);
      todos := todos[id := t];
      r := Success(t);
    }

    /** Sets one link field of an existing row to None. The repository has no such operation:
        it is the write the corrected dependency removal needs (see TodoDependency). */
    method ClearLink(id: int, kind: LinkKind, updatedAt: int)
      requires Valid() && id in todos
      modifies this
      ensures Valid() && nextId == old(nextId)
      ensures todos == old(todos)[id := ApplyUpdate(old(todos)[id], NoChange.(updatedAt := Some(updatedAt)))
                                       .(previousId := if kind == PreviousLink then None else old(todos)[id].previousId)
                                       .(nextId := if kind == NextLink then None else old(todos)[id].nextId)]
      ensures LinkOf(todos[id], kind) == None
    {
      var t := todos[id];
      if kind == PreviousLink { t := t.(previousId := None); } else { t := t.(nextId := None); }
      if Truthy(updatedAt) { t := t.(updatedAt := Some(updatedAt)); }
      todos := todos[id := t];
    }

    /** `delete`: an unknown id raises NotFound; otherwise exactly that id leaves the table. */
    method Delete(id: int) returns (r: Result<(), RepoError>)
      requires Valid()
      modifies this
      ensures Valid() && nextId == old(nextId)
      ensures id !in old(todos) ==> r == Failure(NotFound(id)) && todos == old(todos)
      ensures id in old(todos) ==> r == Success(()) && todos == old(todos) - {id}
    {
      if id !in todos {
        return Failure(NotFound(id));
      }
      todos := todos - {id};
      r := Success(());
    }
  }
}
