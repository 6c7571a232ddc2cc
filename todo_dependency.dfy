/** Previous/next dependencies between todos (backend/usecase/todo_dependency_management/service.py):
    the cycle check, setting and removing a link, validating the chains, and listing a chain. */
module TodoDependency {
  import opened Wrappers
  import opened TodoRepository
  import opened TodoGraph
  import TodoManagement

  datatype DependencyError =
    | TodoNotFound(todoId: int)
    | AccessDenied(todoId: int, userId: int)
    | InvalidDependency(dependencyType: string)
    | CircularDependency(todoId: int, dependencyTodoId: int)

  datatype SetDependencyRequest = SetDependencyRequest(todoId: int, dependencyType: string, dependencyTodoId: int, userId: int)
  datatype SetDependencyResponse = SetDependencyResponse(todoId: int, dependencyType: string, dependencyTodoId: int, success: bool)
  datatype RemoveDependencyRequest = RemoveDependencyRequest(todoId: int, dependencyType: string, userId: int)
  datatype RemoveDependencyResponse = RemoveDependencyResponse(todoId: int, dependencyType: string, success: bool)
  datatype ValidateDependencyResponse = ValidateDependencyResponse(
    todoId: int, isValid: bool, hasCircularDependency: bool, chainLength: int, message: string)
  datatype DependencyNode = DependencyNode(todoId: int, title: string, status: string, previousId: Option<int>, nextId: Option<int>)
  datatype GetDependencyChainResponse = GetDependencyChainResponse(todoId: int, chain: seq<DependencyNode>, totalTodos: int)

  /** The link field a dependency type names; anything but 'previous' and 'next' names none. */
  function KindOf(dependencyType: string): (k: Option<LinkKind>)
    ensures k == Some(PreviousLink) <==> dependencyType == "previous"
    ensures k == Some(NextLink) <==> dependencyType == "next"
  {
    if dependencyType == "previous" then Some(PreviousLink)
    else if dependencyType == "next" then Some(NextLink)
    else None
  }

  /** The outcome of one call of the cycle check: whether it reported a cycle, and the shared
      visited set as the call leaves it. */
  datatype Visit = Visit(found: bool, visited: set<int>)

  /** `_check_circular_dependency`: depth-first over the previous and then the next link of
      `dep`, with one visited set shared by both branches. Any revisit counts as a cycle, as
      does reaching `todoId`; a missing todo ends its branch. Every call either stops or adds
      a stored id to `visited`, which is what makes the search terminate.
      When no cycle is reported, `dep` was visited, `todoId` was not, and every stored todo
      the call visited has its links inside the final visited set. */
  function CheckCircular(todos: map<int, Todo>, todoId: int, dep: int, visited: set<int>): (r: Visit)
    decreases todos.Keys - visited
    ensures visited <= r.visited
    ensures dep in visited ==> r.found
    ensures dep == todoId ==> r.found
    ensures !r.found ==> dep in r.visited && (todoId in r.visited ==> todoId in visited)
    ensures !r.found ==> LinksInside(todos, r.visited - visited, r.visited)
  {
    if dep in visited then Visit(true, visited)
    else if todoId == dep then Visit(true, visited)
    else
      var seen := visited + {dep};
      if dep !in todos then Visit(false, seen)
      else
        var t := todos[dep];
        var afterPrevious :=
          if IsSet(t.previousId) then
            if t.previousId.value == todoId then Visit(true, seen)
            else CheckCircular(todos, todoId, t.previousId.value, seen)
          else Visit(false, seen);
        if afterPrevious.found then afterPrevious
        else if IsSet(t.nextId) then
          if t.nextId.value == todoId then Visit(true, afterPrevious.visited)
          else CheckCircular(todos, todoId, t.nextId.value, afterPrevious.visited)
        else Visit(false, afterPrevious.visited)
  }

  /** The check as `set_dependency` calls it, with a fresh visited set. */
  function WouldCycle(todos: map<int, Todo>, todoId: int, dep: int): bool {
    CheckCircular(todos, todoId, dep, {}).found
  }

  /** When the check passes, no path from the dependency reaches the todo: linking the todo to
      it cannot close a cycle. */
  lemma CheckSound(todos: map<int, Todo>, todoId: int, dep: int)
    requires !WouldCycle(todos, todoId, dep)
    ensures Unreachable(todos, dep, todoId)
  {
    var r := CheckCircular(todos, todoId, dep, {});
    assert Closed(todos, r.visited);
    forall p | IsPath(todos, p) && p[0] == dep ensures todoId !in p {
      PathStaysInClosed(todos, r.visited, p);
    }
  }

  /** A todo can never be linked to itself. */
  lemma SelfLinkFlagged(todos: map<int, Todo>, todoId: int)
    ensures WouldCycle(todos, todoId, todoId)
  {
  }

  /** The check flags any revisit: if the dependency `b` and its previous todo `a` point at
      each other (a.next == b, b.previous == a, the ordinary doubly-linked pair), linking any
      other todo to `b` is refused although no cycle would arise. */
  lemma ReciprocalPairFlagged(todos: map<int, Todo>, todoId: int, a: int, b: int)
    requires b in todos && a in todos && a != todoId && b != todoId
    requires todos[b].previousId == Some(a) && Truthy(a)
    requires todos[a].nextId == Some(b) && Truthy(b)
    ensures WouldCycle(todos, todoId, b)
  {
    var fromA := CheckCircular(todos, todoId, a, {b});
    assert b in fromA.visited;
  }

  /** The error `set_dependency` raises, in the order its checks run; None when it succeeds. */
  function SetDependencyError(todos: map<int, Todo>, req: SetDependencyRequest): (e: Option<DependencyError>)
    ensures e.None? ==> KindOf(req.dependencyType).Some? && req.todoId != req.dependencyTodoId
    ensures e.None? ==> TodoManagement.Owns(todos, req.todoId, req.userId)
                        && TodoManagement.Owns(todos, req.dependencyTodoId, req.userId)
  {
    if req.todoId !in todos then Some(TodoNotFound(req.todoId))
    else if todos[req.todoId].userId != req.userId then Some(AccessDenied(req.todoId, req.userId))
    else if req.dependencyTodoId !in todos then Some(TodoNotFound(req.dependencyTodoId))
    else if todos[req.dependencyTodoId].userId != req.userId then Some(AccessDenied(req.dependencyTodoId, req.userId))
    else if KindOf(req.dependencyType).None? then Some(InvalidDependency(req.dependencyType))
    else if WouldCycle(todos, req.todoId, req.dependencyTodoId) then Some(CircularDependency(req.todoId, req.dependencyTodoId))
    else None
  }

  /** An update request that gives no field besides, at most, the two links. */
  predicate GivesOnlyLinks(u: TodoManagement.UpdateTodoRequest) {
    && u.title.None? && u.description.None? && u.deadline.None? && u.priority.None?
    && u.status.None? && u.category.None? && u.labels.None? && u.projectId.None?
    && u.order.None? && u.autoRepeat.None? && u.completedAt.None?
  }

  /** The update request `set_dependency` sends: only the named link, set to the dependency. */
  function LinkRequest(todoId: int, userId: int, kind: LinkKind, dep: int): (u: TodoManagement.UpdateTodoRequest)
    ensures u.todoId == todoId && u.userId == userId && GivesOnlyLinks(u)
    ensures kind == PreviousLink ==> u.previousId == Some(dep) && u.nextId.None?
    ensures kind == NextLink ==> u.nextId == Some(dep) && u.previousId.None?
  {
    var empty := TodoManagement.EmptyUpdate(todoId, userId);
    if kind == PreviousLink then empty.(previousId := Some(dep)) else empty.(nextId := Some(dep))
  }

  /** `set_dependency`: on any failure nothing is written and the error is the first failing
      check; on success only the todo's named link changes (to the dependency) besides its
      updated_at, the dependency todo is untouched, and an acyclic table stays acyclic. */
  method SetDependency(store: TodoStore, req: SetDependencyRequest, now: int)
    returns (r: Result<SetDependencyResponse, DependencyError>)
    requires store.Valid()
    modifies store
    ensures store.Valid()
    ensures r.Failure? ==> SetDependencyError(old(store.todos), req) == Some(r.error) && store.todos == old(store.todos)
    ensures r.Success? ==>
      && SetDependencyError(old(store.todos), req).None?
      && r.value == SetDependencyResponse(req.todoId, req.dependencyType, req.dependencyTodoId, true)
      && req.todoId in store.todos
      && var kind := KindOf(req.dependencyType).value;
         var before := old(store.todos)[req.todoId];
         var after := store.todos[req.todoId];
      && store.todos == old(store.todos)[req.todoId := after]
      && LinkOf(after, kind) == Some(req.dependencyTodoId)
      && after == (if kind == PreviousLink then before.(previousId := after.previousId) else before.(nextId := after.nextId))
                    .(updatedAt := after.updatedAt)
      && store.todos[req.dependencyTodoId] == old(store.todos)[req.dependencyTodoId]
    ensures r.Success? && Acyclic(old(store.todos)) ==> Acyclic(store.todos)
  {
    var todo := store.GetById(req.todoId);
    if todo.None? {
      return Failure(TodoNotFound(req.todoId));
    }
    if todo.value.userId != req.userId {
      return Failure(AccessDenied(req.todoId, req.userId));
    }
    var depTodo := store.GetById(req.dependencyTodoId);
    if depTodo.None? {
      return Failure(TodoNotFound(req.dependencyTodoId));
    }
    if depTodo.value.userId != req.userId {
      return Failure(AccessDenied(req.dependencyTodoId, req.userId));
    }
    var kind := KindOf(req.dependencyType);
    if kind.None? {
      return Failure(InvalidDependency(req.dependencyType));
    }
    if WouldCycle(store.todos, req.todoId, req.dependencyTodoId) {
      return Failure(CircularDependency(req.todoId, req.dependencyTodoId));
    }
    ghost var before := store.todos;
    var _ := TodoManagement.UpdateTodo(store, LinkRequest(req.todoId, req.userId, kind.value, req.dependencyTodoId), now);
    if Acyclic(before) {
      CheckSound(before, req.todoId, req.dependencyTodoId);
      LinkKeepsAcyclic(before, req.todoId, req.dependencyTodoId, store.todos[req.todoId]);
    }
    r := Success(SetDependencyResponse(req.todoId, req.dependencyType, req.dependencyTodoId, true));
  }

  /** The error `remove_dependency` raises, in the order its checks run; None when it succeeds. */
  function RemoveDependencyError(todos: map<int, Todo>, req: RemoveDependencyRequest): (e: Option<DependencyError>)
    ensures e.None? <==> TodoManagement.Owns(todos, req.todoId, req.userId) && KindOf(req.dependencyType).Some?
  {
    if req.todoId !in todos then Some(TodoNotFound(req.todoId))
    else if todos[req.todoId].userId != req.userId then Some(AccessDenied(req.todoId, req.userId))
    else if KindOf(req.dependencyType).None? then Some(InvalidDependency(req.dependencyType))
    else None
  }

  /** The update request `remove_dependency` sends: the named link "set" to None, which the
      repository reads as "leave unchanged". */
  function UnlinkRequest(todoId: int, userId: int, kind: LinkKind): (u: TodoManagement.UpdateTodoRequest)
    ensures u.todoId == todoId && u.userId == userId && GivesOnlyLinks(u)
    ensures u.previousId.None? && u.nextId.None?
    ensures u == TodoManagement.EmptyUpdate(todoId, userId)
  {
    var empty := TodoManagement.EmptyUpdate(todoId, userId);
    if kind == PreviousLink then empty.(previousId := None) else empty.(nextId := None)
  }

  /** The request `remove_dependency` sends carries nothing but the new updated_at, so the link
      it means to clear is stored unchanged. */
  lemma UnlinkKeepsLink(t: Todo, userId: int, kind: LinkKind, now: int)
    ensures var after := ApplyUpdate(t, TodoManagement.ToRepoUpdate(UnlinkRequest(t.id, userId, kind), now));
            && LinkOf(after, kind) == LinkOf(t, kind)
            && after == t.(updatedAt := after.updatedAt)
  {
    assert UnlinkRequest(t.id, userId, kind) == TodoManagement.EmptyUpdate(t.id, userId);
  }

  /** `remove_dependency` as written: NotFound, AccessDenied, InvalidDependency in that order,
      writing nothing on failure; on success it reports success although only updated_at
      changed, so the link is still there and every repeat call succeeds the same way. */
  method RemoveDependency(store: TodoStore, req: RemoveDependencyRequest, now: int)
    returns (r: Result<RemoveDependencyResponse, DependencyError>)
    requires store.Valid()
    modifies store
    ensures store.Valid()
    ensures r.Failure? ==> RemoveDependencyError(old(store.todos), req) == Some(r.error) && store.todos == old(store.todos)
    ensures r.Success? ==>
      && RemoveDependencyError(old(store.todos), req).None?
      && r.value == RemoveDependencyResponse(req.todoId, req.dependencyType, true)
      && req.todoId in store.todos
      && var after := store.todos[req.todoId];
      && store.todos == old(store.todos)[req.todoId := after]
      && after == old(store.todos)[req.todoId].(updatedAt := after.updatedAt)
      && LinkOf(after, KindOf(req.dependencyType).value) == LinkOf(old(store.todos)[req.todoId], KindOf(req.dependencyType).value)
      && RemoveDependencyError(store.todos, req).None?
  {
    var todo := store.GetById(req.todoId);
    if todo.None? {
      return Failure(TodoNotFound(req.todoId));
    }
    if todo.value.userId != req.userId {
      return Failure(AccessDenied(req.todoId, req.userId));
    }
    var kind := KindOf(req.dependencyType);
    if kind.None? {
      return Failure(InvalidDependency(req.dependencyType));
    }
    UnlinkKeepsLink(todo.value, req.userId, kind.value, now);
    var _ := TodoManagement.UpdateTodo(store, UnlinkRequest(req.todoId, req.userId, kind.value), now);
    r := Success(RemoveDependencyResponse(req.todoId, req.dependencyType, true));
  }

  /** `remove_dependency` as intended: the same checks, then the named link is cleared. The
      table stays acyclic, and a repeat call succeeds with the link still None. */
  method RemoveDependencyClearing(store: TodoStore, req: RemoveDependencyRequest, now: int)
    returns (r: Result<RemoveDependencyResponse, DependencyError>)
    requires store.Valid()
    modifies store
    ensures store.Valid()
    ensures r.Failure? ==> RemoveDependencyError(old(store.todos), req) == Some(r.error) && store.todos == old(store.todos)
    ensures r.Success? ==>
      && RemoveDependencyError(old(store.todos), req).None?
      && r.value == RemoveDependencyResponse(req.todoId, req.dependencyType, true)
      && req.todoId in store.todos
      && store.todos == old(store.todos)[req.todoId := store.todos[req.todoId]]
      && LinkOf(store.todos[req.todoId], KindOf(req.dependencyType).value) == None
      && RemoveDependencyError(store.todos, req).None?
    ensures r.Success? && Acyclic(old(store.todos)) ==> Acyclic(store.todos)
  {
    var todo := store.GetById(req.todoId);
    if todo.None? {
      return Failure(TodoNotFound(req.todoId));
    }
    if todo.value.userId != req.userId {
      return Failure(AccessDenied(req.todoId, req.userId));
    }
    var kind := KindOf(req.dependencyType);
    if kind.None? {
      return Failure(InvalidDependency(req.dependencyType));
    }
    ghost var before := store.todos;
    store.ClearLink(req.todoId, kind.value, now);
    if Acyclic(before) {
      UnlinkKeepsAcyclic(before, req.todoId, store.todos[req.todoId]);
    }
    r := Success(RemoveDependencyResponse(req.todoId, req.dependencyType, true));
  }

  /** One of the two walks of `validate_dependency`: from `start`, follow `kind` links while the
      id is truthy and unvisited, recording each id; stop at a missing todo or an unset link, and
      report a cycle when the link points back into the walk. */
  method Walk(todos: map<int, Todo>, kind: LinkKind, start: int)
    returns (circular: bool, visited: set<int>, ghost walk: seq<int>)
    ensures !Truthy(start) ==> !circular && visited == {} && walk == []
    ensures Truthy(start) ==> WalkFrom(todos, kind, start, walk) && circular == Loops(todos, kind, walk)
    ensures |visited| == |walk| && forall x :: x in visited <==> x in walk
  {
    circular := false;
    visited := {};
    walk := [];
    var current := start;
    while Truthy(current) && current !in visited
      invariant walk == [] ==> current == start && visited == {}
      invariant !Truthy(start) ==> walk == [] && !circular
      invariant walk != [] ==> walk[0] == start && Truthy(current) && current !in visited
      invariant walk != [] ==> walk[|walk| - 1] in todos && LinksTo(LinkOf(todos[walk[|walk| - 1]], kind), current)
      invariant Distinct(walk) && Follows(todos, kind, walk)
      invariant |visited| == |walk| && forall x :: x in visited <==> x in walk
      decreases todos.Keys - visited
    {
      visited := visited + {current};
      walk := walk + [current];
      if current !in todos {
        break;
      }
      var link := LinkOf(todos[current], kind);
      if IsSet(link) {
        if link.value in visited {
          circular := true;
          break;
        }
        current := link.value;
      } else {
        break;
      }
    }
  }

  /** `validate_dependency`: NotFound, then AccessDenied. Otherwise the previous walk and then
      the next walk run from the todo, each with its own visited set; a cycle is reported iff
      either walk loops back into itself, and chain_length is the number of ids on the next
      walk (a dangling id included), or 0 when a cycle was reported. */
  method ValidateDependency(store: TodoStore, todoId: int, userId: int)
    returns (r: Result<ValidateDependencyResponse, DependencyError>, ghost previousWalk: seq<int>, ghost nextWalk: seq<int>)
    requires store.Valid()
    ensures todoId !in store.todos ==> r == Failure(TodoNotFound(todoId))
    ensures todoId in store.todos && store.todos[todoId].userId != userId ==> r == Failure(AccessDenied(todoId, userId))
    ensures r.Success? <==> TodoManagement.Owns(store.todos, todoId, userId)
    ensures r.Success? ==>
      && WalkFrom(store.todos, PreviousLink, todoId, previousWalk)
      && WalkFrom(store.todos, NextLink, todoId, nextWalk)
      && r.value.todoId == todoId
      && (r.value.hasCircularDependency <==> Loops(store.todos, PreviousLink, previousWalk) || Loops(store.todos, NextLink, nextWalk))
      && r.value.isValid == !r.value.hasCircularDependency
      && r.value.chainLength == (if r.value.hasCircularDependency then 0 else |nextWalk|)
      && r.value.message == (if r.value.isValid then "Dependency chain is valid" else "Circular dependency detected")
  {
    previousWalk, nextWalk := [], [];
    var todo := store.GetById(todoId);
    if todo.None? {
      return Failure(TodoNotFound(todoId)), previousWalk, nextWalk;
    }
    if todo.value.userId != userId {
      return Failure(AccessDenied(todoId, userId)), previousWalk, nextWalk;
    }
    var circularBack, _, walkBack := Walk(store.todos, PreviousLink, todoId);
    var circularForward, visited, walkForward := Walk(store.todos, NextLink, todoId);
    previousWalk, nextWalk := walkBack, walkForward;
    var hasCircular := circularBack || circularForward;
    var isValid := !hasCircular;
    var chainLength := if hasCircular then 0 else |visited|;
    var message := if isValid then "Dependency chain is valid" else "Circular dependency detected";
    r := Success(ValidateDependencyResponse(todoId, isValid, hasCircular, chainLength, message));
  }

  /** In an acyclic table `validate_dependency` never reports a cycle. */
  lemma AcyclicIsValid(todos: map<int, Todo>, todoId: int, previousWalk: seq<int>, nextWalk: seq<int>)
    requires Acyclic(todos)
    requires WalkFrom(todos, PreviousLink, todoId, previousWalk) && WalkFrom(todos, NextLink, todoId, nextWalk)
    ensures !Loops(todos, PreviousLink, previousWalk) && !Loops(todos, NextLink, nextWalk)
  {
    AcyclicWalkNeverLoops(todos, PreviousLink, previousWalk);
    AcyclicWalkNeverLoops(todos, NextLink, nextWalk);
  }

  function NodeOf(t: Todo): DependencyNode {
    DependencyNode(t.id, t.title, t.status, t.previousId, t.nextId)
  }

  function Ids(chain: seq<DependencyNode>): set<int> {
    set i | 0 <= i < |chain| :: chain[i].todoId
  }

  lemma IdsPrepend(n: DependencyNode, chain: seq<DependencyNode>)
    ensures Ids([n] + chain) == {n.todoId} + Ids(chain)
  {
    var c := [n] + chain;
    forall x | x in Ids(chain) ensures x in Ids(c) {
      var i :| 0 <= i < |chain| && chain[i].todoId == x;
      assert c[i + 1] == chain[i];
    }
    assert c[0] == n;
  }

  lemma IdsAppend(chain: seq<DependencyNode>, n: DependencyNode)
    ensures Ids(chain + [n]) == Ids(chain) + {n.todoId}
  {
    var c := chain + [n];
    forall x | x in Ids(chain) ensures x in Ids(c) {
      var i :| 0 <= i < |chain| && chain[i].todoId == x;
      assert c[i] == chain[i];
    }
    assert c[|chain|] == n;
  }

  /** A walk of `get_dependency_chain` stopped here: the link is unset, leads back into the
      chain, or names a todo that does not exist. */
  ghost predicate ChainEnds(todos: map<int, Todo>, link: Option<int>, chain: seq<DependencyNode>) {
    !IsSet(link) || link.value in Ids(chain) || link.value !in todos
  }

  predicate FollowsPrevious(direction: string) { direction == "previous" || direction == "both" }
  predicate FollowsNext(direction: string) { direction == "next" || direction == "both" }

  /** A chain of stored nodes with distinct ids, linked through previous links up to `pos` and
      through next links from `pos` on. */
  ghost predicate WellLinked(todos: map<int, Todo>, chain: seq<DependencyNode>, pos: nat) {
    && pos < |chain|
    && (forall i | 0 <= i < |chain| :: chain[i].todoId in todos && chain[i] == NodeOf(todos[chain[i].todoId]))
    && (forall i, j | 0 <= i < j < |chain| :: chain[i].todoId != chain[j].todoId)
    && (forall i | 0 <= i < pos :: LinksTo(chain[i + 1].previousId, chain[i].todoId))
    && (forall i | pos <= i < |chain| - 1 :: LinksTo(chain[i].nextId, chain[i + 1].todoId))
  }

  /** Every stored row sits under its own id, as `TodoStore.Valid` guarantees. */
  ghost predicate KeyedById(todos: map<int, Todo>) {
    forall k | k in todos :: todos[k].id == k
  }

  /** The visited set holds the chain's ids and otherwise only ids of missing todos. */
  ghost predicate Accounted(todos: map<int, Todo>, chain: seq<DependencyNode>, visited: set<int>) {
    Ids(chain) <= visited && forall x | x in visited :: x in Ids(chain) || x !in todos
  }

  /** Putting in front a stored node that is not yet in the chain and whose id the first
      node's previous link names keeps the chain well linked. */
  lemma Prepend(todos: map<int, Todo>, chain: seq<DependencyNode>, node: DependencyNode)
    requires |chain| >= 1 && WellLinked(todos, chain, |chain| - 1)
    requires node.todoId in todos && node == NodeOf(todos[node.todoId]) && node.todoId !in Ids(chain)
    requires LinksTo(chain[0].previousId, node.todoId)
    ensures WellLinked(todos, [node] + chain, |chain|)
    ensures Ids([node] + chain) == {node.todoId} + Ids(chain)
  {
    IdsPrepend(node, chain);
    var c := [node] + chain;
    forall i, j | 0 <= i < j < |c| ensures c[i].todoId != c[j].todoId {
      if i == 0 {
        assert c[j] == chain[j - 1];
        assert chain[j - 1].todoId in Ids(chain);
      } else {
        assert c[i] == chain[i - 1] && c[j] == chain[j - 1];
      }
    }
    forall i | 0 <= i < |chain| ensures LinksTo(c[i + 1].previousId, c[i].todoId) {
      if i > 0 {
        assert c[i] == chain[i - 1] && c[i + 1] == chain[i];
      }
    }
  }

  /** Putting at the end a stored node that is not yet in the chain and whose id the last
      node's next link names keeps the chain well linked. */
  lemma Append(todos: map<int, Todo>, chain: seq<DependencyNode>, pos: nat, node: DependencyNode)
    requires WellLinked(todos, chain, pos)
    requires node.todoId in todos && node == NodeOf(todos[node.todoId]) && node.todoId !in Ids(chain)
    requires LinksTo(chain[|chain| - 1].nextId, node.todoId)
    ensures WellLinked(todos, chain + [node], pos)
    ensures Ids(chain + [node]) == Ids(chain) + {node.todoId}
  {
    IdsAppend(chain, node);
    var c := chain + [node];
    forall i, j | 0 <= i < j < |c| ensures c[i].todoId != c[j].todoId {
      if j == |chain| {
        assert chain[i].todoId in Ids(chain);
      }
    }
  }

  /** The walk starts from the chain holding the stored todo alone. */
  lemma SingleChain(todos: map<int, Todo>, id: int)
    requires KeyedById(todos) && id in todos
    ensures WellLinked(todos, [NodeOf(todos[id])], 0) && Accounted(todos, [NodeOf(todos[id])], {id})
  {
    var chain := [NodeOf(todos[id])];
    assert chain[0].todoId == id;
    assert Ids(chain) == {id};
  }

  /** One turn of the previous walk: the stored todo the first node links back to, reached for
      the first time, goes in front. */
  lemma PrependStep(todos: map<int, Todo>, chain: seq<DependencyNode>, seen: set<int>, id: int)
    requires KeyedById(todos) && |chain| >= 1
    requires WellLinked(todos, chain, |chain| - 1) && Accounted(todos, chain, seen)
    requires LinksTo(chain[0].previousId, id) && id !in seen && id in todos
    ensures var c := [NodeOf(todos[id])] + chain;
      && WellLinked(todos, c, |c| - 1) && Accounted(todos, c, seen + {id})
      && c[|c| - 1] == chain[|chain| - 1]
  {
    var node := NodeOf(todos[id]);
    assert node.todoId == id;
    Prepend(todos, chain, node);
  }

  /** One turn of the next walk: the stored todo the last node links to, reached for the first
      time, goes at the end. */
  lemma AppendStep(todos: map<int, Todo>, chain: seq<DependencyNode>, pos: nat, seen: set<int>, id: int)
    requires KeyedById(todos)
    requires WellLinked(todos, chain, pos) && Accounted(todos, chain, seen)
    requires LinksTo(chain[|chain| - 1].nextId, id) && id !in seen && id in todos
    ensures var c := chain + [NodeOf(todos[id])];
      && WellLinked(todos, c, pos) && Accounted(todos, c, seen + {id}) && Ids(chain) <= Ids(c)
  {
    var node := NodeOf(todos[id]);
    assert node.todoId == id;
    Append(todos, chain, pos, node);
  }

  /** The previous walk of `get_dependency_chain`, inserting each node it reaches at the front. */
  method FollowPrevious(todos: map<int, Todo>, chain: seq<DependencyNode>, visited: set<int>)
    returns (chain': seq<DependencyNode>, visited': set<int>)
    requires KeyedById(todos) && |chain| >= 1
    requires WellLinked(todos, chain, |chain| - 1) && Accounted(todos, chain, visited)
    ensures |chain'| >= |chain| && chain'[|chain'| - 1] == chain[|chain| - 1]
    ensures WellLinked(todos, chain', |chain'| - 1) && Accounted(todos, chain', visited')
    ensures ChainEnds(todos, chain'[0].previousId, chain')
  {
    chain', visited' := chain, visited;
    var current := chain[0].previousId;
    while IsSet(current) && current.value !in visited'
      invariant |chain'| >= |chain| && chain'[|chain'| - 1] == chain[|chain| - 1]
      invariant WellLinked(todos, chain', |chain'| - 1) && Accounted(todos, chain', visited')
      invariant current == chain'[0].previousId
      decreases todos.Keys - visited'
    {
      var id := current.value;
      ghost var seen := visited';
      visited' := visited' + {id};
      if id !in todos {
        break;
      }
      var node := NodeOf(todos[id]);
      PrependStep(todos, chain', seen, id);
      chain' := [node] + chain';
      current := node.previousId;
    }
  }

  /** The next walk of `get_dependency_chain`, appending each node it reaches. */
  method FollowNext(todos: map<int, Todo>, chain: seq<DependencyNode>, ghost pos: nat, visited: set<int>)
    returns (chain': seq<DependencyNode>, visited': set<int>)
    requires KeyedById(todos)
    requires WellLinked(todos, chain, pos) && Accounted(todos, chain, visited)
    ensures WellLinked(todos, chain', pos) && Accounted(todos, chain', visited')
    ensures |chain'| >= |chain| && chain'[..|chain|] == chain && Ids(chain) <= Ids(chain')
    ensures ChainEnds(todos, chain'[|chain'| - 1].nextId, chain')
  {
    chain', visited' := chain, visited;
    var current := chain[|chain| - 1].nextId;
    while IsSet(current) && current.value !in visited'
      invariant WellLinked(todos, chain', pos) && Accounted(todos, chain', visited')
      invariant |chain'| >= |chain| && chain'[..|chain|] == chain && Ids(chain) <= Ids(chain')
      invariant current == chain'[|chain'| - 1].nextId
      decreases todos.Keys - visited'
    {
      var id := current.value;
      ghost var seen := visited';
      visited' := visited' + {id};
      if id !in todos {
        break;
      }
      var node := NodeOf(todos[id]);
      AppendStep(todos, chain', pos, seen, id);
      chain' := chain' + [node];
      current := node.nextId;
    }
  }

  /** The two walks of `get_dependency_chain` from the stored todo `todoId`: backwards first,
      then forwards from where the todo ended up. */
  method WalkChain(todos: map<int, Todo>, todoId: int, direction: string)
    returns (chain: seq<DependencyNode>, ghost pos: nat)
    requires KeyedById(todos) && todoId in todos
    ensures WellLinked(todos, chain, pos)
    ensures chain[pos] == NodeOf(todos[todoId])
    ensures pos > 0 ==> FollowsPrevious(direction)
    ensures pos < |chain| - 1 ==> FollowsNext(direction)
    ensures FollowsPrevious(direction) ==> ChainEnds(todos, chain[0].previousId, chain[..pos + 1])
    ensures FollowsNext(direction) ==> ChainEnds(todos, chain[|chain| - 1].nextId, chain)
  {
    pos := 0;
    chain := [NodeOf(todos[todoId])];
    var visited := {todoId};
    SingleChain(todos, todoId);
    if FollowsPrevious(direction) {
      chain, visited := FollowPrevious(todos, chain, visited);
      pos := |chain| - 1;
    }
    ghost var back := chain;
    assert back == chain[..pos + 1];
    if FollowsNext(direction) {
      chain, visited := FollowNext(todos, chain, pos, visited);
      assert chain[0] == back[0] && chain[pos] == back[pos];
    }
    assert chain[..pos + 1] == back;
  }

  /** `get_dependency_chain`: NotFound, then AccessDenied. Otherwise the chain holds the todo at
      position `pos`, the nodes reached through previous links before it (nearest last) and
      those reached through next links after it; no id appears twice; each walk ran until its
      link was unset, led back into the chain built so far or named a missing todo (the
      previous walk sees only its own part, `c[..pos + 1]`); the direction is not
      validated, so an unknown one gives the todo alone. Linked todos are listed whoever owns
      them. */
  method GetDependencyChain(store: TodoStore, todoId: int, userId: int, direction: string)
    returns (r: Result<GetDependencyChainResponse, DependencyError>, ghost pos: nat)
    requires store.Valid()
    ensures todoId !in store.todos ==> r == Failure(TodoNotFound(todoId))
    ensures todoId in store.todos && store.todos[todoId].userId != userId ==> r == Failure(AccessDenied(todoId, userId))
    ensures r.Success? <==> TodoManagement.Owns(store.todos, todoId, userId)
    ensures r.Success? ==>
      var c := r.value.chain;
      && r.value.todoId == todoId && r.value.totalTodos == |c|
      && WellLinked(store.todos, c, pos)
      && c[pos] == NodeOf(store.todos[todoId])
      && (pos > 0 ==> FollowsPrevious(direction))
      && (pos < |c| - 1 ==> FollowsNext(direction))
      && (FollowsPrevious(direction) ==> ChainEnds(store.todos, c[0].previousId, c[..pos + 1]))
      && (FollowsNext(direction) ==> ChainEnds(store.todos, c[|c| - 1].nextId, c))
  {
    pos := 0;
    var found := store.GetById(todoId);
    if found.None? {
      return Failure(TodoNotFound(todoId)), pos;
    }
    var todo := found.value;
    if todo.userId != userId {
      return Failure(AccessDenied(todoId, userId)), pos;
    }
    var todos := store.todos;
    assert KeyedById(todos);
    var chain;
    chain, pos := WalkChain(todos, todoId, direction);
    r := Success(GetDependencyChainResponse(todoId, chain, |chain|));
  }
}
