/** The project table and the project-member table (backend/repository/project/service.py).
    Projects are a map from id to row. Members are a sequence of rows in insertion order;
    their ids come from an auto-increment counter, so this is ascending id order.
    The table's unique_together rule keeps at most one row per (project_id, user_id) pair. */
module ProjectRepository {
  import opened Wrappers
  import opened BaseModels
  import Text

  datatype Project = Project(
    id: int,
    name: string,
    description: string,
    isPrivate: bool,
    ownerId: int,
    createdAt: Option<int>,
    updatedAt: Option<int>)

  datatype ProjectCreateRequest = ProjectCreateRequest(
    name: string,
    description: Option<string>,
    isPrivate: bool,
    ownerId: int,
    createdAt: Option<int>,
    updatedAt: Option<int>)

  /** `ProjectUpdateRequest`: None means "leave unchanged". */
  datatype ProjectUpdateRequest = ProjectUpdateRequest(
    name: Option<string>,
    description: Option<string>,
    isPrivate: Option<bool>,
    updatedAt: Option<int>)

  datatype Member = Member(id: int, projectId: int, userId: int, role: string, joinedAt: Option<int>)

  datatype MemberCreateRequest = MemberCreateRequest(projectId: int, userId: int, role: string, joinedAt: Option<int>)

  /** `ProjectMemberFilter` after construction: the window has already been through `ValidatePage`. */
  datatype MemberFilter = MemberFilter(
    projectId: Option<int>,
    userId: Option<int>,
    role: Option<string>,
    orderBy: string,
    page: Page)

  /** The exceptions of both project layers; the use-case layer lets the repository's propagate. */
  datatype ProjectError =
    | NameRequired
    | ProjectNotFound(projectId: int)
    | AccessDenied(projectId: int, userId: int)
    | MemberNotFound(projectId: int, userId: int)
    | MemberAlreadyExists(projectId: int, userId: int)

  /** The row `create` stores under `id`; a None description becomes "". */
  function FromCreate(id: int, req: ProjectCreateRequest): (r: Project)
    ensures r.id == id && r.name == req.name && r.ownerId == req.ownerId && r.isPrivate == req.isPrivate
    ensures r.description == (if req.description.Some? then req.description.value else "")
    ensures r.createdAt == req.createdAt && r.updatedAt == req.updatedAt
  {
    Project(id, req.name, req.description.GetOr(""), req.isPrivate, req.ownerId, req.createdAt, req.updatedAt)
  }

  /** The row `update` saves: None fields are left alone, updated_at is written only when truthy,
      and id, owner and created_at are never written. */
  function ApplyProjectUpdate(p: Project, u: ProjectUpdateRequest): (r: Project)
    ensures r.id == p.id && r.ownerId == p.ownerId && r.createdAt == p.createdAt
    ensures u.name.None? ==> r.name == p.name
    ensures u.name.Some? ==> r.name == u.name.value
    ensures u.description.None? ==> r.description == p.description
    ensures u.description.Some? ==> r.description == u.description.value
    ensures u.isPrivate.None? ==> r.isPrivate == p.isPrivate
    ensures u.isPrivate.Some? ==> r.isPrivate == u.isPrivate.value
    ensures IsSet(u.updatedAt) ==> r.updatedAt == u.updatedAt
    ensures !IsSet(u.updatedAt) ==> r.updatedAt == p.updatedAt
    ensures u == ProjectUpdateRequest(None, None, None, None) ==> r == p
  {
    Project(p.id, Pick(u.name, p.name), Pick(u.description, p.description), Pick(u.isPrivate, p.isPrivate),
            p.ownerId, p.createdAt, if IsSet(u.updatedAt) then u.updatedAt else p.updatedAt)
  }

  /** Saving the same update twice stores the same row as saving it once. */
  lemma ApplyProjectUpdateIdempotent(p: Project, u: ProjectUpdateRequest)
    ensures ApplyProjectUpdate(ApplyProjectUpdate(p, u), u) == ApplyProjectUpdate(p, u)
  {
  }

  predicate IsPair(m: Member, projectId: int, userId: int) {
    m.projectId == projectId && m.userId == userId
  }

  /** The unique_together rule on (project_id, user_id). */
  predicate UniquePairs(ms: seq<Member>) {
    forall i, j | 0 <= i < j < |ms| :: !IsPair(ms[j], ms[i].projectId, ms[i].userId)
  }

  predicate Increasing(ms: seq<Member>) {
    forall i, j | 0 <= i < j < |ms| :: ms[i].id < ms[j].id
  }

  /** The index of the row of a (project, user) pair, if there is one. */
  function FindMember(ms: seq<Member>, projectId: int, userId: int): (r: Option<nat>)
    ensures r.Some? ==> r.value < |ms| && IsPair(ms[r.value], projectId, userId)
    ensures r.None? <==> forall i | 0 <= i < |ms| :: !IsPair(ms[i], projectId, userId)
  {
    if ms == [] then None
    else if IsPair(ms[0], projectId, userId) then Some(0)
    else
      match FindMember(ms[1..], projectId, userId)
      case None => None
      case Some(i) => Some(i + 1)
  }

  /** Whether `delete_member(projectId, u)` for some u in `users` removes this row. */
  predicate Dropped(m: Member, projectId: int, users: set<int>) {
    m.projectId == projectId && m.userId in users
  }

  /** The member table once the rows of `users` in `projectId` have been deleted. */
  function WithoutUsers(ms: seq<Member>, projectId: int, users: set<int>): (r: seq<Member>)
    ensures forall m | m in r :: m in ms && !Dropped(m, projectId, users)
    ensures forall m | m in ms && !Dropped(m, projectId, users) :: m in r
    ensures |r| <= |ms|
  {
    if ms == [] then []
    else
      var rest := WithoutUsers(ms[1..], projectId, users);
      if Dropped(ms[0], projectId, users) then rest
      else
        assert forall k | 0 <= k < |rest| :: rest[k] in ms[1..];
        [ms[0]] + rest
  }

  /** Deleting rows keeps the table in ascending id order. */
  lemma {:induction false} WithoutUsersIncreasing(ms: seq<Member>, projectId: int, users: set<int>)
    requires Increasing(ms)
    ensures Increasing(WithoutUsers(ms, projectId, users))
  {
    if ms != [] {
      var tail := ms[1..];
      WithoutUsersIncreasing(tail, projectId, users);
      var rest := WithoutUsers(tail, projectId, users);
      if !Dropped(ms[0], projectId, users) {
        var r := [ms[0]] + rest;
        forall i, j | 0 <= i < j < |r| ensures r[i].id < r[j].id {
          assert r[j] == rest[j - 1] && rest[j - 1] in tail;
          if i == 0 {
            var t :| 0 <= t < |tail| && tail[t] == rest[j - 1];
            assert ms[t + 1] == r[j];
          } else {
            assert r[i] == rest[i - 1];
          }
        }
      }
    }
  }

  /** Deleting rows keeps the pairs of the table unique. */
  lemma {:induction false} WithoutUsersUnique(ms: seq<Member>, projectId: int, users: set<int>)
    requires UniquePairs(ms)
    ensures UniquePairs(WithoutUsers(ms, projectId, users))
  {
    if ms != [] {
      var tail := ms[1..];
      assert UniquePairs(tail) by {
        forall i, j | 0 <= i < j < |tail| ensures !IsPair(tail[j], tail[i].projectId, tail[i].userId) {
          assert tail[i] == ms[i + 1] && tail[j] == ms[j + 1];
        }
      }
      WithoutUsersUnique(tail, projectId, users);
      var rest := WithoutUsers(tail, projectId, users);
      if !Dropped(ms[0], projectId, users) {
        var r := [ms[0]] + rest;
        forall i, j | 0 <= i < j < |r| ensures !IsPair(r[j], r[i].projectId, r[i].userId) {
          assert r[j] == rest[j - 1] && rest[j - 1] in tail;
          if i == 0 {
            var t :| 0 <= t < |tail| && tail[t] == rest[j - 1];
            assert ms[t + 1] == r[j];
          } else {
            assert r[i] == rest[i - 1];
          }
        }
      }
    }
  }

  /** Deleting the rows of `users` and then those of `u` is deleting the rows of `users + {u}`. */
  lemma {:induction false} WithoutUsersStep(ms: seq<Member>, projectId: int, users: set<int>, u: int)
    ensures WithoutUsers(WithoutUsers(ms, projectId, users), projectId, {u}) == WithoutUsers(ms, projectId, users + {u})
  {
    if ms != [] {
      WithoutUsersStep(ms[1..], projectId, users, u);
    }
  }

  /** The row filters of `get_members`: each criterion applies only when it is truthy. */
  predicate Matches(m: Member, f: MemberFilter) {
    && (IsSet(f.projectId) ==> m.projectId == f.projectId.value)
    && (IsSet(f.userId) ==> m.userId == f.userId.value)
    && (f.role.Some? && f.role.value != "" ==> m.role == f.role.value)
  }

  /** The rows that pass the filters, in table order. */
  function Select(ms: seq<Member>, f: MemberFilter): (r: seq<Member>)
    ensures forall m | m in r :: m in ms && Matches(m, f)
    ensures forall m | m in ms && Matches(m, f) :: m in r
    ensures |r| <= |ms|
  {
    if ms == [] then []
    else
      var rest := Select(ms[1..], f);
      if Matches(ms[0], f) then
        assert forall k | 0 <= k < |rest| :: rest[k] in ms[1..];
        [ms[0]] + rest
      else rest
  }

  lemma {:induction false} SelectIncreasing(ms: seq<Member>, f: MemberFilter)
    requires Increasing(ms)
    ensures Increasing(Select(ms, f))
  {
    if ms != [] {
      SelectIncreasing(ms[1..], f);
      var rest := Select(ms[1..], f);
      assert forall k | 0 <= k < |rest| :: rest[k] in ms[1..];
    }
  }

  predicate Decreasing(ms: seq<Member>) {
    forall i, j | 0 <= i < j < |ms| :: ms[i].id > ms[j].id
  }

  /** A window of a newest-first list is newest-first. */
  lemma WindowDecreasing(all: seq<Member>, p: Page)
    requires p.limit >= 1 && p.offset >= 0 && Decreasing(all)
    ensures Decreasing(Window(all, p))
  {
    var r := Window(all, p);
    forall i, j | 0 <= i < j < |r| ensures r[i].id > r[j].id {
      assert r[i] == all[p.offset + i] && r[j] == all[p.offset + j];
    }
  }

  /** The order_by rewrite of `get_members`: created_at is renamed joined_at, and an empty
      order becomes newest-joined first. */
  function MemberOrderBy(orderBy: string): (r: string)
    ensures orderBy == "" ==> r == "-joined_at"
    ensures orderBy != "" && !Text.Contains(orderBy, "created_at") ==> r == orderBy
  {
    if orderBy != "" && Text.Contains(orderBy, "created_at") then Text.ReplaceAll(orderBy, "created_at", "joined_at")
    else
      DashCreatedAt();
      if orderBy == "" || orderBy == "-created_at" then "-joined_at"
    else orderBy
  }

  lemma DashCreatedAt()
    ensures Text.Contains("-created_at", "created_at")
  {
    assert "-created_at"[1..] == "created_at";
    assert Text.StartsWith("-created_at"[1..], "created_at");
  }

  /** An ordering naming created_at once has that name replaced by joined_at, the rest of it
      (a leading '-', a suffix) kept. */
  lemma MemberOrderByRenames(orderBy: string, i: nat)
    requires Text.OccursAt(orderBy, "created_at", i)
    requires forall j | 0 <= j < i :: !Text.OccursAt(orderBy, "created_at", j)
    requires !Text.Contains(orderBy[i + 10..], "created_at")
    ensures MemberOrderBy(orderBy) == orderBy[..i] + "joined_at" + orderBy[i + 10..]
  {
    Text.ContainsAt(orderBy, "created_at");
    Text.ReplaceLeftmost(orderBy, "created_at", "joined_at", i);
  }

  /** The rewrite sends the usual created_at orderings to the joined_at ones. */
  lemma MemberOrderByCreatedAt()
    ensures MemberOrderBy("-created_at") == "-joined_at"
    ensures MemberOrderBy("created_at") == "joined_at"
    ensures MemberOrderBy("-id") == "-id"
  {
    assert Text.StartsWith("created_at", "created_at");
    assert Text.Contains("-created_at", "created_at") by {
      assert Text.StartsWith("-created_at"[1..], "created_at");
    }
    DashCreatedAt();
    assert "-created_at"[0] != "created_at"[0];
    assert !Text.StartsWith("-created_at", "created_at");
    assert "created_at"[10..] == [];
    var s := "-id";
    assert !Text.Contains(s[2..], "created_at");
    assert !Text.Contains(s[1..], "created_at") by { assert s[1..][1..] == s[2..]; }
  }

  /** The order the rows come back in. Table order is ascending id, so "-id" is the reversed
      table; any other key keeps table order (see the README). */
  function Ordered(ms: seq<Member>, orderBy: string): (r: seq<Member>)
    ensures |r| == |ms|
    ensures forall m :: m in r <==> m in ms
    ensures orderBy == "-id" && Increasing(ms) ==> Decreasing(r)
  {
    if orderBy == "-id" then
      var r := Reverse(ms);
      assert forall m | m in ms :: m in r by {
        forall m | m in ms ensures m in r {
          var i :| 0 <= i < |ms| && ms[i] == m;
          assert r[|ms| - 1 - i] == m;
        }
      }
      r
    else ms
  }

  class ProjectStore {
    var projects: map<int, Project>
    var nextProjectId: int
    var members: seq<Member>
    var nextMemberId: int

    ghost predicate Valid()
      reads this
    {
      && nextProjectId >= 1
      && (forall id | id in projects :: 1 <= id < nextProjectId && projects[id].id == id)
      && nextMemberId >= 1
      && (forall m | m in members :: 1 <= m.id < nextMemberId)
      && Increasing(members)
      && UniquePairs(members)
    }

    constructor ()
      ensures Valid() && projects == map[] && members == [] && nextProjectId == 1 && nextMemberId == 1
    {
      projects := map[];
      nextProjectId := 1;
      members := [];
      nextMemberId := 1;
    }

    /** `create`: an empty name raises NameRequired; otherwise a fresh id is allocated. */
    method Create(req: ProjectCreateRequest) returns (r: Result<Project, ProjectError>)
      requires Valid()
      modifies this
      ensures Valid() && members == old(members) && nextMemberId == old(nextMemberId)
      ensures req.name == [] ==> r == Failure(NameRequired) && projects == old(projects) && nextProjectId == old(nextProjectId)
      ensures req.name != [] ==>
        && r == Success(FromCreate(old(nextProjectId), req))
        && r.value.id !in old(projects)
        && projects == old(projects)[r.value.id := r.value]
        && nextProjectId == old(nextProjectId) + 1
    {
      if req.name == [] {
        return Failure(NameRequired);
      }
      var p := FromCreate(nextProjectId, req);
      projects := projects[nextProjectId := p];
      nextProjectId := nextProjectId + 1;
      r := Success(p);
    }

    /** `get_by_id`: None for an unknown id. */
    function GetById(id: int): (r: Option<Project>)
      requires Valid()
      reads this
      ensures r.None? <==> id !in projects
      ensures r.Some? ==> r.value == projects[id] && r.value.id == id
    {
      if id in projects then Some(projects[id]) else None
    }

    /** `update`: an unknown id raises NotFound; otherwise only that row changes. */
    method Update(id: int, u: ProjectUpdateRequest) returns (r: Result<Project, ProjectError>)
      requires Valid()
      modifies this
      ensures Valid() && members == old(members) && nextMemberId == old(nextMemberId) && nextProjectId == old(nextProjectId)
      ensures id !in old(projects) ==> r == Failure(ProjectNotFound(id)) && projects == old(projects)
      ensures id in old(projects) ==>
        && r == Success(ApplyProjectUpdate(old(projects)[id], u))
        && projects == old(projects)[id := r.value]
    {
      if id !in projects {
        return Failure(ProjectNotFound(id));
      }
      var p := projects[id];
      if u.name.Some? { p := p.(name := u.name.value); }
      if u.description.Some? { p := p.(description := u.description.value); }
      if u.isPrivate.Some? { p := p.(isPrivate := u.isPrivate.value); }
      if IsSet(u.updatedAt) { p := p.(updatedAt := u.updatedAt); }
      projects := projects[id := p];
      r := Success(p);
    }

    /** `delete`: an unknown id raises NotFound; the member table is not touched. */
    method Delete(id: int) returns (r: Result<(), ProjectError>)
      requires Valid()
      modifies this
      ensures Valid() && members == old(members) && nextMemberId == old(nextMemberId) && nextProjectId == old(nextProjectId)
      ensures id !in old(projects) ==> r == Failure(ProjectNotFound(id)) && projects == old(projects)
      ensures id in old(projects) ==> r == Success(()) && projects == old(projects) - {id}
    {
      if id !in projects {
        return Failure(ProjectNotFound(id));
      }
      projects := projects - {id};
      r := Success(());
    }

    /** `create_member`: an existing (project, user) pair raises AlreadyExists and leaves the
        table as it was; otherwise one row is appended with a fresh id. */
    method CreateMember(req: MemberCreateRequest) returns (r: Result<Member, ProjectError>)
      requires Valid()
      modifies this
      ensures Valid() && projects == old(projects) && nextProjectId == old(nextProjectId)
      ensures FindMember(old(members), req.projectId, req.userId).Some? ==>
        r == Failure(MemberAlreadyExists(req.projectId, req.userId)) && members == old(members) && nextMemberId == old(nextMemberId)
      ensures FindMember(old(members), req.projectId, req.userId).None? ==>
        && r == Success(Member(old(nextMemberId), req.projectId, req.userId, req.role, req.joinedAt))
        && members == old(members) + [r.value]
        && nextMemberId == old(nextMemberId) + 1
    {
      if FindMember(members, req.projectId, req.userId).Some? {
        return Failure(MemberAlreadyExists(req.projectId, req.userId));
      }
      var m := Member(nextMemberId, req.projectId, req.userId, req.role, req.joinedAt);
      members := members + [m];
      nextMemberId := nextMemberId + 1;
      r := Success(m);
    }

    /** `get_member`: the row of the pair, or None when there is none. */
    function GetMember(projectId: int, userId: int): (r: Option<Member>)
      requires Valid()
      reads this
      ensures r.None? <==> forall m | m in members :: !IsPair(m, projectId, userId)
      ensures r.Some? ==> r.value in members && IsPair(r.value, projectId, userId)
    {
      match FindMember(members, projectId, userId)
      case None => None
      case Some(i) => Some(members[i])
    }

    /** `get_members`: the matching rows, ordered, then cut to the filter's window. Every row
        returned matches; when the window starts at 0 and holds all matches, every match is
        returned; under "-id" the newest rows come first. */
    function GetMembers(f: MemberFilter): (r: seq<Member>)
      requires Valid() && f.page.limit >= 1 && f.page.offset >= 0
      reads this
      ensures |r| <= f.page.limit
      ensures forall m | m in r :: m in members && Matches(m, f)
      ensures f.page.offset == 0 && |Select(members, f)| <= f.page.limit ==>
        forall m | m in members && Matches(m, f) :: m in r
      ensures MemberOrderBy(f.orderBy) == "-id" ==> Decreasing(r)
    {
      var selected := Select(members, f);
      var all := Ordered(selected, MemberOrderBy(f.orderBy));
      WindowFacts(all, f.page);
      SelectIncreasing(members, f);
      if MemberOrderBy(f.orderBy) == "-id" then
        WindowDecreasing(all, f.page);
        Window(all, f.page)
      else
      Window(all, f.page)
    }

    /** `update_member`: a missing pair raises MemberNotFound; a None role leaves the row as it is. */
    method UpdateMember(projectId: int, userId: int, role: Option<string>) returns (r: Result<Member, ProjectError>)
      requires Valid()
      modifies this
      ensures Valid() && projects == old(projects) && nextProjectId == old(nextProjectId) && nextMemberId == old(nextMemberId)
      ensures FindMember(old(members), projectId, userId).None? ==>
        r == Failure(MemberNotFound(projectId, userId)) && members == old(members)
      ensures FindMember(old(members), projectId, userId).Some? ==>
        var i := FindMember(old(members), projectId, userId).value;
        && r == Success(old(members)[i].(role := if role.Some? then role.value else old(members)[i].role))
        && members == old(members)[i := r.value]
    {
      var found := FindMember(members, projectId, userId);
      if found.None? {
        return Failure(MemberNotFound(projectId, userId));
      }
      var m := members[found.value];
      if role.Some? { m := m.(role := role.value); }
      members := members[found.value := m];
      r := Success(m);
    }

    /** `delete_member`: a missing pair raises MemberNotFound; otherwise only that pair's row goes. */
    method DeleteMember(projectId: int, userId: int) returns (r: Result<(), ProjectError>)
      requires Valid()
      modifies this
      ensures Valid() && projects == old(projects) && nextProjectId == old(nextProjectId) && nextMemberId == old(nextMemberId)
      ensures FindMember(old(members), projectId, userId).None? ==>
        r == Failure(MemberNotFound(projectId, userId)) && members == old(members)
      ensures FindMember(old(members), projectId, userId).Some? ==>
        r == Success(()) && members == WithoutUsers(old(members), projectId, {userId})
    {
      if FindMember(members, projectId, userId).None? {
        return Failure(MemberNotFound(projectId, userId));
      }
      WithoutUsersIncreasing(members, projectId, {userId});
      WithoutUsersUnique(members, projectId, {userId});
      members := WithoutUsers(members, projectId, {userId});
      r := Success(());
    }
  }
}
