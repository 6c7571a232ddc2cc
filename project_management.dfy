/** Project use cases (backend/usecase/project_management/service.py): who may read, change and
    delete a project, and who may manage its members. Roles are the strings "Owner", "Admin"
    and "Member"; the project's owner_id grants every right whatever the member table says. */
module ProjectManagement {
  import opened Wrappers
  import opened BaseModels
  import opened ProjectRepository
  import Text

  const OwnerRole: string := "Owner"
  const AdminRole: string := "Admin"

  datatype CreateProjectRequest = CreateProjectRequest(name: string, description: Option<string>, isPrivate: bool, ownerId: int)

  datatype CreateProjectResponse = CreateProjectResponse(projectId: int, name: string, isPrivate: bool, ownerId: int, createdAt: Option<int>)

  datatype UpdateProjectRequest = UpdateProjectRequest(
    projectId: int,
    userId: int,
    name: Option<string>,
    description: Option<string>,
    isPrivate: Option<bool>)

  datatype AddMemberRequest = AddMemberRequest(projectId: int, userId: int, newUserId: int, role: string)

  datatype RemoveMemberRequest = RemoveMemberRequest(projectId: int, userId: int, removeUserId: int)

  datatype UpdateMemberRoleRequest = UpdateMemberRoleRequest(projectId: int, userId: int, updateUserId: int, newRole: string)

  /** The use-case `ProjectFilter`, its window already validated. */
  datatype ProjectFilter = ProjectFilter(userId: int, isPrivate: Option<bool>, search: Option<string>, orderBy: string, page: Page)

  datatype ProjectListResponse = ProjectListResponse(projects: seq<Project>, total: int)

  /** `_check_project_access`: the owner always passes; otherwise only a public project passes,
      and only when neither owner nor admin rights are asked for. */
  function CheckProjectAccess(p: Project, userId: int, requireOwner: bool, requireAdmin: bool): (r: bool)
    ensures p.ownerId == userId ==> r
    ensures p.ownerId != userId && p.isPrivate ==> !r
    ensures p.ownerId != userId && (requireOwner || requireAdmin) ==> !r
    ensures p.ownerId != userId && !p.isPrivate && !requireOwner && !requireAdmin ==> r
  {
    if p.ownerId == userId then true
    else if p.isPrivate then false
    else if !requireOwner && !requireAdmin then true
    else false
  }

  /** `_check_member_permission`: no row never passes; owner rights need role Owner, admin
      rights role Owner or Admin, and plain membership is enough otherwise. */
  function CheckMemberPermission(member: Option<Member>, requireOwner: bool, requireAdmin: bool): (r: bool)
    ensures member.None? ==> !r
    ensures member.Some? && member.value.role == OwnerRole ==> r
    ensures member.Some? && member.value.role == AdminRole ==> (r <==> !requireOwner)
    ensures member.Some? && member.value.role != OwnerRole && member.value.role != AdminRole ==> (r <==> !requireOwner && !requireAdmin)
  {
    if member.None? then false
    else if requireOwner then member.value.role == OwnerRole
    else if requireAdmin then member.value.role == OwnerRole || member.value.role == AdminRole
    else true
  }

  /** The check update_project, add_member and remove_member make inline: the owner, or a
      member whose role is Owner or Admin. */
  predicate MayAdminister(p: Project, member: Option<Member>, userId: int) {
    p.ownerId == userId || (member.Some? && member.value.role in {OwnerRole, AdminRole})
  }

  /** The inline check is exactly the two helpers combined with admin rights asked for. */
  lemma MayAdministerByHelpers(p: Project, member: Option<Member>, userId: int)
    ensures MayAdminister(p, member, userId) <==>
      CheckProjectAccess(p, userId, false, true) || CheckMemberPermission(member, false, true)
  {
  }

  /** `create_project`: an empty name is rejected before anything is written; otherwise the
      project is stored with both timestamps `now`, and its creator is added as a member with
      role Owner. The member insert can only fail if a row for the new id already exists, and
      then the project stays stored. */
  method CreateProject(store: ProjectStore, req: CreateProjectRequest, now: int) returns (r: Result<CreateProjectResponse, ProjectError>)
    requires store.Valid()
    modifies store
    ensures store.Valid()
    ensures req.name == "" ==>
      r == Failure(NameRequired) && store.projects == old(store.projects) && store.members == old(store.members)
    ensures req.name != "" ==>
      var id := old(store.nextProjectId);
      && id !in old(store.projects)
      && store.projects == old(store.projects)[id := Project(id, req.name, req.description.GetOr(""), req.isPrivate, req.ownerId, Some(now), Some(now))]
      && (FindMember(old(store.members), id, req.ownerId).Some? ==>
            r == Failure(MemberAlreadyExists(id, req.ownerId)) && store.members == old(store.members))
      && (FindMember(old(store.members), id, req.ownerId).None? ==>
            && r == Success(CreateProjectResponse(id, req.name, req.isPrivate, req.ownerId, Some(now)))
            && store.members == old(store.members) + [Member(old(store.nextMemberId), id, req.ownerId, OwnerRole, Some(now))])
    ensures r.Success? ==>
      var i := FindMember(store.members, r.value.projectId, req.ownerId);
      i.Some? && store.members[i.value].role == OwnerRole
  {
    if req.name == "" {
      return Failure(NameRequired);
    }
    var created := store.Create(ProjectCreateRequest(req.name, req.description, req.isPrivate, req.ownerId, Some(now), Some(now)));
    var p := created.value;
    var owner := store.CreateMember(MemberCreateRequest(p.id, req.ownerId, OwnerRole, Some(now)));
    if owner.Failure? {
      return Failure(owner.error);
    }
    r := Success(CreateProjectResponse(p.id, p.name, p.isPrivate, p.ownerId, p.createdAt));
    assert IsPair(store.members[|store.members| - 1], p.id, req.ownerId);
  }

  /** `get_project_by_id`: an unknown id is NotFound; a public project is readable by anyone,
      a private one only by its owner or by a user with a member row (any role). */
  function GetProjectById(store: ProjectStore, projectId: int, userId: int): (r: Result<Project, ProjectError>)
    requires store.Valid()
    reads store
    ensures projectId !in store.projects ==> r == Failure(ProjectNotFound(projectId))
    ensures projectId in store.projects ==>
      var p := store.projects[projectId];
      && (r.Success? <==> !p.isPrivate || p.ownerId == userId || exists m | m in store.members :: IsPair(m, projectId, userId))
      && (r.Success? ==> r.value == p)
      && (r.Failure? ==> r.error == AccessDenied(projectId, userId))
  {
    match store.GetById(projectId)
    case None => Failure(ProjectNotFound(projectId))
    case Some(p) =>
      if p.isPrivate && p.ownerId != userId && store.GetMember(projectId, userId).None? then
        Failure(AccessDenied(projectId, userId))
      else
        Success(p)
  }

  /** The read rule is the two helpers combined with no rights asked for. */
  lemma ReadRuleByHelpers(store: ProjectStore, projectId: int, userId: int)
    requires store.Valid() && projectId in store.projects
    ensures GetProjectById(store, projectId, userId).Success? <==>
      CheckProjectAccess(store.projects[projectId], userId, false, false) ||
      CheckMemberPermission(store.GetMember(projectId, userId), false, false)
  {
  }

  /** `update_project`: NotFound, then AccessDenied unless the requester may administer the
      project; on success the None fields are kept, updated_at becomes `now`, and nothing else
      in either table changes. */
  method UpdateProject(store: ProjectStore, req: UpdateProjectRequest, now: int) returns (r: Result<Project, ProjectError>)
    requires store.Valid()
    modifies store
    ensures store.Valid() && store.members == old(store.members)
    ensures req.projectId !in old(store.projects) ==>
      r == Failure(ProjectNotFound(req.projectId)) && store.projects == old(store.projects)
    ensures req.projectId in old(store.projects) && !MayAdminister(old(store.projects)[req.projectId], old(store.GetMember(req.projectId, req.userId)), req.userId) ==>
      r == Failure(AccessDenied(req.projectId, req.userId)) && store.projects == old(store.projects)
    ensures req.projectId in old(store.projects) && MayAdminister(old(store.projects)[req.projectId], old(store.GetMember(req.projectId, req.userId)), req.userId) ==>
      && r == Success(ApplyProjectUpdate(old(store.projects)[req.projectId], ProjectUpdateRequest(req.name, req.description, req.isPrivate, Some(now))))
      && store.projects == old(store.projects)[req.projectId := r.value]
  {
    var existing := store.GetById(req.projectId);
    if existing.None? {
      return Failure(ProjectNotFound(req.projectId));
    }
    if existing.value.ownerId != req.userId {
      var member := store.GetMember(req.projectId, req.userId);
      if member.None? || member.value.role !in {OwnerRole, AdminRole} {
        return Failure(AccessDenied(req.projectId, req.userId));
      }
    }
    r := store.Update(req.projectId, ProjectUpdateRequest(req.name, req.description, req.isPrivate, Some(now)));
  }

  /** The member query `delete_project` makes: only project_id is given, so the window is the
      default one and the order is "-id". */
  function DeleteQuery(projectId: int): (f: MemberFilter)
    ensures f.page == Page(DefaultLimit, DefaultOffset) && f.orderBy == DefaultOrderBy
  {
    MemberFilter(Some(projectId), None, None, DefaultOrderBy, ValidatePage(None, None).value)
  }

  /** The user ids of some member rows. */
  function UsersOf(rows: seq<Member>): (r: set<int>)
    ensures |r| <= |rows|
    ensures forall m | m in rows :: m.userId in r
    ensures forall u | u in r :: exists m | m in rows :: m.userId == u
  {
    if rows == [] then {} else {rows[0].userId} + UsersOf(rows[1..])
  }

  /** Two rows of the table with the same pair are the same row. */
  lemma SamePairSameRow(ms: seq<Member>, a: Member, b: Member)
    requires UniquePairs(ms) && a in ms && b in ms && IsPair(b, a.projectId, a.userId)
    ensures a == b
  {
    var i :| 0 <= i < |ms| && ms[i] == a;
    var j :| 0 <= j < |ms| && ms[j] == b;
  }

  lemma {:induction false} WithoutNobody(ms: seq<Member>, projectId: int)
    ensures WithoutUsers(ms, projectId, {}) == ms
  {
    if ms != [] {
      WithoutNobody(ms[1..], projectId);
      assert ms == [ms[0]] + ms[1..];
    }
  }

  /** The loop of `delete_project`: `delete_member(projectId, row.user_id)` for each fetched row.
      Every call finds its row (the rows are distinct rows of the project, so no earlier call
      removed it), and afterwards exactly the rows of those users in the project are gone. */
  method DeleteMemberRows(store: ProjectStore, projectId: int, rows: seq<Member>)
    requires store.Valid()
    requires forall m | m in rows :: m in store.members && m.projectId == projectId
    requires forall i, j | 0 <= i < j < |rows| :: rows[i].id != rows[j].id
    modifies store
    ensures store.Valid() && store.projects == old(store.projects)
    ensures store.members == WithoutUsers(old(store.members), projectId, UsersOf(rows))
  {
    WithoutNobody(store.members, projectId);
    var i := 0;
    while i < |rows|
      invariant 0 <= i <= |rows|
      invariant store.Valid() && store.projects == old(store.projects)
      invariant store.members == WithoutUsers(old(store.members), projectId, UsersOf(rows[..i]))
    {
      DeleteStep(old(store.members), projectId, rows, i);
      var _ := store.DeleteMember(projectId, rows[i].userId);
      i := i + 1;
    }
    assert rows[..i] == rows;
  }

  /** One turn of that loop: the row is still there, and deleting it extends the deleted set. */
  lemma DeleteStep(ms: seq<Member>, projectId: int, rows: seq<Member>, i: nat)
    requires UniquePairs(ms) && i < |rows|
    requires forall m | m in rows :: m in ms && m.projectId == projectId
    requires forall a, b | 0 <= a < b < |rows| :: rows[a].id != rows[b].id
    ensures FindMember(WithoutUsers(ms, projectId, UsersOf(rows[..i])), projectId, rows[i].userId).Some?
    ensures WithoutUsers(WithoutUsers(ms, projectId, UsersOf(rows[..i])), projectId, {rows[i].userId})
         == WithoutUsers(ms, projectId, UsersOf(rows[..i + 1]))
  {
    var row := rows[i];
    assert rows[..i + 1] == rows[..i] + [row];
    UsersOfAppend(rows[..i], row);
    assert row.userId !in UsersOf(rows[..i]) by {
      if row.userId in UsersOf(rows[..i]) {
        var other :| other in rows[..i] && other.userId == row.userId;
        var k :| 0 <= k < i && rows[k] == other;
        SamePairSameRow(ms, row, other);
        assert false;
      }
    }
    var current := WithoutUsers(ms, projectId, UsersOf(rows[..i]));
    assert row in current;
    var j :| 0 <= j < |current| && current[j] == row;
    assert IsPair(current[j], projectId, row.userId);
    WithoutUsersStep(ms, projectId, UsersOf(rows[..i]), row.userId);
  }

  lemma {:induction false} UsersOfAppend(rows: seq<Member>, m: Member)
    ensures UsersOf(rows + [m]) == UsersOf(rows) + {m.userId}
  {
    if rows != [] {
      assert (rows + [m])[1..] == rows[1..] + [m];
      UsersOfAppend(rows[1..], m);
    }
  }

  /** `delete_project` as written: NotFound, then AccessDenied for anyone but the owner (an Owner
      or Admin member is refused too); then the member rows the default query returns are
      deleted one by one, and the project row. That query returns at most 20 rows. */
  method DeleteProject(store: ProjectStore, projectId: int, userId: int) returns (r: Result<(), ProjectError>)
    requires store.Valid()
    modifies store
    ensures store.Valid()
    ensures projectId !in old(store.projects) ==>
      r == Failure(ProjectNotFound(projectId)) && store.projects == old(store.projects) && store.members == old(store.members)
    ensures projectId in old(store.projects) && old(store.projects)[projectId].ownerId != userId ==>
      r == Failure(AccessDenied(projectId, userId)) && store.projects == old(store.projects) && store.members == old(store.members)
    ensures projectId in old(store.projects) && old(store.projects)[projectId].ownerId == userId ==>
      && r == Success(())
      && store.projects == old(store.projects) - {projectId}
      && store.members == WithoutUsers(old(store.members), projectId, UsersOf(old(store.GetMembers(DeleteQuery(projectId)))))
  {
    var existing := store.GetById(projectId);
    if existing.None? {
      return Failure(ProjectNotFound(projectId));
    }
    if existing.value.ownerId != userId {
      return Failure(AccessDenied(projectId, userId));
    }
    var q := DeleteQuery(projectId);
    assert MemberOrderBy(q.orderBy) == "-id" by { MemberOrderByCreatedAt(); }
    var rows := store.GetMembers(q);
    DeleteMemberRows(store, projectId, rows);
    var _ := store.Delete(projectId);
    r := Success(());
  }

  lemma SubsetCard(a: set<int>, b: set<int>)
    requires a <= b
    ensures |a| <= |b|
  {
    assert b == a + (b - a);
    assert a * (b - a) == {};
  }

  /** Adding a new element to a set adds one to its size. */
  lemma CardAddNew(x: int, s: set<int>)
    requires x !in s
    ensures |{x} + s| == |s| + 1
  {
    assert {x} * s == {};
  }

  /** The rows after the first of a table with unique pairs have unique pairs. */
  lemma UniqueTail(ms: seq<Member>)
    requires UniquePairs(ms) && ms != []
    ensures UniquePairs(ms[1..])
  {
    var tail := ms[1..];
    forall i, j | 0 <= i < j < |tail| ensures !IsPair(tail[j], tail[i].projectId, tail[i].userId) {
      assert tail[i] == ms[i + 1] && tail[j] == ms[j + 1];
    }
  }

  /** Rows of one project with unique pairs have as many users as rows. */
  lemma {:induction false} UsersOfProjectRows(rows: seq<Member>, projectId: int)
    requires UniquePairs(rows) && forall m | m in rows :: m.projectId == projectId
    ensures |UsersOf(rows)| == |rows|
  {
    if rows != [] {
      UniqueTail(rows);
      assert forall m | m in rows[1..] :: m in rows;
      UsersOfProjectRows(rows[1..], projectId);
      HeadUserNew(rows, projectId);
      CardAddNew(rows[0].userId, UsersOf(rows[1..]));
    }
  }

  /** In a project's rows, the first row's user appears in no later row. */
  lemma HeadUserNew(rows: seq<Member>, projectId: int)
    requires UniquePairs(rows) && rows != []
    requires forall m | m in rows :: m.projectId == projectId
    ensures rows[0].userId !in UsersOf(rows[1..])
  {
    var tail := rows[1..];
    forall u | u in UsersOf(tail) ensures u != rows[0].userId {
      var m :| m in tail && m.userId == u;
      var t :| 0 <= t < |tail| && tail[t] == m;
      assert rows[t + 1] == m;
    }
  }

  lemma {:induction false} SelectUnique(ms: seq<Member>, f: MemberFilter)
    requires UniquePairs(ms)
    ensures UniquePairs(Select(ms, f))
  {
    if ms != [] {
      assert UniquePairs(ms[1..]) by {
        forall i, j | 0 <= i < j < |ms[1..]| ensures !IsPair(ms[1..][j], ms[1..][i].projectId, ms[1..][i].userId) {
          assert ms[1..][i] == ms[i + 1] && ms[1..][j] == ms[j + 1];
        }
      }
      SelectUnique(ms[1..], f);
      var rest := Select(ms[1..], f);
      if Matches(ms[0], f) {
        forall j | 0 <= j < |rest| ensures !IsPair(rest[j], ms[0].projectId, ms[0].userId) {
          assert rest[j] in rest;
          var k :| 0 <= k < |ms[1..]| && ms[1..][k] == rest[j];
          assert ms[k + 1] == rest[j];
        }
        var r := [ms[0]] + rest;
        forall i, j | 0 <= i < j < |r| ensures !IsPair(r[j], r[i].projectId, r[i].userId) {
          if i > 0 {
            assert r[i] == rest[i - 1] && r[j] == rest[j - 1];
          }
        }
      }
    }
  }

  /** The defect of `delete_project`: when a project has more than 20 member rows, some of
      them are still in the table after it succeeds. */
  lemma DeleteProjectLeavesMembers(ms: seq<Member>, projectId: int, rows: seq<Member>)
    requires UniquePairs(ms) && projectId != 0
    requires |rows| <= DefaultLimit
    requires |Select(ms, DeleteQuery(projectId))| > DefaultLimit
    ensures exists m | m in WithoutUsers(ms, projectId, UsersOf(rows)) :: m.projectId == projectId
  {
    var all := Select(ms, DeleteQuery(projectId));
    SelectUnique(ms, DeleteQuery(projectId));
    UsersOfProjectRows(all, projectId);
    if UsersOf(all) <= UsersOf(rows) {
      SubsetCard(UsersOf(all), UsersOf(rows));
      assert false;
    }
    var u :| u in UsersOf(all) && u !in UsersOf(rows);
    var m :| m in all && m.userId == u;
    assert m in WithoutUsers(ms, projectId, UsersOf(rows));
  }

  /** `delete_project` as intended: every member row of the project is deleted, not only the
      first window of them. */
  method DeleteProjectAllMembers(store: ProjectStore, projectId: int, userId: int) returns (r: Result<(), ProjectError>)
    requires store.Valid()
    modifies store
    ensures store.Valid()
    ensures projectId !in old(store.projects) ==>
      r == Failure(ProjectNotFound(projectId)) && store.projects == old(store.projects) && store.members == old(store.members)
    ensures projectId in old(store.projects) && old(store.projects)[projectId].ownerId != userId ==>
      r == Failure(AccessDenied(projectId, userId)) && store.projects == old(store.projects) && store.members == old(store.members)
    ensures projectId in old(store.projects) && old(store.projects)[projectId].ownerId == userId ==>
      && r == Success(())
      && store.projects == old(store.projects) - {projectId}
      && (forall m | m in store.members :: m in old(store.members) && m.projectId != projectId)
      && (forall m | m in old(store.members) && m.projectId != projectId :: m in store.members)
  {
    var existing := store.GetById(projectId);
    if existing.None? {
      return Failure(ProjectNotFound(projectId));
    }
    if existing.value.ownerId != userId {
      return Failure(AccessDenied(projectId, userId));
    }
    var rows := Select(store.members, DeleteQuery(projectId));
    SelectIncreasing(store.members, DeleteQuery(projectId));
    ghost var before := store.members;
    DeleteMemberRows(store, projectId, rows);
    var _ := store.Delete(projectId);
    r := Success(());
  }

  /** `add_member`: NotFound, then AccessDenied unless the requester may administer the
      project; then the repository insert, which refuses an existing pair. */
  method AddMember(store: ProjectStore, req: AddMemberRequest, now: int) returns (r: Result<Member, ProjectError>)
    requires store.Valid()
    modifies store
    ensures store.Valid() && store.projects == old(store.projects)
    ensures req.projectId !in old(store.projects) ==>
      r == Failure(ProjectNotFound(req.projectId)) && store.members == old(store.members)
    ensures req.projectId in old(store.projects) && !MayAdminister(old(store.projects)[req.projectId], old(store.GetMember(req.projectId, req.userId)), req.userId) ==>
      r == Failure(AccessDenied(req.projectId, req.userId)) && store.members == old(store.members)
    ensures req.projectId in old(store.projects) && MayAdminister(old(store.projects)[req.projectId], old(store.GetMember(req.projectId, req.userId)), req.userId) ==>
      && (FindMember(old(store.members), req.projectId, req.newUserId).Some? ==>
            r == Failure(MemberAlreadyExists(req.projectId, req.newUserId)) && store.members == old(store.members))
      && (FindMember(old(store.members), req.projectId, req.newUserId).None? ==>
            && r == Success(Member(old(store.nextMemberId), req.projectId, req.newUserId, req.role, Some(now)))
            && store.members == old(store.members) + [r.value])
  {
    var project := store.GetById(req.projectId);
    if project.None? {
      return Failure(ProjectNotFound(req.projectId));
    }
    if project.value.ownerId != req.userId {
      var member := store.GetMember(req.projectId, req.userId);
      if member.None? || member.value.role !in {OwnerRole, AdminRole} {
        return Failure(AccessDenied(req.projectId, req.userId));
      }
    }
    r := store.CreateMember(MemberCreateRequest(req.projectId, req.newUserId, req.role, Some(now)));
  }

  /** `remove_member`: NotFound, AccessDenied unless the requester may administer the project,
      AccessDenied again when the target is the owner, MemberNotFound when the target has no
      row; on success exactly the target's row in this project is gone. */
  method RemoveMember(store: ProjectStore, req: RemoveMemberRequest) returns (r: Result<(), ProjectError>)
    requires store.Valid()
    modifies store
    ensures store.Valid() && store.projects == old(store.projects)
    ensures r.Failure? ==> store.members == old(store.members)
    ensures req.projectId !in old(store.projects) ==> r == Failure(ProjectNotFound(req.projectId))
    ensures req.projectId in old(store.projects) ==>
      var p := old(store.projects)[req.projectId];
      && (!MayAdminister(p, old(store.GetMember(req.projectId, req.userId)), req.userId) ==>
            r == Failure(AccessDenied(req.projectId, req.userId)))
      && (MayAdminister(p, old(store.GetMember(req.projectId, req.userId)), req.userId) && p.ownerId == req.removeUserId ==>
            r == Failure(AccessDenied(req.projectId, req.userId)))
      && (MayAdminister(p, old(store.GetMember(req.projectId, req.userId)), req.userId) && p.ownerId != req.removeUserId &&
          FindMember(old(store.members), req.projectId, req.removeUserId).None? ==>
            r == Failure(MemberNotFound(req.projectId, req.removeUserId)))
    ensures r.Success? ==>
      && req.projectId in old(store.projects)
      && old(store.projects)[req.projectId].ownerId != req.removeUserId
      && FindMember(old(store.members), req.projectId, req.removeUserId).Some?
      && store.members == WithoutUsers(old(store.members), req.projectId, {req.removeUserId})
  {
    var project := store.GetById(req.projectId);
    if project.None? {
      return Failure(ProjectNotFound(req.projectId));
    }
    if project.value.ownerId != req.userId {
      var member := store.GetMember(req.projectId, req.userId);
      if member.None? || member.value.role !in {OwnerRole, AdminRole} {
        return Failure(AccessDenied(req.projectId, req.userId));
      }
    }
    if project.value.ownerId == req.removeUserId {
      return Failure(AccessDenied(req.projectId, req.userId));
    }
    var target := store.GetMember(req.projectId, req.removeUserId);
    if target.None? {
      return Failure(MemberNotFound(req.projectId, req.removeUserId));
    }
    r := store.DeleteMember(req.projectId, req.removeUserId);
  }

  /** `update_member_role`: NotFound, AccessDenied for anyone but the owner, AccessDenied when
      the target is the owner, MemberNotFound when the target has no row; on success only the
      target's role changes. */
  method UpdateMemberRole(store: ProjectStore, req: UpdateMemberRoleRequest) returns (r: Result<Member, ProjectError>)
    requires store.Valid()
    modifies store
    ensures store.Valid() && store.projects == old(store.projects)
    ensures r.Failure? ==> store.members == old(store.members)
    ensures req.projectId !in old(store.projects) ==> r == Failure(ProjectNotFound(req.projectId))
    ensures req.projectId in old(store.projects) ==>
      var p := old(store.projects)[req.projectId];
      && (p.ownerId != req.userId ==> r == Failure(AccessDenied(req.projectId, req.userId)))
      && (p.ownerId == req.userId && p.ownerId == req.updateUserId ==> r == Failure(AccessDenied(req.projectId, req.userId)))
      && (p.ownerId == req.userId && p.ownerId != req.updateUserId && FindMember(old(store.members), req.projectId, req.updateUserId).None? ==>
            r == Failure(MemberNotFound(req.projectId, req.updateUserId)))
    ensures r.Success? ==>
      && req.projectId in old(store.projects)
      && old(store.projects)[req.projectId].ownerId == req.userId != req.updateUserId
      && FindMember(old(store.members), req.projectId, req.updateUserId).Some?
      && var i := FindMember(old(store.members), req.projectId, req.updateUserId).value;
         store.members == old(store.members)[i := old(store.members)[i].(role := req.newRole)]
  {
    var project := store.GetById(req.projectId);
    if project.None? {
      return Failure(ProjectNotFound(req.projectId));
    }
    if project.value.ownerId != req.userId {
      return Failure(AccessDenied(req.projectId, req.userId));
    }
    if project.value.ownerId == req.updateUserId {
      return Failure(AccessDenied(req.projectId, req.userId));
    }
    var target := store.GetMember(req.projectId, req.updateUserId);
    if target.None? {
      return Failure(MemberNotFound(req.projectId, req.updateUserId));
    }
    r := store.UpdateMember(req.projectId, req.updateUserId, Some(req.newRole));
  }

  /** The member query of `get_projects`: the requester's rows with the request's order. Its
      limit and offset are None, so the default window applies. */
  function MembershipQuery(req: ProjectFilter): (f: MemberFilter)
    ensures f.page == Page(DefaultLimit, DefaultOffset) && f.userId == Some(req.userId) && f.role.None?
  {
    MemberFilter(None, Some(req.userId), None, req.orderBy, ValidatePage(None, None).value)
  }

  /** The is_private and search filters `get_projects` applies to a member project itself; the
      search is a case-insensitive substring test on name or description. */
  predicate PassesFilters(p: Project, req: ProjectFilter) {
    && (req.isPrivate.Some? ==> p.isPrivate == req.isPrivate.value)
    && (req.search.Some? && req.search.value != "" ==>
          Text.Contains(Text.Lower(p.name), Text.Lower(req.search.value)) ||
          Text.Contains(Text.Lower(p.description), Text.Lower(req.search.value)))
  }

  predicate DistinctIds(ps: seq<Project>) {
    forall i, j | 0 <= i < j < |ps| :: ps[i].id != ps[j].id
  }

  function IdsOf(ps: seq<Project>): set<int> {
    set p | p in ps :: p.id
  }

  /** `d[p.project_id] = p` on a dict kept as its values in insertion order: a row with the same
      id is replaced in place, otherwise `p` goes at the end. */
  function Put(ps: seq<Project>, p: Project): (r: seq<Project>)
    ensures DistinctIds(ps) ==> DistinctIds(r)
    ensures p in r
    ensures forall q | q in r :: q == p || q in ps
    ensures forall q | q in ps && q.id != p.id :: q in r
  {
    if ps == [] then [p]
    else if ps[0].id == p.id then
      assert forall q | q in ps[1..] :: q in ps;
      [p] + ps[1..]
    else
      var rest := Put(ps[1..], p);
      assert ps == [ps[0]] + ps[1..];
      var r := [ps[0]] + rest;
      assert DistinctIds(ps) ==> DistinctIds(r) by {
        if DistinctIds(ps) {
          forall j | 0 < j < |r| ensures r[0].id != r[j].id {
            assert r[j] == rest[j - 1];
            assert r[j] in rest;
            if r[j] != p {
              var k :| 0 <= k < |ps[1..]| && ps[1..][k] == r[j];
              assert ps[k + 1] == r[j];
            }
          }
        }
      }
      r
  }

  /** `d[p.project_id] = p` adds `p`'s id to the keys and no other. */
  lemma PutIds(ps: seq<Project>, p: Project)
    ensures IdsOf(Put(ps, p)) == IdsOf(ps) + {p.id}
  {
    var r := Put(ps, p);
    forall id | id in IdsOf(ps) + {p.id} ensures id in IdsOf(r) {
      if id != p.id {
        var q :| q in ps && q.id == id;
        assert q in r;
      }
    }
  }

  /** A member project `get_projects` may report: stored, owned by someone else, passing the
      filters, and reached through one of the requester's member rows. */
  ghost predicate MemberProject(store: ProjectStore, req: ProjectFilter, p: Project)
    reads store
  {
    && p.id in store.projects && store.projects[p.id] == p
    && p.ownerId != req.userId
    && PassesFilters(p, req)
    && exists m | m in store.members :: m.projectId == p.id && Matches(m, MembershipQuery(req))
  }

  /** The project `projectId` is one `get_projects` keeps when a member row leads to it: it
      exists, is owned by someone else and passes the filters. */
  predicate Qualifies(store: ProjectStore, req: ProjectFilter, projectId: int)
    reads store
  {
    projectId in store.projects && store.projects[projectId].ownerId != req.userId
    && PassesFilters(store.projects[projectId], req)
  }

  /** The loop over the requester's member rows: each project id is looked up once, and kept
      when it exists, is owned by someone else and passes the filters. */
  method CollectMemberProjects(store: ProjectStore, req: ProjectFilter, memberRows: seq<Member>) returns (found: seq<Project>)
    requires store.Valid()
    requires forall m | m in memberRows :: m in store.members && Matches(m, MembershipQuery(req))
    ensures forall p | p in found :: MemberProject(store, req, p)
    ensures forall p | p in found :: exists m | m in memberRows :: m.projectId == p.id
    ensures forall m | m in memberRows && Qualifies(store, req, m.projectId) :: store.projects[m.projectId] in found
  {
    var seen: set<int> := {};
    found := [];
    var i := 0;
    while i < |memberRows|
      invariant 0 <= i <= |memberRows|
      invariant forall p | p in found :: MemberProject(store, req, p)
      invariant forall p | p in found :: exists m | m in memberRows :: m.projectId == p.id
      invariant forall j | 0 <= j < i :: memberRows[j].projectId in seen
      invariant forall id | id in seen && Qualifies(store, req, id) :: store.projects[id] in found
    {
      var projectId := memberRows[i].projectId;
      if projectId !in seen {
        seen := seen + {projectId};
        var project := store.GetById(projectId);
        if project.Some? && project.value.ownerId != req.userId && PassesFilters(project.value, req) {
          assert memberRows[i] in store.members;
          found := found + [project.value];
        }
      }
      i := i + 1;
    }
  }

  /** The dict built from the owned projects and then updated with the member projects: one
      entry per id, every owned id present, every entry from one of the two lists. */
  method MergeById(owned: seq<Project>, extra: seq<Project>) returns (all: seq<Project>)
    ensures DistinctIds(all)
    ensures forall p | p in all :: p in owned || p in extra
    ensures IdsOf(owned) + IdsOf(extra) == IdsOf(all)
  {
    all := [];
    var k := 0;
    while k < |owned|
      invariant 0 <= k <= |owned|
      invariant DistinctIds(all)
      invariant forall p | p in all :: p in owned
      invariant IdsOf(owned[..k]) == IdsOf(all)
    {
      assert owned[..k + 1] == owned[..k] + [owned[k]];
      assert IdsOf(owned[..k + 1]) == IdsOf(owned[..k]) + {owned[k].id};
      PutIds(all, owned[k]);
      all := Put(all, owned[k]);
      k := k + 1;
    }
    assert owned[..k] == owned;
    k := 0;
    while k < |extra|
      invariant 0 <= k <= |extra|
      invariant DistinctIds(all)
      invariant forall p | p in all :: p in owned || p in extra
      invariant IdsOf(owned) + IdsOf(extra[..k]) == IdsOf(all)
    {
      assert extra[..k + 1] == extra[..k] + [extra[k]];
      assert IdsOf(extra[..k + 1]) == IdsOf(extra[..k]) + {extra[k].id};
      PutIds(all, extra[k]);
      all := Put(all, extra[k]);
      k := k + 1;
    }
    assert extra[..k] == extra;
  }

  /** The pagination slice of the merged list keeps ids distinct and, when it starts at 0 and is
      not full, keeps every id. */
  lemma WindowOfDistinct(all: seq<Project>, p: Page)
    requires p.limit >= 1 && p.offset >= 0 && DistinctIds(all)
    ensures DistinctIds(Window(all, p))
    ensures forall x | x in Window(all, p) :: x in all
    ensures p.offset == 0 && |Window(all, p)| < p.limit ==> IdsOf(Window(all, p)) == IdsOf(all)
  {
    var w := Window(all, p);
    WindowFacts(all, p);
    forall i, j | 0 <= i < j < |w| ensures w[i].id != w[j].id {
      assert w[i] == all[p.offset + i] && w[j] == all[p.offset + j];
    }
  }

  /** `get_projects`: the owned projects (the repository query's result, given as `owned`)
      merged with the member projects found through the requester's member rows, without
      duplicate ids, then cut to the request's window; total is the number returned. */
  method GetProjects(store: ProjectStore, req: ProjectFilter, owned: seq<Project>) returns (r: ProjectListResponse)
    requires store.Valid() && req.page.limit >= 1 && req.page.offset >= 0
    ensures r.total == |r.projects| <= req.page.limit
    ensures DistinctIds(r.projects)
    ensures forall p | p in r.projects :: p in owned || MemberProject(store, req, p)
    ensures forall p | p in r.projects && p !in owned ::
      exists m | m in store.GetMembers(MembershipQuery(req)) :: m.projectId == p.id
    ensures req.page.offset == 0 && |r.projects| < req.page.limit ==> IdsOf(owned) <= IdsOf(r.projects)
    // Member projects are complete only relative to the member rows the query fetched, which
    // is the default window of 20 rows.
    ensures req.page.offset == 0 && |r.projects| < req.page.limit ==>
      forall m | m in store.GetMembers(MembershipQuery(req)) && Qualifies(store, req, m.projectId) ::
        m.projectId in IdsOf(r.projects)
  {
    var memberRows := store.GetMembers(MembershipQuery(req));
    var memberProjects := CollectMemberProjects(store, req, memberRows);
    var all := MergeById(owned, memberProjects);
    var projects := Window(all, req.page);
    WindowOfDistinct(all, req.page);
    r := ProjectListResponse(projects, |projects|);
  }

  /** The defect of `get_projects`: the membership query asks for every row but gets the
      default window, so when the requester has more than 20 member rows, one of their projects
      is reached through none of the fetched rows (a (project, user) pair has one row). Such a
      project is then missing from the result unless it is among the owned ones. */
  lemma MembershipWindowMissesProject(store: ProjectStore, req: ProjectFilter)
    requires store.Valid() && req.userId != 0
    requires |Select(store.members, MembershipQuery(req))| > DefaultLimit
    ensures exists m | m in store.members && m.userId == req.userId ::
      forall f | f in store.GetMembers(MembershipQuery(req)) :: f.projectId != m.projectId
  {
    var q := MembershipQuery(req);
    var all := Ordered(Select(store.members, q), MemberOrderBy(q.orderBy));
    var m := OrderedBeyondWindow(store.members, q);
    forall f | f in store.GetMembers(q) ensures f.projectId != m.projectId {
      assert f in all[..DefaultLimit];
      OnePairOneRow(store.members, f, m);
    }
  }

  /** The row just past the default window of the member query: a matching row, with an id
      none of the rows in the window has. */
  lemma OrderedBeyondWindow(ms: seq<Member>, q: MemberFilter) returns (m: Member)
    requires Increasing(ms) && q.page == Page(DefaultLimit, DefaultOffset)
    requires |Select(ms, q)| > DefaultLimit
    ensures var all := Ordered(Select(ms, q), MemberOrderBy(q.orderBy));
      && m == all[DefaultLimit] && m in ms && Matches(m, q)
      && Window(all, q.page) == all[..DefaultLimit]
      && forall f | f in all[..DefaultLimit] :: f.id != m.id
  {
    var sel := Select(ms, q);
    SelectIncreasing(ms, q);
    var all := Ordered(sel, MemberOrderBy(q.orderBy));
    m := all[DefaultLimit];
    assert m in sel;
    assert Window(all, q.page) == all[..DefaultLimit];
    forall f | f in all[..DefaultLimit] ensures f.id != m.id {
      var k :| 0 <= k < DefaultLimit && all[k] == f;
      if MemberOrderBy(q.orderBy) == "-id" {
        assert Decreasing(all);
      } else {
        assert all == sel;
      }
    }
  }

  /** Two rows of a table with unique pairs that share project and user are the same row. */
  lemma OnePairOneRow(ms: seq<Member>, f: Member, m: Member)
    requires UniquePairs(ms) && f in ms && m in ms
    ensures f.projectId == m.projectId && f.userId == m.userId ==> f == m
  {
    var a :| 0 <= a < |ms| && ms[a] == f;
    var b :| 0 <= b < |ms| && ms[b] == m;
    if a < b {
      assert !IsPair(ms[b], ms[a].projectId, ms[a].userId);
    } else if b < a {
      assert !IsPair(ms[a], ms[b].projectId, ms[b].userId);
    }
  }

  /** `get_projects` as intended: every membership row of the requester is looked at, not
      only the first window of them. */
  method GetProjectsAllMemberships(store: ProjectStore, req: ProjectFilter, owned: seq<Project>) returns (r: ProjectListResponse)
    requires store.Valid() && req.page.limit >= 1 && req.page.offset >= 0
    ensures r.total == |r.projects| <= req.page.limit
    ensures DistinctIds(r.projects)
    ensures forall p | p in r.projects :: p in owned || MemberProject(store, req, p)
    ensures req.page.offset == 0 && |r.projects| < req.page.limit ==> IdsOf(owned) <= IdsOf(r.projects)
    ensures req.page.offset == 0 && |r.projects| < req.page.limit ==>
      forall m | m in store.members && Matches(m, MembershipQuery(req)) && Qualifies(store, req, m.projectId) ::
        m.projectId in IdsOf(r.projects)
  {
    var q := MembershipQuery(req);
    var memberRows := Ordered(Select(store.members, q), MemberOrderBy(q.orderBy));
    var memberProjects := CollectMemberProjects(store, req, memberRows);
    var all := MergeById(owned, memberProjects);
    var projects := Window(all, req.page);
    WindowOfDistinct(all, req.page);
    r := ProjectListResponse(projects, |projects|);
  }
}
