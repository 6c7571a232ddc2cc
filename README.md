# MyTodoList core, modelled in Dafny

MyTodoList is a todo backend in a layered style:
- Repositories (`backend/repository/*/service.py`) read and write one table each.
- Use-case services (`backend/usecase/*/service.py`) check access, fill in timestamps and
  call the repositories.
- A shared filter base (`backend/lib/base_models.py`) validates pagination and supplies the
  default window of 20 rows and the default ordering `-id`.

This project models these core parts:
- the todo, project (with members), subtask, kanban column and reminder tables and their
  repositories;
- the use cases for todos, todo dependencies, projects, subtasks, the kanban board, bulk
  operations and reminder processing;
- the string validators;
- the rule-based fallback of the LLM service.

Each module follows one source file:

| module | file | source |
|---|---|---|
| `BaseModels` | base_models.dfy | backend/lib/base_models.py, plus the query pipeline every repository shares: filter, `order_by`, then the `[offset:offset+limit]` slice |
| `Text` | text.dfy | the Python string operations the core relies on: `in`, `lower`, `replace`, `strip`, `split`, `join` |
| `TodoRepository` | todo_repository.dfy | backend/repository/todo/service.py |
| `TodoManagement` | todo_management.dfy | backend/usecase/todo_management/service.py |
| `TodoGraph`, `TodoDependency` | todo_graph.dfy, todo_dependency.dfy | backend/usecase/todo_dependency_management/service.py |
| `ProjectRepository` | project_repository.dfy | backend/repository/project/service.py |
| `ProjectManagement` | project_management.dfy | backend/usecase/project_management/service.py |
| `SubtaskRepository` | subtask_repository.dfy | backend/repository/subtask/service.py |
| `SubtaskManagement` | subtask_management.dfy | backend/usecase/subtask_management/service.py |
| `KanbanRepository` | kanban_repository.dfy | backend/repository/kanban/service.py |
| `KanbanManagement` | kanban_management.dfy | backend/usecase/kanban_management/service.py |
| `BulkOperations` | bulk_operations.dfy | backend/usecase/bulk_operations/service.py |
| `ReminderRepository` | reminder_repository.dfy | backend/repository/reminder/service.py |
| `ReminderManagement` | reminder_management.dfy | backend/usecase/reminder_management/service.py |
| `Validators` | validators.dfy | backend/lib/validators.py |
| `LlmFallback` | llm_fallback.dfy | backend/externals/llm/service.py (the two rule-based fallbacks) |

How the source maps onto Dafny:
- Each repository is a class whose table is a field and whose methods change it in place:
  - the todo table is a `map` from id to row;
  - the other tables are sequences of rows in insertion order, so in ascending id order,
    because ids come from an auto-increment counter (`nextId`);
  - `Valid()` states that invariant, and each method keeps it.
- Each use case is a method that takes the stores it uses.
- `now` is a parameter; it replaces the date-time service.
- Exceptions become `Result` failures. Every method states what it writes on each path,
  including the error paths. These write nothing, with one exception, as in the source:
  when `create_project` cannot add the owner's member row, the project it has already
  saved stays stored.
- The `-id` ordering plus the 20-row default window is modelled wherever a query gets it:
  the repository queries, the member queries of `get_projects` and `delete_project`, the
  existing-rows queries of `add_subtask` and `create_column`, and the subtask query behind
  todo progress. Six of the defects listed under Findings come from that window.
- Python truthiness is explicit:
  - an id or link is "set" only when it is present and non-zero (`IsSet`);
  - `x or default` is written out.

## Model

| member | source | states |
|---|---|---|
| `BaseModels.CheckLimit` | backend/lib/base_models.py:38-42 | a given limit below 1 is rejected, None and any limit of at least 1 pass unchanged |
| `BaseModels.CheckOffset` | backend/lib/base_models.py:44-48 | a given offset below 0 is rejected, None and any offset of at least 0 pass unchanged |
| `BaseModels.ValidatePage` | backend/lib/base_models.py:34-55 | failure iff the limit is below 1 or the offset below 0 (limit checked first); a half-given window becomes (20, 0); a fully given valid window is kept; a result always has limit >= 1 and offset >= 0 |
| `BaseModels.ValidatePageStable` | backend/lib/base_models.py:50-55 | validating an already validated window gives it back |
| `BaseModels.Filter.constructor` | backend/lib/base_models.py:31-36 | a new filter has ordering `-id` and the limit and offset given |
| `BaseModels.Filter.Validate` | backend/lib/base_models.py:38-55 | the filter's fields after validation are exactly what `ValidatePage` computes, and the ordering is untouched |
| `BaseModels.AsDict` | backend/lib/base_models.py:57-60 | the dict holds no pagination or ordering key, holds every other field whose value is not None, and each entry comes from such a field |
| `BaseModels.Window` | backend/repository/todo/service.py:110-112 | the slice `[offset:offset+limit]`: at most `limit` rows, exactly `min(limit, rows after offset)`, and row i is row `offset + i` of the input |
| `BaseModels.WindowFacts` | backend/repository/todo/service.py:110-112 | a window holds only input rows; a window from 0 that is not full holds all of them |
| `BaseModels.Reverse` | backend/lib/base_models.py:34 | the rows in reverse order, which is `-id` order on an auto-increment table |
| `BaseModels.SortBy` | backend/repository/subtask/service.py:65-66 | `order_by(<key>)` keeps the same rows, as a multiset |
| `BaseModels.SortBySorted` | backend/repository/subtask/service.py:65-66 | the sorted rows ascend in the key |
| `BaseModels.Where` | backend/repository/todo/service.py:68-105 | the filtered rows are exactly the input rows that pass, and there are no more of them than input rows |
| `BaseModels.NextKey` | backend/usecase/subtask_management/service.py:87-91 | `max(key) + 1` over the rows, or 0 when there are none: above every key and one past some key |
| `BaseModels.NextKeySameElements` | backend/usecase/subtask_management/service.py:87-91 | the next key depends only on which rows there are |
| `BaseModels.Arrange` | backend/repository/subtask/service.py:65-66 | ordering keeps the rows; `order` gives rows sorted by order, `-id` gives strictly descending ids |
| `BaseModels.Query` | backend/repository/subtask/service.py:54-74 | a list query returns at most `limit` rows, each passing the filters; from offset 0 it returns `min(limit, matches)` rows, and all matches when they fit; the order is sorted or newest first as asked |
| `BaseModels.FindBy` | backend/repository/kanban/service.py:49 | lookup by primary key: the index of the row with that id, None exactly when there is none |
| `BaseModels.FindByAscending` | backend/repository/reminder/service.py:50 | on a table in ascending id order, looking up a row's id finds that row |
| `Text.ContainsAt` | backend/repository/project/service.py:171 | `pat in s` holds exactly when `pat` occurs at some index of `s` |
| `Text.Lower` | backend/externals/llm/service.py:228 | `lower()` keeps the length and maps each character on its own |
| `Text.ReplaceAll` | backend/repository/project/service.py:171-172 | `replace` leaves a string without the pattern unchanged, and a string holding the pattern gives a result holding the replacement |
| `Text.ReplaceLeftmost` | backend/repository/project/service.py:171-172 | the leftmost occurrence is replaced: everything before it is kept and the replacement of the rest follows the new text |
| `Text.Strip` | backend/externals/llm/service.py:215 | `strip()` is empty exactly for a blank string; otherwise it is the slice between the leading and the trailing spaces, with no space at either end |
| `Text.StripIdempotent` | backend/externals/llm/service.py:223 | stripping a stripped string changes nothing |
| `Text.Split` | backend/externals/llm/service.py:223 | `split('\n')` gives at least one piece, no piece holds the separator, joining the pieces back gives the string, and the first piece runs to the first separator |
| `Text.SplitJoin` | backend/externals/llm/service.py:225 | splitting a join of separator-free pieces gives the pieces back |
| `TodoRepository.FromCreate` | backend/repository/todo/service.py:27-43 | the stored row carries every request field as given, with "" for a missing description or category and [] for missing labels |
| `TodoRepository.ApplyUpdate` | backend/repository/todo/service.py:127-156 | field by field, a None field keeps the stored value and a given one overwrites it; updated_at only when truthy; id, owner and created_at are never written; a link can be set but never reset to None |
| `TodoRepository.ApplyUpdateIdempotent` | backend/repository/todo/service.py:127-156 | saving the same update twice stores the same row as saving it once |
| `TodoRepository.TodoStore.Create` | backend/repository/todo/service.py:20-49 | an empty title raises TitleRequired and stores nothing; otherwise the row goes under a fresh id and no other row changes |
| `TodoRepository.TodoStore.GetById` | backend/repository/todo/service.py:51-61 | None exactly for an unknown id, otherwise the stored row |
| `TodoRepository.TodoStore.Update` | backend/repository/todo/service.py:118-162 | an unknown id raises NotFound and writes nothing; otherwise only that row changes, to `ApplyUpdate` of it |
| `TodoRepository.TodoStore.ClearLink` | backend/usecase/todo_dependency_management/service.py:165-179 | the write the corrected `remove_dependency` needs: one link of one row becomes None, and nothing else changes |
| `TodoRepository.TodoStore.Delete` | backend/repository/todo/service.py:164-173 | an unknown id raises NotFound; otherwise exactly that id leaves the table |
| `TodoManagement.CountDone` | backend/usecase/todo_management/service.py:29 | the number of Done subtasks is at most the number of subtasks |
| `TodoManagement.CountDoneAll` | backend/usecase/todo_management/service.py:29-30 | the Done count equals the number of subtasks exactly when every status is Done |
| `TodoManagement.Progress` | backend/usecase/todo_management/service.py:26-35 | 0 with no subtasks; otherwise between 0 and 100, 100 exactly when every subtask is Done and 0 exactly when none is |
| `TodoManagement.ProgressRows` | backend/usecase/todo_management/service.py:23-24 | the subtasks progress counts: the subtask query with only the todo id, so at most 20 of the todo's subtasks |
| `TodoManagement.AllDoneProgress` | backend/usecase/todo_management/service.py:26-35 | the progress of some rows is 100 exactly when there is one and all are Done |
| `TodoManagement.ProgressOf` | backend/usecase/todo_management/service.py:18-35 | as written: 100 exactly when the queried (newest 20) subtasks are non-empty and all Done |
| `TodoManagement.ProgressOfAll` | backend/usecase/todo_management/service.py:18-35 | as intended: 100 exactly when the todo has subtasks and every one of them is Done |
| `TodoManagement.ProgressIgnoresOldest` | backend/usecase/todo_management/service.py:23-24 | with more than 20 subtasks and only the oldest unfinished, progress as written is 100 while the intended progress is below 100 |
| `TodoManagement.ToRepoCreate` | backend/usecase/todo_management/service.py:93-110 | the repository request copies each request field (title to auto_repeat), sets both timestamps to `now` and no completion time |
| `TodoManagement.ToRepoUpdate` | backend/usecase/todo_management/service.py:223-239 | the repository update forwards each optional field as given (title to completed_at), created_at None and updated_at `now` |
| `TodoManagement.AccessError` | backend/usecase/todo_management/service.py:128-137 | NotFound for a missing todo, then AccessDenied for another user's; None exactly for the owner |
| `TodoManagement.CreateTodo` | backend/usecase/todo_management/service.py:82-123 | an empty title is refused before anything is stored; otherwise one row is stored with created_at = updated_at = now and no completion time |
| `TodoManagement.GetTodoById` | backend/usecase/todo_management/service.py:125-142 | NotFound, then AccessDenied; only the owner reads the todo, with its progress over the subtask table |
| `TodoManagement.UpdateTodo` | backend/usecase/todo_management/service.py:204-258 | NotFound, then AccessDenied, each writing nothing; otherwise only the target row changes, to the repository update of the forwarded fields |
| `TodoManagement.DeleteTodo` | backend/usecase/todo_management/service.py:260-282 | NotFound, then AccessDenied; only the owner removes the todo, and only it |
| `TodoManagement.GetTodos` | backend/usecase/todo_management/service.py:144-180 | an invalid window is refused, and only then; otherwise the i-th view is the i-th row of the window of the matching rows with its progress, and total is the page size, not the number of matches |
| `TodoManagement.AllMyTodosFilter` | backend/usecase/todo_management/service.py:185-199 | the filter keeps the caller's fields and sets project_id to None |
| `TodoManagement.GetAllMyTodos` | backend/usecase/todo_management/service.py:182-202 | the result is `get_todos` of that filter: refused exactly for an invalid window, otherwise the window of the matching rows |
| `TodoGraph.LinkKeepsAcyclic` | backend/usecase/todo_dependency_management/service.py:114-133 | replacing a row by one whose links are old or point at `d` keeps the link graph acyclic when no path from `d` reaches the row |
| `TodoGraph.UnlinkKeepsAcyclic` | backend/usecase/todo_dependency_management/service.py:165-179 | dropping links never creates a cycle |
| `TodoGraph.FollowsIsPath` | backend/usecase/todo_dependency_management/service.py:209-237 | a walk along one kind of link is a path of the graph |
| `TodoGraph.AcyclicWalkNeverLoops` | backend/usecase/todo_dependency_management/service.py:209-237 | in an acyclic table no walk ends on a link back into itself |
| `TodoDependency.KindOf` | backend/usecase/todo_dependency_management/service.py:109-112 | 'previous' and 'next' name the two link fields, and no other string names one |
| `TodoDependency.CheckCircular` | backend/usecase/todo_dependency_management/service.py:18-70 | the recursive search terminates; when it reports no cycle, the dependency was visited, the todo was not, and every visited stored todo has its links inside the visited set |
| `TodoDependency.CheckSound` | backend/usecase/todo_dependency_management/service.py:18-70 | when the check passes, no path from the dependency reaches the todo |
| `TodoDependency.SelfLinkFlagged` | backend/usecase/todo_dependency_management/service.py:43-45 | linking a todo to itself is always refused |
| `TodoDependency.ReciprocalPairFlagged` | backend/usecase/todo_dependency_management/service.py:39-41 | a doubly linked pair (a.next = b, b.previous = a) makes the check refuse any other todo's link to b, though no cycle would arise |
| `TodoDependency.SetDependencyError` | backend/usecase/todo_dependency_management/service.py:90-117 | the error set_dependency raises, in the order its checks run, and None exactly when every check passes |
| `TodoDependency.LinkRequest` | backend/usecase/todo_dependency_management/service.py:119-130 | the request `set_dependency` sends names the todo and the user, gives the named link as the dependency, and gives no other field |
| `TodoDependency.SetDependency` | backend/usecase/todo_dependency_management/service.py:86-144 | on failure nothing is written; on success only the named link of the todo (and its updated_at) changes, the dependency todo is untouched, and an acyclic table stays acyclic |
| `TodoDependency.RemoveDependencyError` | backend/usecase/todo_dependency_management/service.py:150-163 | NotFound, AccessDenied, InvalidDependency in that order, None when all pass |
| `TodoDependency.UnlinkRequest` | backend/usecase/todo_dependency_management/service.py:166-177 | the request `remove_dependency` sends gives no field at all: both links are None, so it is the empty update |
| `TodoDependency.UnlinkKeepsLink` | backend/usecase/todo_dependency_management/service.py:166-179 | the update remove_dependency sends stores the link unchanged, because the repository skips None fields |
| `TodoDependency.RemoveDependency` | backend/usecase/todo_dependency_management/service.py:146-189 | as written: success is reported while only updated_at changes, so the link stays |
| `TodoDependency.RemoveDependencyClearing` | backend/usecase/todo_dependency_management/service.py:146-189 | as intended: the named link is cleared, the table stays acyclic, and a repeat call succeeds with the link still None |
| `TodoDependency.Walk` | backend/usecase/todo_dependency_management/service.py:209-237 | one walk of validate_dependency: the ids form a complete walk without repeats, and a cycle is reported exactly when the walk loops back into itself |
| `TodoDependency.ValidateDependency` | backend/usecase/todo_dependency_management/service.py:191-254 | NotFound, then AccessDenied; a cycle iff either walk loops; chain_length is the length of the next walk, or 0 when a cycle was found |
| `TodoDependency.AcyclicIsValid` | backend/usecase/todo_dependency_management/service.py:239-240 | in an acyclic table validate_dependency never reports a cycle |
| `TodoDependency.Prepend` | backend/usecase/todo_dependency_management/service.py:291-298 | putting a stored, unvisited node named by the first node's previous link in front keeps the chain well linked |
| `TodoDependency.Append` | backend/usecase/todo_dependency_management/service.py:308-315 | appending a stored, unvisited node named by the last node's next link keeps the chain well linked |
| `TodoDependency.FollowPrevious` | backend/usecase/todo_dependency_management/service.py:284-298 | the previous walk adds stored nodes in front until the link is unset, repeats or dangles, keeping the chain well linked and free of repeats |
| `TodoDependency.FollowNext` | backend/usecase/todo_dependency_management/service.py:301-315 | the next walk appends stored nodes under the same stopping rule and invariants |
| `TodoDependency.WalkChain` | backend/usecase/todo_dependency_management/service.py:270-315 | the todo sits at `pos` of a well-linked chain; only a direction that follows previous links puts nodes before it, only one that follows next links puts nodes after it; the backward walk stopped against its own part of the chain and the forward walk against the whole |
| `TodoDependency.GetDependencyChain` | backend/usecase/todo_dependency_management/service.py:256-324 | NotFound, then AccessDenied; the chain holds the todo, the todos reached backwards before it and forwards after it, no id twice, and each walk ran until it had to stop, the backward walk judged against its own part of the chain only; total is the chain length |
| `ProjectRepository.FromCreate` | backend/repository/project/service.py:27-33 | the stored row carries the request, with "" for a missing description |
| `ProjectRepository.ApplyProjectUpdate` | backend/repository/project/service.py:91-100 | a given field overwrites and a None field is kept, updated_at is written only when truthy, and id, owner and created_at are never written |
| `ProjectRepository.ApplyProjectUpdateIdempotent` | backend/repository/project/service.py:91-100 | saving the same update twice stores the same row as saving it once |
| `ProjectRepository.FindMember` | backend/repository/project/service.py:147 | the index of the row of a (project, user) pair, None exactly when there is none |
| `ProjectRepository.WithoutUsers` | backend/repository/project/service.py:205-211 | deleting the rows of some users in a project removes exactly those rows and keeps the order of the rest |
| `ProjectRepository.WithoutUsersIncreasing` | backend/repository/project/service.py:204-214 | deleting member rows keeps the table in increasing id order |
| `ProjectRepository.WithoutUsersUnique` | backend/repository/project/service.py:204-214 | deleting member rows keeps each (project, user) pair on at most one row |
| `ProjectRepository.WithoutUsersStep` | backend/repository/project/service.py:205-211 | deleting users one after another is deleting them all at once |
| `ProjectRepository.Select` | backend/repository/project/service.py:160-166 | the member rows that pass the filters, in table order |
| `ProjectRepository.SelectIncreasing` | backend/repository/project/service.py:160-166 | filtering keeps a table in ascending id order |
| `ProjectRepository.WindowDecreasing` | backend/repository/project/service.py:177-179 | a window of a newest-first list is newest-first |
| `ProjectRepository.MemberOrderBy` | backend/repository/project/service.py:168-174 | an empty order becomes `-joined_at`; an order without created_at passes unchanged |
| `ProjectRepository.MemberOrderByRenames` | backend/repository/project/service.py:170-172 | an order naming created_at once has it renamed joined_at, whatever comes before or after it |
| `ProjectRepository.MemberOrderByCreatedAt` | backend/repository/project/service.py:171-174 | `created_at` becomes `joined_at` and `-created_at` becomes `-joined_at` |
| `ProjectRepository.Ordered` | backend/repository/project/service.py:175 | ordering keeps the rows; `-id` gives them newest first |
| `ProjectRepository.ProjectStore.Create` | backend/repository/project/service.py:20-39 | an empty name raises NameRequired; otherwise the project goes under a fresh id and nothing else changes |
| `ProjectRepository.ProjectStore.GetById` | backend/repository/project/service.py:41-51 | None exactly for an unknown id |
| `ProjectRepository.ProjectStore.Update` | backend/repository/project/service.py:82-106 | NotFound for an unknown id; otherwise only that project changes, to `ApplyProjectUpdate` |
| `ProjectRepository.ProjectStore.Delete` | backend/repository/project/service.py:108-117 | NotFound for an unknown id; otherwise exactly that project goes, and the member table is not touched |
| `ProjectRepository.ProjectStore.CreateMember` | backend/repository/project/service.py:121-140 | an existing pair raises AlreadyExists and changes nothing; otherwise one row with a fresh id is appended |
| `ProjectRepository.ProjectStore.GetMember` | backend/repository/project/service.py:142-153 | the row of the pair, None exactly when there is none |
| `ProjectRepository.ProjectStore.GetMembers` | backend/repository/project/service.py:155-183 | at most `limit` rows, each matching; all matches from offset 0 when they fit; newest first under `-id` |
| `ProjectRepository.ProjectStore.UpdateMember` | backend/repository/project/service.py:185-203 | a missing pair raises MemberNotFound; a None role keeps the row; otherwise only that row's role changes |
| `ProjectRepository.ProjectStore.DeleteMember` | backend/repository/project/service.py:205-215 | a missing pair raises MemberNotFound; otherwise only that pair's row goes |
| `ProjectManagement.CheckProjectAccess` | backend/usecase/project_management/service.py:41-67 | the owner always passes; a private project passes nobody else; a public one passes anyone when no owner or admin rights are asked for |
| `ProjectManagement.CheckMemberPermission` | backend/usecase/project_management/service.py:70-91 | no row never passes; owner rights need role Owner, admin rights Owner or Admin, plain membership suffices otherwise |
| `ProjectManagement.MayAdministerByHelpers` | backend/usecase/project_management/service.py:250-255 | the inline owner-or-admin check equals the two helpers with admin rights asked for |
| `ProjectManagement.CreateProject` | backend/usecase/project_management/service.py:105-145 | an empty name is refused before any write; otherwise the project is stored with both timestamps `now` and its creator added as an Owner member |
| `ProjectManagement.GetProjectById` | backend/usecase/project_management/service.py:147-169 | NotFound for an unknown id; a public project is readable by anyone, a private one only by its owner or a member of any role |
| `ProjectManagement.ReadRuleByHelpers` | backend/usecase/project_management/service.py:156-164 | the read rule equals the two helpers with no rights asked for |
| `ProjectManagement.UpdateProject` | backend/usecase/project_management/service.py:241-280 | NotFound, then AccessDenied unless owner or Owner/Admin member; on success None fields are kept, updated_at is `now`, and nothing else changes |
| `ProjectManagement.DeleteQuery` | backend/usecase/project_management/service.py:298-300 | the member query of delete_project has the default window of 20 and order `-id` |
| `ProjectManagement.UsersOf` | backend/usecase/project_management/service.py:301-302 | the user ids of some member rows |
| `ProjectManagement.DeleteStep` | backend/usecase/project_management/service.py:301-302 | each delete_member call of the loop finds its row, because only earlier rows of the list are gone |
| `ProjectManagement.DeleteMemberRows` | backend/usecase/project_management/service.py:301-302 | each delete_member call finds its row, and afterwards exactly the rows of those users in the project are gone |
| `ProjectManagement.DeleteProject` | backend/usecase/project_management/service.py:282-313 | as written: NotFound, then AccessDenied for anyone but the owner; then the member rows the default query returns (at most 20) and the project row are deleted |
| `ProjectManagement.DeleteProjectLeavesMembers` | backend/usecase/project_management/service.py:298-302 | with more than 20 member rows, some remain after delete_project succeeds |
| `ProjectManagement.DeleteProjectAllMembers` | backend/usecase/project_management/service.py:282-313 | as intended: every member row of the project is deleted, then the project |
| `ProjectManagement.AddMember` | backend/usecase/project_management/service.py:315-354 | NotFound, then AccessDenied unless owner or Owner/Admin member; then the insert, which refuses an existing pair |
| `ProjectManagement.RemoveMember` | backend/usecase/project_management/service.py:356-393 | NotFound, AccessDenied, AccessDenied for the owner as target, MemberNotFound; on success exactly the target's row goes |
| `ProjectManagement.UpdateMemberRole` | backend/usecase/project_management/service.py:395-436 | NotFound, AccessDenied for anyone but the owner, AccessDenied for the owner as target, MemberNotFound; on success only the target's role changes |
| `ProjectManagement.MembershipQuery` | backend/usecase/project_management/service.py:189-196 | the requester's member rows with the request's order and no role (the use-case filter has none), in the default window because limit and offset are None |
| `ProjectManagement.Put` | backend/usecase/project_management/service.py:216-218 | `d[id] = p`: the result holds p and every earlier project with another id, and nothing else; ids stay distinct |
| `ProjectManagement.PutIds` | backend/usecase/project_management/service.py:216-218 | after `d[id] = p` the keys are the old keys plus p's id |
| `ProjectManagement.CollectMemberProjects` | backend/usecase/project_management/service.py:198-213 | each project found exists, is owned by someone else, passes the filters and comes from one of the given member rows; and every such project a given row leads to is found |
| `ProjectManagement.MergeById` | backend/usecase/project_management/service.py:215-218 | one entry per id, every owned id present, every entry from one of the two lists |
| `ProjectManagement.WindowOfDistinct` | backend/usecase/project_management/service.py:229-231 | the slice keeps ids distinct and, from 0 and not full, keeps every id |
| `ProjectManagement.GetProjects` | backend/usecase/project_management/service.py:171-239 | owned and member projects merged without duplicate ids, cut to the window; total is the number returned; from offset 0 and not full, every owned id and every qualifying project of a fetched member row is present; a non-owned project comes from a fetched row |
| `ProjectManagement.MembershipWindowMissesProject` | backend/usecase/project_management/service.py:189-196 | as written: with more than 20 member rows, some project of the requester is reached by none of the fetched rows |
| `ProjectManagement.OrderedBeyondWindow` | backend/usecase/project_management/service.py:189-196 | the row just past the default window matches and is not in the window |
| `ProjectManagement.GetProjectsAllMemberships` | backend/usecase/project_management/service.py:171-239 | as intended: from offset 0 and not full, the project of every matching member row that qualifies is present |
| `SubtaskRepository.FromCreate` | backend/repository/subtask/service.py:27-34 | the stored row carries every request field |
| `SubtaskRepository.ApplySubtaskUpdate` | backend/repository/subtask/service.py:85-103 | title, status with its completion rule, order, explicit completion time and truthy updated_at, in that order; id and todo never change |
| `SubtaskRepository.ApplySubtaskUpdateIdempotent` | backend/repository/subtask/service.py:85-103 | saving the same update twice stores the same row as saving it once |
| `SubtaskRepository.Select` | backend/repository/subtask/service.py:59-63 | the rows that pass the filters, in table order |
| `SubtaskRepository.QueryRows` | backend/repository/subtask/service.py:54-74 | at most `limit` matching rows; all of them from offset 0 when they fit; sorted by order or newest first as asked |
| `SubtaskRepository.SubtaskStore.Create` | backend/repository/subtask/service.py:20-40 | an empty title raises TitleRequired and stores nothing; otherwise one row with a fresh id is appended |
| `SubtaskRepository.SubtaskStore.GetById` | backend/repository/subtask/service.py:42-52 | None exactly for an unknown id, otherwise the row with that id |
| `SubtaskRepository.SubtaskStore.GetSubtasks` | backend/repository/subtask/service.py:54-74 | the query over the stored table |
| `SubtaskRepository.SubtaskStore.Update` | backend/repository/subtask/service.py:76-109 | NotFound for an unknown id; otherwise only that row changes, to `ApplySubtaskUpdate` |
| `SubtaskRepository.SubtaskStore.Delete` | backend/repository/subtask/service.py:111-120 | NotFound for an unknown id; otherwise exactly that row goes |
| `SubtaskManagement.TodoGuard` | backend/usecase/subtask_management/service.py:66-74 | NotFound before AccessDenied; None exactly for the todo's owner |
| `SubtaskManagement.SubtaskGuard` | backend/usecase/subtask_management/service.py:121-142 | subtask NotFound, then the todo guard, then BadRequest when the subtask belongs to another todo |
| `SubtaskRepository.OfTodo` | backend/usecase/subtask_management/service.py:83-86 | a subtask filter with only the todo id has order `-id` and the default window of 20 |
| `SubtaskRepository.RowsOfTodo` | backend/usecase/subtask_management/service.py:82-86 | every subtask row of the todo, whatever the window |
| `SubtaskManagement.OrderFor` | backend/usecase/subtask_management/service.py:79-91 | as written: the requested order; otherwise one past the largest order among the rows the todo-only query returns (the 20 newest), or 0 when it returns none |
| `SubtaskManagement.OrderAfterAll` | backend/usecase/subtask_management/service.py:79-91 | the intended order: above the order of every subtask of the todo, or 0 when it has none |
| `SubtaskManagement.OrderForSmallTodo` | backend/usecase/subtask_management/service.py:79-91 | with at most 20 subtasks the computed order is past every existing one |
| `SubtaskRepository.OldestOutsideWindow` | backend/usecase/subtask_management/service.py:83-88 | with more than 20 subtasks the query returns 20 and leaves out the oldest |
| `SubtaskManagement.OrderForFromNewer` | backend/usecase/subtask_management/service.py:86-89 | with more than 20 subtasks the computed order is one past the order of some subtask other than the oldest |
| `SubtaskManagement.OrderForBelowOldest` | backend/usecase/subtask_management/service.py:79-91 | when the oldest of more than 20 subtasks holds the largest order, the order as written is at or below it, the intended one above it |
| `SubtaskManagement.Insert` | backend/usecase/subtask_management/service.py:93-104 | the new row has status ToDo, both timestamps `now` and no completion time |
| `SubtaskManagement.AddSubtask` | backend/usecase/subtask_management/service.py:59-116 | as written: empty title first, then the todo guard; the order defaults to the window-based maximum |
| `SubtaskManagement.AddSubtaskAfterAll` | backend/usecase/subtask_management/service.py:59-116 | as intended: the new subtask's order is above every subtask of the todo |
| `SubtaskManagement.CompletedAtFor` | backend/usecase/subtask_management/service.py:147-154 | the completion time sent: `now` when a row not Done moves to Done; None for Done to Done and for any non-empty other status; with no or an empty status, the stored time on a Done row and None otherwise |
| `SubtaskManagement.UpdateFor` | backend/usecase/subtask_management/service.py:147-163 | the repository request: the new fields, the decided completion time and updated_at `now` |
| `SubtaskManagement.UpdateSubtaskCompletion` | backend/usecase/subtask_management/service.py:147-165 | the stored completion time for each status transition, after the use-case decision and the repository rule |
| `SubtaskManagement.UpdateKeepsConsistent` | backend/usecase/subtask_management/service.py:147-165 | an update naming no status or a non-empty one keeps "Done iff completed" |
| `SubtaskManagement.EmptyStatusKeepsCompletion` | backend/usecase/subtask_management/service.py:153-154 | an empty status on a Done row stores status "" with the completion time still set |
| `SubtaskManagement.UpdateSubtask` | backend/usecase/subtask_management/service.py:118-177 | the subtask guard, then one repository update of the stored row |
| `SubtaskManagement.DeleteSubtask` | backend/usecase/subtask_management/service.py:179-214 | the subtask guard, then exactly that row goes |
| `SubtaskManagement.MarkUpdate` | backend/usecase/subtask_management/service.py:246-254 | Done with completion `now`, or ToDo with none |
| `SubtaskManagement.MarkOutcome` | backend/usecase/subtask_management/service.py:246-256 | marking done stores Done with time `now`, undone stores ToDo without a time; title and order are kept and the row is consistent |
| `SubtaskManagement.MarkSubtaskDone` | backend/usecase/subtask_management/service.py:216-266 | the subtask guard, then that one update |
| `SubtaskManagement.ListFilter` | backend/usecase/subtask_management/service.py:282-286 | the list query is ordered by `order` in the default window of 20 |
| `SubtaskRepository.StatusesOf` | backend/usecase/subtask_management/service.py:290 | the statuses of the rows, in order |
| `SubtaskManagement.GetSubtasks` | backend/usecase/subtask_management/service.py:268-303 | the todo guard, then at most 20 rows of the todo sorted by order; total counts the rows returned and progress is over them |
| `KanbanRepository.OrElse` | backend/repository/kanban/service.py:29-30 | `s or default`: None and "" give the default, any other string itself |
| `KanbanRepository.FromCreate` | backend/repository/kanban/service.py:27-37 | the stored row carries the request, "" for an empty status value and `#6B7280` for an empty colour |
| `KanbanRepository.ApplyColumnUpdate` | backend/repository/kanban/service.py:92-105 | field by field, a None field keeps the stored value and a given one (name, status value, colour, order, active flag) overwrites it; updated_at only when truthy; id, owner, project, default flag and created_at never change |
| `KanbanRepository.Select` | backend/repository/kanban/service.py:62-70 | the rows that pass the filters, in table order |
| `KanbanRepository.QueryColumns` | backend/repository/kanban/service.py:57-81 | at most `limit` matching rows; all from offset 0 when they fit; sorted by order or newest first as asked |
| `KanbanRepository.ColumnStore.CreateColumn` | backend/repository/kanban/service.py:20-43 | an empty name raises NameRequired and stores nothing; otherwise one row with a fresh id is appended |
| `KanbanRepository.ColumnStore.GetColumnById` | backend/repository/kanban/service.py:45-55 | None exactly for an unknown id |
| `KanbanRepository.ColumnStore.GetColumns` | backend/repository/kanban/service.py:57-81 | the query over the stored table |
| `KanbanRepository.ColumnStore.UpdateColumn` | backend/repository/kanban/service.py:83-111 | ColumnNotFound for an unknown id; otherwise only that row changes |
| `KanbanRepository.ColumnStore.DeleteColumn` | backend/repository/kanban/service.py:113-122 | ColumnNotFound for an unknown id; otherwise exactly that row goes |
| `KanbanManagement.BoardGuard` | backend/usecase/kanban_management/service.py:80-94 | with a truthy project id the project must exist, and a private one is open only to its owner and its members |
| `KanbanManagement.BoardFilter` | backend/usecase/kanban_management/service.py:97-102 | active columns of the board's scope, by `order`, in the default window of 20 |
| `KanbanManagement.DefaultColumnViews` | backend/usecase/kanban_management/service.py:20-25 | three columns ToDo, In Progress, Done with orders 0, 1, 2, no id, default and active |
| `KanbanManagement.GetKanbanBoard` | backend/usecase/kanban_management/service.py:76-143 | refused exactly when the access rule refuses; with no stored active column of the board, exactly the three default columns ToDo, In Progress, Done with orders 0, 1, 2; otherwise the i-th column is the i-th row of the 20-row query by order, every field carried over; the i-th card is the i-th todo with all its fields and progress 0 |
| `KanbanManagement.MoveUpdate` | backend/usecase/kanban_management/service.py:165-170 | the todo update carries the new status and order and nothing else |
| `KanbanManagement.MoveTodo` | backend/usecase/kanban_management/service.py:145-183 | NotFound, then BadRequest for another user's todo, writing nothing; otherwise the status, the order when given, and updated_at change |
| `KanbanManagement.ExistingColumnsFilter` | backend/usecase/kanban_management/service.py:199-203 | the query for existing columns has order `-id` and the default window of 20 |
| `KanbanManagement.ColumnOrderFor` | backend/usecase/kanban_management/service.py:195-209 | as written: the requested order; otherwise one past the largest order among the active columns in scope the query returns (the 20 newest), or 0 when it returns none |
| `KanbanManagement.ColumnOrderAfterAll` | backend/usecase/kanban_management/service.py:195-209 | the intended order: above every active column in scope, or 0 when there is none |
| `KanbanManagement.ColumnOrderForSmallScope` | backend/usecase/kanban_management/service.py:195-209 | with at most 20 active columns in scope the computed order is past every existing one |
| `KanbanManagement.ColumnOrderForIgnoresOldest` | backend/usecase/kanban_management/service.py:199-206 | with more than 20, the oldest column is outside the window |
| `KanbanManagement.ColumnOrderForFromNewer` | backend/usecase/kanban_management/service.py:204-207 | with more than 20, the computed order is one past some column other than the oldest |
| `KanbanManagement.ColumnOrderForBelowOldest` | backend/usecase/kanban_management/service.py:195-209 | when the oldest of more than 20 holds the largest order, the order as written is at or below it, the intended one above it |
| `KanbanManagement.ColumnCreateFor` | backend/usecase/kanban_management/service.py:212-223 | the repository request: not default, active, owned by the caller only without a project, both timestamps `now` |
| `KanbanManagement.InsertColumn` | backend/usecase/kanban_management/service.py:225-237 | one row is appended as the request describes |
| `KanbanManagement.CreateColumn` | backend/usecase/kanban_management/service.py:185-237 | as written: an empty name is refused; otherwise one user column is added with the window-based order |
| `KanbanManagement.CreateColumnAfterAll` | backend/usecase/kanban_management/service.py:185-237 | as intended: the new column's order is above every active column in scope |
| `KanbanManagement.ColumnAccessError` | backend/usecase/kanban_management/service.py:248-264 | the delete_column access checks in order, None exactly when the caller may change the column |
| `KanbanManagement.DeleteColumn` | backend/usecase/kanban_management/service.py:239-281 | NotFound, the access rule, then default columns refused; only then exactly that row goes; a default column is never deleted |
| `KanbanManagement.ReorderGuard` | backend/usecase/kanban_management/service.py:287-296 | refused only for an existing private project whose owner the caller is not and where the caller is no Owner or Admin member |
| `KanbanManagement.ReorderUpdate` | backend/usecase/kanban_management/service.py:313-316 | the update sets the order and updated_at and nothing else |
| `KanbanManagement.ApplyEntry` | backend/usecase/kanban_management/service.py:300-317 | ids are kept; a column the entry does not name (or an entry missing a key) is unchanged; on a table with unique ids the named column gets the entry's order and a truthy updated_at |
| `KanbanManagement.ApplyReorder` | backend/usecase/kanban_management/service.py:300-317 | the entries applied in turn keep the table's length and ids |
| `KanbanManagement.LastNaming` | backend/usecase/kanban_management/service.py:300-317 | the position of the last complete entry naming a column; no later entry names it |
| `KanbanManagement.LastOrder` | backend/usecase/kanban_management/service.py:300-317 | the order of the last complete entry naming a column, None when there is none |
| `KanbanManagement.Reordered` | backend/usecase/kanban_management/service.py:300-317 | column by column: a named column takes its last order, every other column is unchanged |
| `KanbanManagement.ApplyReorderIsReordered` | backend/usecase/kanban_management/service.py:300-317 | applying the entries in turn equals the column-by-column description |
| `KanbanManagement.ReorderEntry` | backend/usecase/kanban_management/service.py:301-317 | one pass of the loop writes `ApplyEntry` |
| `KanbanManagement.ReorderColumns` | backend/usecase/kanban_management/service.py:283-325 | as written: the access rule, then every entry applied, whoever owns the column |
| `KanbanManagement.ReorderChangesForeignColumn` | backend/usecase/kanban_management/service.py:307-317 | user 1 reorders user 2's column |
| `KanbanManagement.ApplyEntryChecked` | backend/usecase/kanban_management/service.py:307-317 | ids, owners and projects are kept; a column is unchanged unless the entry names it and the caller may change it; on a table with unique ids such a column gets the entry's order |
| `KanbanManagement.ApplyReorderChecked` | backend/usecase/kanban_management/service.py:300-317 | the checked entries applied in turn keep the table's length and ids |
| `KanbanManagement.CheckedReorderSparesForeign` | backend/usecase/kanban_management/service.py:307-317 | the corrected reorder leaves every column the caller may not change as it was |
| `KanbanManagement.ReorderEntryChecked` | backend/usecase/kanban_management/service.py:307-317 | one pass of the corrected loop writes `ApplyEntryChecked` |
| `KanbanManagement.ReorderColumnsChecked` | backend/usecase/kanban_management/service.py:283-325 | as intended: the delete_column access rule decides, column by column, whether an entry applies |
| `BulkOperations.BulkUpdateFor` | backend/usecase/bulk_operations/service.py:59-67 | the update carries the five bulk fields and nothing else |
| `BulkOperations.BulkRowTouchesOnly` | backend/usecase/bulk_operations/service.py:59-69 | a bulk update changes only the given bulk fields and updated_at |
| `BulkOperations.UpdateAll` | backend/usecase/bulk_operations/service.py:42-75 | the table after the ids are handled in turn keeps its ids |
| `BulkOperations.FailedUpdatesExact` | backend/usecase/bulk_operations/service.py:42-56 | the failed ids are exactly the listed ids that are missing or belong to another user |
| `BulkOperations.UpdateAllRows` | backend/usecase/bulk_operations/service.py:42-75 | every listed todo of the user ends as one update leaves it; every other row is untouched |
| `BulkOperations.Outcome` | backend/usecase/bulk_operations/service.py:77-86 | success exactly when nothing failed |
| `BulkOperations.BulkUpdate` | backend/usecase/bulk_operations/service.py:31-90 | an empty list is refused; otherwise each id counts once as updated or failed, the failed ids are `FailedUpdates`, and the table is `UpdateAll` |
| `BulkOperations.DeleteAll` | backend/usecase/bulk_operations/service.py:103-131 | the table after the ids are handled in turn |
| `BulkOperations.FailedDeletes` | backend/usecase/bulk_operations/service.py:103-117 | the ids missing at their turn or foreign, in input order |
| `BulkOperations.DeleteAllRemovesOwnedListed` | backend/usecase/bulk_operations/service.py:103-131 | afterwards the table is the old one without the user's listed todos |
| `BulkOperations.DeleteFailsAt` | backend/usecase/bulk_operations/service.py:103-117 | an entry fails iff its todo is missing or foreign or the id came earlier in the list |
| `BulkOperations.DeleteOne` | backend/usecase/bulk_operations/service.py:104-131 | a missing or foreign todo fails with no write; otherwise exactly that row goes |
| `BulkOperations.BulkDelete` | backend/usecase/bulk_operations/service.py:92-146 | an empty list is refused; otherwise each id counts once, the failed ids are `FailedDeletes`, the table is `DeleteAll`, and it lost as many rows as were counted deleted |
| `ReminderRepository.FromCreate` | backend/repository/reminder/service.py:27-38 | the stored row carries the request, "" for a missing message and ["Email"] for no channels |
| `ReminderRepository.ApplyReminderUpdate` | backend/repository/reminder/service.py:97-112 | None fields are kept, sent_at is written when given, updated_at only when truthy; id, owner, todo, type and created_at never change |
| `ReminderRepository.ApplyReminderUpdateIdempotent` | backend/repository/reminder/service.py:97-112 | saving the same update twice stores the same row as saving it once |
| `ReminderRepository.SortByKeeps` | backend/repository/reminder/service.py:77-78 | sorting by reminder time keeps exactly the rows |
| `ReminderRepository.ByTime` | backend/repository/reminder/service.py:58-86 | a query ordered by reminder time: at most `limit` matching rows, earliest first; from offset 0, `min(limit, matches)` rows and all of them when they fit |
| `ReminderRepository.ReminderStore.Create` | backend/repository/reminder/service.py:20-44 | an empty title raises TitleRequired and stores nothing; otherwise one row with a fresh id is appended |
| `ReminderRepository.ReminderStore.GetById` | backend/repository/reminder/service.py:46-56 | None exactly for an unknown id, otherwise the row with that id |
| `ReminderRepository.ReminderStore.Update` | backend/repository/reminder/service.py:88-118 | NotFound for an unknown id; otherwise only that row changes, to `ApplyReminderUpdate` |
| `ReminderRepository.ReminderStore.Delete` | backend/repository/reminder/service.py:120-129 | NotFound for an unknown id; otherwise exactly that row goes |
| `ReminderManagement.CreateRequestFor` | backend/usecase/reminder_management/service.py:66-78 | a Pending, never-sent reminder created and updated `now`, with the "" and ["Email"] defaults |
| `ReminderManagement.CreateReminder` | backend/usecase/reminder_management/service.py:55-91 | an empty title is refused before anything is stored; otherwise one Pending, unsent row is appended and described |
| `ReminderManagement.ReminderAccess` | backend/usecase/reminder_management/service.py:97-104 | NotFound before AccessDenied; None exactly when the caller owns a row with that id |
| `ReminderManagement.UpdateFor` | backend/usecase/reminder_management/service.py:110-117 | the caller's fields, updated_at `now`, and no sent time |
| `ReminderManagement.UpdateReminder` | backend/usecase/reminder_management/service.py:93-130 | NotFound, then AccessDenied, writing nothing; the owner's update changes only that row, never its sent time, owner or todo |
| `ReminderManagement.DeleteReminder` | backend/usecase/reminder_management/service.py:132-154 | NotFound, then AccessDenied, writing nothing; otherwise that reminder and only it goes |
| `ReminderManagement.ProcessWindow` | backend/usecase/reminder_management/service.py:160-165 | as written: a limit below 1 is refused; any other `max_reminders` gives the window (20, 0), because the offset is None |
| `ReminderManagement.ProcessWindowUpTo` | backend/usecase/reminder_management/service.py:160-165 | as intended: the window (`max_reminders`, 0), or (20, 0) when it is None |
| `ReminderManagement.Deliver` | backend/usecase/reminder_management/service.py:183-204 | the channel loop ends in success exactly when some Email or SMS channel reaches a non-empty address and its send goes through |
| `ReminderManagement.VerdictFor` | backend/usecase/reminder_management/service.py:177-206 | NoUser for a missing user, otherwise Delivered exactly when the channel loop succeeds |
| `ReminderManagement.StatusUpdate` | backend/usecase/reminder_management/service.py:206-222 | Sent with sent_at `now`, or Failed without a sent time; updated_at `now` either way |
| `ReminderManagement.Settled` | backend/usecase/reminder_management/service.py:174-226 | the handled row: Sent with sent_at `now` iff delivered, Failed with its old sent_at otherwise, unchanged when the user is missing |
| `ReminderManagement.SentCount` | backend/usecase/reminder_management/service.py:214 | at most the batch size |
| `ReminderManagement.FailedCount` | backend/usecase/reminder_management/service.py:180-226 | at most the batch size |
| `ReminderManagement.CountsAddUp` | backend/usecase/reminder_management/service.py:169-231 | sent + failed = processed: every fetched reminder counts once |
| `ReminderManagement.SentCountIsDelivered` | backend/usecase/reminder_management/service.py:206-214 | the sent count is the number of fetched reminders that were delivered |
| `ReminderManagement.StepSettles` | backend/usecase/reminder_management/service.py:174-226 | handling one more fetched row settles it and leaves every other row as it was |
| `ReminderManagement.ProcessAllSettles` | backend/usecase/reminder_management/service.py:174-226 | after a run each fetched row is settled and every other row is unchanged |
| `ReminderManagement.ProcessBatch` | backend/usecase/reminder_management/service.py:174-226 | the loop writes the settled rows and returns the sent and failed counts |
| `ReminderManagement.DueBatch` | backend/usecase/reminder_management/service.py:160-167 | the fetched reminders are Pending and due, earliest first, within the window |
| `ReminderManagement.Run` | backend/usecase/reminder_management/service.py:156-237 | fetch through a window, handle each reminder, report processed = sent + failed; a refused window writes nothing |
| `ReminderManagement.ProcessReminders` | backend/usecase/reminder_management/service.py:156-237 | as written: a `max_reminders` below 1 is refused; otherwise the 20 earliest due reminders are handled |
| `ReminderManagement.ProcessRemindersUpTo` | backend/usecase/reminder_management/service.py:156-237 | as intended: a `max_reminders` below 1 is refused; otherwise up to `max_reminders` (20 when it is None) of the earliest due reminders are handled and counted |
| `ReminderManagement.ProcessFetchesTwenty` | backend/usecase/reminder_management/service.py:160-167 | with more than 20 due reminders, a run as written handles exactly 20, even when `max_reminders` is 100 |
| `ReminderManagement.ProcessUpToFetchesMax` | backend/usecase/reminder_management/service.py:160-167 | the intended run handles `min(due, max_reminders)` reminders |
| `Validators.LastIndex` | backend/lib/validators.py:14 | the last position of a character, None exactly when it does not occur |
| `Validators.FirstAt` | backend/lib/validators.py:14 | in a matching address the '@' that ends the local part is the first one |
| `Validators.LastDot` | backend/lib/validators.py:14 | in a matching domain the dot before the top-level domain is the last one |
| `Validators.CheckEmailIsShape` | backend/lib/validators.py:14 | the direct reading of the pattern accepts exactly the strings the pattern describes |
| `Validators.ValidateEmail` | backend/lib/validators.py:12-17 | as written: accepted iff the pattern matches the address or the address minus one trailing newline; the address is returned unchanged |
| `Validators.ValidateEmailStrict` | backend/lib/validators.py:12-17 | as intended: accepted iff the whole string is an address, which then holds no newline |
| `Validators.EmailTrailingNewlineAccepted` | backend/lib/validators.py:14-15 | "a@b.co\n" passes the check as written and fails the intended one |
| `Validators.ValidateEmailStable` | backend/lib/validators.py:12-17 | an accepted address is accepted again |
| `Validators.Clean` | backend/lib/validators.py:23 | removing separators keeps no separator and leaves a separator-free string unchanged |
| `Validators.CleanAppend` | backend/lib/validators.py:23 | cleaning works piece by piece |
| `Validators.CleanKeeps` | backend/lib/validators.py:23 | cleaning keeps every non-separator character as often as it occurs and drops every separator |
| `Validators.ValidatePhone` | backend/lib/validators.py:20-27 | accepted iff the cleaned number is 10 to 15 digits; the number is returned as given |
| `Validators.PhoneIgnoresSeparator` | backend/lib/validators.py:20-27 | inserting a separator anywhere changes neither the digits checked nor acceptance |
| `Validators.ValidatePassword` | backend/lib/validators.py:30-38 | accepted iff at least 8 long with a letter and a digit; otherwise TooShort, then NoLetter, then NoNumber |
| `LlmFallback.IntentOf` | backend/externals/llm/service.py:219-221 | 'query' exactly when the lowered text holds a question word, else 'create_todo' |
| `LlmFallback.NonBlankLines` | backend/externals/llm/service.py:223 | every line is stripped and non-blank; empty exactly when every piece is blank; the first line is the first non-blank piece, stripped; one piece gives itself stripped, or nothing when blank |
| `LlmFallback.FirstLineIsFirstNonBlank` | backend/externals/llm/service.py:223 | the first line is the first non-blank piece, stripped, whatever blank pieces come before it |
| `LlmFallback.NonBlankLinesAppend` | backend/externals/llm/service.py:223 | the lines of two runs of pieces are the lines of the first followed by those of the second, so with the one-piece case the list is the non-blank pieces, stripped, in order |
| `LlmFallback.LinesOf` | backend/externals/llm/service.py:223 | the lines of a text: each stripped, non-empty and without a newline |
| `LlmFallback.TitleOf` | backend/externals/llm/service.py:224 | the first line when there is one; otherwise the text's first 100 characters, or all of it when shorter |
| `LlmFallback.DescriptionOf` | backend/externals/llm/service.py:225 | None exactly when there is at most one line; otherwise splitting it at newlines gives back the lines after the first |
| `LlmFallback.PriorityOf` | backend/externals/llm/service.py:227-234 | Critical before High before Low, Medium when no keyword occurs |
| `LlmFallback.DeadlineOf` | backend/externals/llm/service.py:236-246 | `now` for 'today' or 'now', a day later for 'tomorrow', else None |
| `LlmFallback.FirstCategory` | backend/externals/llm/service.py:248-258 | the first category with a keyword in the text, None when there is none |
| `LlmFallback.AnalyzeText` | backend/externals/llm/service.py:211-278 | one suggestion with confidence 0.5, no labels, subtasks or project, plus the intent and the fixed raw response |
| `LlmFallback.TitleIsFirstLine` | backend/externals/llm/service.py:223-224 | the title is empty exactly for a blank text; otherwise it is the first line of the stripped text, stripped, with no newline |
| `LlmFallback.DescriptionSplitsBack` | backend/externals/llm/service.py:225 | no description iff at most one line; splitting the description gives back the lines after the title |
| `LlmFallback.PrefixUpTo` | backend/externals/llm/service.py:291 | Python's `xs[:n]`, with a negative `n` counting from the end |
| `LlmFallback.GenerateSuggestions` | backend/externals/llm/service.py:280-293 | the first `max_suggestions` of the three fixed hints, with confidence 0.5 |

## Left out

- Logging, the response message strings, and the DTO conversions beyond the fields they copy.
- The Django ORM is modelled by its effect on a table. These are not modelled: database
  errors, transactions, concurrency between requests, and the `except Exception` branches of
  the loops. In the loops, each branch either cannot be reached or is modelled as the
  failure it counts.
- Ordering:
  - only the `-id`, `order` and `reminder_time` orderings are modelled;
  - any other `order_by` keeps table order;
  - rows of equal key keep table order (a stable sort), where the database gives no
    guarantee.
- `get_projects`' final Python sort by an arbitrary attribute is not modelled; the merged
  list keeps insertion order.
- `get_projects` walks `member_project_ids`, a Python set, whose iteration order is not
  specified; the model walks the fetched member rows in query order, skipping ids already
  seen. The set of member projects found is the same; only their order in the merged list
  may differ.
- `get_reminders` of the reminder use case is not modelled. Its repository query is (`ByTime`).
- Queries whose rows the model takes as inputs:
  - the repository query of `get_todos`, the owned-projects query of `get_projects`, and the
    board's todo query are inputs (the rows they return, in query order);
  - their filter conditions (`icontains`, label containment, timestamp bounds) are not
    restated.
- Python string operations:
  - `lower()`, `isspace()` and `isdigit()` are modelled on ASCII;
  - Unicode case mapping, Unicode whitespace beyond the ASCII and separator controls, and
    Unicode digits are not.
- `TodoManagement.Progress`: a real number, without the rounding to two decimals.
- Confidence values are reals and timestamps are integers; floating point is not modelled.
- Time: the date-time service is a `now` parameter. The two clock reads of the LLM
  fallback become one `now`.
- Outside services:
  - email and SMS sending is an oracle `sends(reminder id, channel)` that says whether a send
    succeeds;
  - the user table is a map from user id to contact details, "" standing for a missing address;
  - the LLM call itself, and its fallback trigger, are not part of this model; only the two
    rule-based fallbacks are.
- The pydantic request validation other than `BaseFilter` (string stripping, field types) is
  not modelled; requests arrive already typed.
- The user-management, export, saved-filter and smart-todo services are not part of this
  model.

## Findings

| source | as written | input that shows it | evidently intended | confidence | as-written member | corrected member |
|---|---|---|---|---|---|---|
| backend/usecase/todo_dependency_management/service.py:166-179 | `remove_dependency` sends the link as None, which the repository reads as "leave unchanged", so the link is never cleared although success is reported | a todo whose previous link is 5; remove the 'previous' dependency | the named link becomes None | high (not executed) | `TodoDependency.UnlinkKeepsLink` | `TodoDependency.RemoveDependencyClearing` |
| backend/usecase/project_management/service.py:298-302 | `delete_project` deletes only the member rows of the default 20-row window | a project with 21 member rows; delete it as owner | every member row of the project is deleted | high (not executed) | `ProjectManagement.DeleteProjectLeavesMembers` | `ProjectManagement.DeleteProjectAllMembers` |
| backend/usecase/subtask_management/service.py:79-91 | the default order is one past the largest order among only the 20 newest subtasks | a todo with 21 subtasks whose oldest holds the largest order; add one without an order | one past the largest order of every subtask of the todo | high (not executed) | `SubtaskManagement.OrderForBelowOldest` | `SubtaskManagement.AddSubtaskAfterAll` |
| backend/usecase/kanban_management/service.py:195-209 | the default column order is one past the largest among only the 20 newest active columns | 21 active columns in scope, the oldest holding the largest order; create one without an order | one past the largest order of every active column in scope | high (not executed) | `KanbanManagement.ColumnOrderForBelowOldest` | `KanbanManagement.CreateColumnAfterAll` |
| backend/usecase/kanban_management/service.py:307-317 | `reorder_columns` checks only the project, and then reorders any column named, whoever owns it | user 1 sends an entry for user 2's column 1 with no project id | only columns the caller may change (the rule of `delete_column`) are reordered | medium (not executed) | `KanbanManagement.ReorderChangesForeignColumn` | `KanbanManagement.CheckedReorderSparesForeign` |
| backend/usecase/reminder_management/service.py:160-165 | `max_reminders` is passed as the limit without an offset, so the filter resets the window to 20 rows | 30 due reminders, `max_reminders` = 100 | up to `max_reminders` reminders are handled | high (not executed) | `ReminderManagement.ProcessFetchesTwenty` | `ReminderManagement.ProcessUpToFetchesMax` |
| backend/usecase/todo_management/service.py:23-24 | progress asks the subtask repository with only the todo id, so it counts the 20 newest subtasks of the todo | a todo with 21 subtasks, all Done but the oldest | the share of Done subtasks among all of the todo's subtasks | high (not executed) | `TodoManagement.ProgressIgnoresOldest` | `TodoManagement.ProgressOfAll` |
| backend/usecase/project_management/service.py:189-196 | the membership query passes limit and offset None, so it gets the default 20 rows although it means to get all | a user who is a member of 21 projects owned by others; list their projects | every project the user is a member of is considered | high (not executed) | `ProjectManagement.MembershipWindowMissesProject` | `ProjectManagement.GetProjectsAllMemberships` |
| backend/lib/validators.py:14-15 | the pattern's `$` with `re.match` also matches just before a trailing newline | "a@b.co\n" | only a whole-string address is accepted | high (not executed) | `Validators.EmailTrailingNewlineAccepted` | `Validators.ValidateEmailStrict` |
