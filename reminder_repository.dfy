/** The reminder table and its repository (backend/repository/reminder/service.py).
    The table is a sequence of rows in insertion order; ids come from an auto-increment
    counter, so this is ascending id order. */
module ReminderRepository {
  import opened Wrappers
  import opened BaseModels

  const Pending: string := "Pending"
  const Sent: string := "Sent"
  const Failed: string := "Failed"
  const Email: string := "Email"
  const SMS: string := "SMS"

  /** A stored reminder row, as `ReminderDTO.from_model` exposes it. */
  datatype Reminder = Reminder(
    id: int,
    title: string,
    message: string,
    reminderTime: int,
    sentAt: Option<int>,
    channels: seq<string>,
    todoId: Option<int>,
    userId: int,
    reminderType: string,
    status: string,
    createdAt: int,
    updatedAt: int)

  datatype ReminderCreateRequest = ReminderCreateRequest(
    title: string,
    message: Option<string>,
    reminderTime: int,
    channels: seq<string>,
    todoId: Option<int>,
    userId: int,
    reminderType: string,
    status: string,
    createdAt: int,
    updatedAt: int,
    sentAt: Option<int>)

  /** `ReminderUpdateRequest`: None means "leave unchanged". */
  datatype ReminderUpdateRequest = ReminderUpdateRequest(
    title: Option<string>,
    message: Option<string>,
    reminderTime: Option<int>,
    channels: Option<seq<string>>,
    status: Option<string>,
    sentAt: Option<int>,
    updatedAt: Option<int>)

  datatype ReminderRepoError = TitleRequired | NotFound(reminderId: int)

  /** The row `create` stores under `id`: a missing or empty message becomes "" and an empty
      channel list becomes ["Email"]; everything else is stored as given. */
  function FromCreate(id: int, req: ReminderCreateRequest): (r: Reminder)
    ensures r.id == id && r.title == req.title && r.reminderTime == req.reminderTime
    ensures req.message.Some? ==> r.message == req.message.value
    ensures req.message.None? ==> r.message == ""
    ensures req.channels != [] ==> r.channels == req.channels
    ensures req.channels == [] ==> r.channels == [Email]
    ensures r.todoId == req.todoId && r.userId == req.userId && r.reminderType == req.reminderType
    ensures r.status == req.status && r.sentAt == req.sentAt
    ensures r.createdAt == req.createdAt && r.updatedAt == req.updatedAt
  {
    Reminder(id, req.title, if req.message.Some? then req.message.value else "", req.reminderTime, req.sentAt,
             if req.channels != [] then req.channels else [Email], req.todoId, req.userId, req.reminderType,
             req.status, req.createdAt, req.updatedAt)
  }

  /** The row `update` saves: None fields are left alone, updated_at is written only when
      truthy, and id, owner, todo, type and created_at are never written. */
  function ApplyReminderUpdate(r: Reminder, u: ReminderUpdateRequest): (s: Reminder)
    ensures s.id == r.id && s.userId == r.userId && s.todoId == r.todoId
    ensures s.reminderType == r.reminderType && s.createdAt == r.createdAt
    ensures u.title.None? ==> s.title == r.title
    ensures u.title.Some? ==> s.title == u.title.value
    ensures u.message.None? ==> s.message == r.message
    ensures u.message.Some? ==> s.message == u.message.value
    ensures u.reminderTime.None? ==> s.reminderTime == r.reminderTime
    ensures u.reminderTime.Some? ==> s.reminderTime == u.reminderTime.value
    ensures u.channels.None? ==> s.channels == r.channels
    ensures u.channels.Some? ==> s.channels == u.channels.value
    ensures u.status.None? ==> s.status == r.status
    ensures u.status.Some? ==> s.status == u.status.value
    ensures u.sentAt.None? ==> s.sentAt == r.sentAt
    ensures u.sentAt.Some? ==> s.sentAt == u.sentAt
    ensures IsSet(u.updatedAt) ==> s.updatedAt == u.updatedAt.value
    ensures !IsSet(u.updatedAt) ==> s.updatedAt == r.updatedAt
  {
    Reminder(r.id, Pick(u.title, r.title), Pick(u.message, r.message), Pick(u.reminderTime, r.reminderTime),
             PickOpt(u.sentAt, r.sentAt), Pick(u.channels, r.channels), r.todoId, r.userId, r.reminderType,
             Pick(u.status, r.status), r.createdAt, if IsSet(u.updatedAt) then u.updatedAt.value else r.updatedAt)
  }

  /** Saving the same update twice stores the same row as saving it once. */
  lemma ApplyReminderUpdateIdempotent(r: Reminder, u: ReminderUpdateRequest)
    ensures ApplyReminderUpdate(ApplyReminderUpdate(r, u), u) == ApplyReminderUpdate(r, u)
  {
  }

  function IdOf(r: Reminder): int {
    r.id
  }

  function TimeOf(r: Reminder): int {
    r.reminderTime
  }

  /** Sorting by time keeps exactly the rows there were. */
  lemma SortByKeeps(kept: seq<Reminder>)
    ensures |SortBy(kept, TimeOf)| == |kept|
    ensures forall x :: x in SortBy(kept, TimeOf) <==> x in kept
  {
    var sorted := SortBy(kept, TimeOf);
    forall x ensures x in sorted <==> x in kept {
      assert x in sorted <==> x in multiset(sorted);
      assert x in kept <==> x in multiset(kept);
    }
    assert |sorted| == |multiset(sorted)|;
  }

  /** `get_reminders` ordered by reminder time: the rows that pass `keep`, earliest first
      (rows of equal time in table order), cut to the window. */
  function ByTime(rows: seq<Reminder>, keep: Reminder -> bool, p: Page): (r: seq<Reminder>)
    requires p.limit >= 1 && p.offset >= 0
    ensures |r| <= p.limit
    ensures p.offset == 0 ==> |r| == if |Where(rows, keep)| < p.limit then |Where(rows, keep)| else p.limit
    ensures forall x | x in r :: x in rows && keep(x)
    ensures p.offset == 0 && |Where(rows, keep)| <= p.limit ==> forall x | x in rows && keep(x) :: x in r
    ensures SortedBy(r, TimeOf)
  {
    var kept := Where(rows, keep);
    var sorted := SortBy(kept, TimeOf);
    SortBySorted(kept, TimeOf);
    SortByKeeps(kept);
    WindowFacts(sorted, p);
    WindowOrdered(sorted, p, TimeOf);
    Window(sorted, p)
  }

  class ReminderStore {
    var rows: seq<Reminder>
    var nextId: int

    /** Rows are in ascending id order and the auto-increment counter is above every id. */
    ghost predicate Valid()
      reads this
    {
      && nextId >= 1
      && Ascending(rows, IdOf)
      && forall r | r in rows :: 1 <= r.id < nextId
    }

    constructor ()
      ensures Valid() && rows == [] && nextId == 1
    {
      rows := [];
      nextId := 1;
    }

    /** `create`: an empty title raises TitleRequired and stores nothing; otherwise a row with
        a fresh id is appended. */
    method Create(req: ReminderCreateRequest) returns (r: Result<Reminder, ReminderRepoError>)
      requires Valid()
      modifies this
      ensures Valid()
      ensures req.title == [] ==> r == Failure(TitleRequired) && rows == old(rows) && nextId == old(nextId)
      ensures req.title != [] ==>
        && r == Success(FromCreate(old(nextId), req))
        && (forall x | x in old(rows) :: x.id != r.value.id)
        && rows == old(rows) + [r.value]
        && nextId == old(nextId) + 1
    {
      if req.title == [] {
        return Failure(TitleRequired);
      }
      var x := FromCreate(nextId, req);
      rows := rows + [x];
      nextId := nextId + 1;
      r := Success(x);
    }

    /** `get_by_id`: None for an unknown id, otherwise the row with that id. */
    function GetById(id: int): (r: Option<Reminder>)
      requires Valid()
      reads this
      ensures r.None? <==> forall x | x in rows :: x.id != id
      ensures r.Some? ==> r.value in rows && r.value.id == id
    {
      match FindBy(rows, id, IdOf)
      case None => None
      case Some(i) => Some(rows[i])
    }

    /** `update`: an unknown id raises NotFound; otherwise the given fields of that row are
        written, as `ApplyReminderUpdate` describes, and no other row changes. */
    method Update(id: int, u: ReminderUpdateRequest) returns (r: Result<Reminder, ReminderRepoError>)
      requires Valid()
      modifies this
      ensures Valid() && nextId == old(nextId)
      ensures FindBy(old(rows), id, IdOf).None? ==> r == Failure(NotFound(id)) && rows == old(rows)
      ensures FindBy(old(rows), id, IdOf).Some? ==>
        var i := FindBy(old(rows), id, IdOf).value;
        && r == Success(ApplyReminderUpdate(old(rows)[i], u))
        && rows == old(rows)[i := r.value]
    {
      var found := FindBy(rows, id, IdOf);
      if found.None? {
        return Failure(NotFound(id));
      }
      var i := found.value;
      var x := ApplyReminderUpdate(rows[i], u);
      ReplaceAt(rows, i, x, IdOf);
      rows := rows[i := x];
      r := Success(x);
    }

    /** `delete`: an unknown id raises NotFound; otherwise exactly that row leaves the table. */
    method Delete(id: int) returns (r: Result<(), ReminderRepoError>)
      requires Valid()
      modifies this
      ensures Valid() && nextId == old(nextId)
      ensures FindBy(old(rows), id, IdOf).None? ==> r == Failure(NotFound(id)) && rows == old(rows)
      ensures FindBy(old(rows), id, IdOf).Some? ==>
        var i := FindBy(old(rows), id, IdOf).value;
        r == Success(()) && rows == old(rows)[..i] + old(rows)[i + 1..]
    {
      var found := FindBy(rows, id, IdOf);
      if found.None? {
        return Failure(NotFound(id));
      }
      var i := found.value;
      RemoveAt(rows, i, IdOf);
      rows := rows[..i] + rows[i + 1..];
      r := Success(());
    }
  }
}
