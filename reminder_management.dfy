/** Reminder use cases (backend/usecase/reminder_management/service.py): create, update and
    delete with an owner check, and the scheduled run that sends every due reminder and
    marks it Sent or Failed. The user table is a map from user id to contact details, and
    whether a send on a channel goes through is an oracle `sends(reminderId, channel)`. */
module ReminderManagement {
  import opened Wrappers
  import opened BaseModels
  import opened ReminderRepository

  datatype CreateReminderRequest = CreateReminderRequest(
    title: string,
    message: Option<string>,
    reminderTime: int,
    channels: seq<string>,
    todoId: Option<int>,
    userId: int,
    reminderType: string)

  datatype CreateReminderResponse = CreateReminderResponse(
    reminderId: int,
    title: string,
    reminderTime: int,
    status: string,
    createdAt: int)

  datatype UpdateReminderRequest = UpdateReminderRequest(
    reminderId: int,
    userId: int,
    title: Option<string>,
    message: Option<string>,
    reminderTime: Option<int>,
    channels: Option<seq<string>>,
    status: Option<string>)

  datatype UpdateReminderResponse = UpdateReminderResponse(
    reminderId: int,
    title: string,
    reminderTime: int,
    status: string,
    updatedAt: int)

  datatype ProcessRemindersRequest = ProcessRemindersRequest(currentTime: int, maxReminders: Option<int>)

  datatype ProcessRemindersResponse = ProcessRemindersResponse(processed: int, sent: int, failed: int)

  /** The contact details of a user: an empty string is a missing address or number. */
  datatype Contact = Contact(email: string, phone: string)

  datatype ReminderError =
    | ReminderTitleRequired
    | ReminderNotFoundById(reminderId: int)
    | ReminderAccessDenied(reminderId: int, userId: int)
    | InvalidFilter(reason: ValidationError)

  /** The default `max_reminders` of a run. */
  const DefaultMaxReminders: int := 100

  // ----- create, update, delete -----

  /** The repository request `create_reminder` sends: a Pending reminder, never sent, created
      and updated now, with "" for a missing message and ["Email"] for an empty channel list. */
  function CreateRequestFor(req: CreateReminderRequest, now: int): (c: ReminderCreateRequest)
    ensures c.title == req.title && c.reminderTime == req.reminderTime && c.userId == req.userId
    ensures c.todoId == req.todoId && c.reminderType == req.reminderType
    ensures c.message == Some(if req.message.Some? then req.message.value else "")
    ensures c.channels == if req.channels != [] then req.channels else [Email]
    ensures c.status == Pending && c.sentAt.None? && c.createdAt == now && c.updatedAt == now
  {
    ReminderCreateRequest(req.title, Some(if req.message.Some? then req.message.value else ""), req.reminderTime,
                          if req.channels != [] then req.channels else [Email], req.todoId, req.userId,
                          req.reminderType, Pending, now, now, None)
  }

  /** `create_reminder`: an empty title is refused before anything is stored; otherwise one
      Pending, unsent row is appended and described in the response. */
  method CreateReminder(store: ReminderStore, req: CreateReminderRequest, now: int)
    returns (r: Result<CreateReminderResponse, ReminderError>)
    requires store.Valid()
    modifies store
    ensures store.Valid()
    ensures req.title == [] ==> r == Failure(ReminderTitleRequired)
    ensures r.Failure? <==> req.title == []
    ensures r.Failure? ==> store.rows == old(store.rows) && store.nextId == old(store.nextId)
    ensures r.Success? ==> |store.rows| == |old(store.rows)| + 1
    ensures r.Success? ==>
      var row := store.rows[|old(store.rows)|];
      && store.rows == old(store.rows) + [row]
      && row.id == old(store.nextId) && row.userId == req.userId && row.title == req.title
      && row.status == Pending && row.sentAt.None? && row.createdAt == now && row.updatedAt == now
      && row.channels == (if req.channels != [] then req.channels else [Email])
      && row.message == (if req.message.Some? then req.message.value else "")
      && r.value == CreateReminderResponse(row.id, row.title, row.reminderTime, row.status, row.createdAt)
  {
    if req.title == [] {
      return Failure(ReminderTitleRequired);
    }
    var created := store.Create(CreateRequestFor(req, now));
    var row := created.value;
    r := Success(CreateReminderResponse(row.id, row.title, row.reminderTime, row.status, row.createdAt));
  }

  /** The owner check of `update_reminder` and `delete_reminder`: a missing reminder is
      reported before a foreign one, and only the owner passes. */
  function ReminderAccess(rows: seq<Reminder>, reminderId: int, userId: int): (r: Option<ReminderError>)
    requires Ascending(rows, IdOf)
    ensures (forall x | x in rows :: x.id != reminderId) ==> r == Some(ReminderNotFoundById(reminderId))
    ensures (exists x | x in rows && x.id == reminderId :: x.userId != userId) ==> r == Some(ReminderAccessDenied(reminderId, userId))
    ensures r.None? <==> exists x | x in rows :: x.id == reminderId && x.userId == userId
  {
    match FindBy(rows, reminderId, IdOf)
    case None => Some(ReminderNotFoundById(reminderId))
    case Some(i) =>
      assert forall x | x in rows && x.id == reminderId :: x == rows[i] by {
        forall x | x in rows && x.id == reminderId ensures x == rows[i] {
          var k :| 0 <= k < |rows| && rows[k] == x;
          assert IdOf(rows[k]) == IdOf(rows[i]);
        }
      }
      if rows[i].userId != userId then Some(ReminderAccessDenied(reminderId, userId)) else None
  }

  /** The repository update `update_reminder` sends: the caller's fields, updated now, and no
      sent time. */
  function UpdateFor(req: UpdateReminderRequest, now: int): (u: ReminderUpdateRequest)
    ensures u.title == req.title && u.message == req.message && u.reminderTime == req.reminderTime
    ensures u.channels == req.channels && u.status == req.status
    ensures u.sentAt.None? && u.updatedAt == Some(now)
  {
    ReminderUpdateRequest(req.title, req.message, req.reminderTime, req.channels, req.status, None, Some(now))
  }

  /** `update_reminder`: NotFound, then AccessDenied, each leaving the table alone; the owner's
      update changes only that row, never its sent time, owner or todo. */
  method UpdateReminder(store: ReminderStore, req: UpdateReminderRequest, now: int)
    returns (r: Result<UpdateReminderResponse, ReminderError>)
    requires store.Valid()
    modifies store
    ensures store.Valid() && store.nextId == old(store.nextId)
    ensures var g := old(ReminderAccess(store.rows, req.reminderId, req.userId));
      && (g.Some? ==> r == Failure(g.value) && store.rows == old(store.rows))
      && (g.None? ==>
            var i := FindBy(old(store.rows), req.reminderId, IdOf).value;
            var row := ApplyReminderUpdate(old(store.rows)[i], UpdateFor(req, now));
            && store.rows == old(store.rows)[i := row]
            && row.sentAt == old(store.rows)[i].sentAt && row.userId == req.userId
            && r == Success(UpdateReminderResponse(row.id, row.title, row.reminderTime, row.status, row.updatedAt)))
  {
    var denied := ReminderAccess(store.rows, req.reminderId, req.userId);
    if denied.Some? {
      return Failure(denied.value);
    }
    var updated := store.Update(req.reminderId, UpdateFor(req, now));
    var row := updated.value;
    r := Success(UpdateReminderResponse(row.id, row.title, row.reminderTime, row.status, row.updatedAt));
  }

  /** `delete_reminder`: NotFound, then AccessDenied, each leaving the table alone; the owner's
      reminder, and only it, leaves the table. */
  method DeleteReminder(store: ReminderStore, reminderId: int, userId: int) returns (r: Result<(), ReminderError>)
    requires store.Valid()
    modifies store
    ensures store.Valid() && store.nextId == old(store.nextId)
    ensures var g := old(ReminderAccess(store.rows, reminderId, userId));
      && (g.Some? ==> r == Failure(g.value) && store.rows == old(store.rows))
      && (g.None? ==>
            var i := FindBy(old(store.rows), reminderId, IdOf).value;
            && r == Success(())
            && old(store.rows)[i].userId == userId
            && store.rows == old(store.rows)[..i] + old(store.rows)[i + 1..])
  {
    var denied := ReminderAccess(store.rows, reminderId, userId);
    if denied.Some? {
      return Failure(denied.value);
    }
    var _ := store.Delete(reminderId);
    r := Success(());
  }

  // ----- process_reminders -----

  /** The reminders a run fetches: Pending ones, and, when the current time is truthy, only
      those due at or before it. */
  predicate Due(x: Reminder, currentTime: int) {
    x.status == Pending && (currentTime != 0 ==> x.reminderTime <= currentTime)
  }

  function DueAt(currentTime: int): Reminder -> bool {
    x => Due(x, currentTime)
  }

  /** The window of the fetch as written: `max_reminders` is passed as the limit but no offset,
      so a valid limit is replaced by the default window of 20 rows from the start. */
  function ProcessWindow(req: ProcessRemindersRequest): (r: Result<Page, ValidationError>)
    ensures r.Failure? <==> req.maxReminders.Some? && req.maxReminders.value < 1
    ensures r.Success? ==> r.value == Page(DefaultLimit, DefaultOffset)
  {
    ValidatePage(req.maxReminders, None)
  }

  /** The window the request asks for: at most `max_reminders` rows from the start. */
  function ProcessWindowUpTo(req: ProcessRemindersRequest): (r: Result<Page, ValidationError>)
    ensures r.Failure? <==> req.maxReminders.Some? && req.maxReminders.value < 1
    ensures r.Success? && req.maxReminders.Some? ==> r.value == Page(req.maxReminders.value, 0)
    ensures req.maxReminders.None? ==> r == Success(Page(DefaultLimit, DefaultOffset))
  {
    ValidatePage(req.maxReminders, Some(0))
  }

  /** A channel the user can be reached on: Email needs an email address, SMS a phone number,
      and no other channel is ever sent. */
  predicate Reaches(channel: string, c: Contact) {
    (channel == Email && c.email != "") || (channel == SMS && c.phone != "")
  }

  /** At least one of the reminder's channels reaches the user and its send goes through. */
  predicate Delivers(r: Reminder, c: Contact, sends: (int, string) -> bool) {
    exists k | 0 <= k < |r.channels| :: Reaches(r.channels[k], c) && sends(r.id, r.channels[k])
  }

  /** The inner loop over the channels of one reminder: `success` ends true exactly when some
      channel reaches the user and its send goes through. */
  method Deliver(r: Reminder, c: Contact, sends: (int, string) -> bool) returns (success: bool)
    ensures success <==> Delivers(r, c, sends)
    ensures success ==> r.channels != []
  {
    success := false;
    for i := 0 to |r.channels|
      invariant success <==> exists k | 0 <= k < i :: Reaches(r.channels[k], c) && sends(r.id, r.channels[k])
    {
      var channel := r.channels[i];
      if channel == Email && c.email != "" {
        if sends(r.id, channel) {
          success := true;
        }
      } else if channel == SMS && c.phone != "" {
        if sends(r.id, channel) {
          success := true;
        }
      }
    }
  }

  /** What a run does with one fetched reminder. */
  datatype Verdict = NoUser | Delivered | Undelivered

  function VerdictFor(r: Reminder, users: map<int, Contact>, sends: (int, string) -> bool): (v: Verdict)
    ensures v == NoUser <==> r.userId !in users
    ensures v == Delivered <==> r.userId in users && Delivers(r, users[r.userId], sends)
  {
    if r.userId !in users then NoUser
    else if Delivers(r, users[r.userId], sends) then Delivered
    else Undelivered
  }

  /** The status write after the channel loop: Sent with a sent time, or Failed without one. */
  function StatusUpdate(delivered: bool, now: int): (u: ReminderUpdateRequest)
    ensures u.title.None? && u.message.None? && u.reminderTime.None? && u.channels.None?
    ensures u.status == Some(if delivered then Sent else Failed)
    ensures u.sentAt == (if delivered then Some(now) else None)
    ensures u.updatedAt == Some(now)
  {
    ReminderUpdateRequest(None, None, None, None, Some(if delivered then Sent else Failed),
                          if delivered then Some(now) else None, Some(now))
  }

  /** The row a reminder becomes once a run has handled it. */
  function Settled(r: Reminder, users: map<int, Contact>, sends: (int, string) -> bool, now: int): (s: Reminder)
    ensures r.userId !in users ==> s == r
    ensures s.id == r.id && s.userId == r.userId && s.channels == r.channels && s.title == r.title
    ensures s.message == r.message && s.reminderTime == r.reminderTime && s.createdAt == r.createdAt
    ensures r.userId in users ==> (s.status == Sent <==> Delivers(r, users[r.userId], sends))
    ensures r.userId in users && Delivers(r, users[r.userId], sends) ==> s.status == Sent && s.sentAt == Some(now)
    ensures r.userId in users && !Delivers(r, users[r.userId], sends) ==> s.status == Failed && s.sentAt == r.sentAt
    ensures r.userId in users ==> s.updatedAt == if now != 0 then now else r.updatedAt
  {
    match VerdictFor(r, users, sends)
    case NoUser => r
    case Delivered => ApplyReminderUpdate(r, StatusUpdate(true, now))
    case Undelivered => ApplyReminderUpdate(r, StatusUpdate(false, now))
  }

  /** The table after one fetched reminder `b` has been handled: nothing is written when its
      user is missing; otherwise its status is written to the row with its id. */
  function Step(rows: seq<Reminder>, b: Reminder, users: map<int, Contact>, sends: (int, string) -> bool, now: int)
    : seq<Reminder>
  {
    match VerdictFor(b, users, sends)
    case NoUser => rows
    case v =>
      match FindBy(rows, b.id, IdOf)
      case None => rows
      case Some(i) => rows[i := ApplyReminderUpdate(rows[i], StatusUpdate(v == Delivered, now))]
  }

  /** The table after a run has handled the fetched reminders in order. */
  function ProcessAll(rows: seq<Reminder>, batch: seq<Reminder>, users: map<int, Contact>,
                      sends: (int, string) -> bool, now: int): seq<Reminder>
    decreases |batch|
  {
    if batch == [] then rows
    else Step(ProcessAll(rows, batch[..|batch| - 1], users, sends, now), batch[|batch| - 1], users, sends, now)
  }

  /** `sent_count` and `failed_count` after handling the fetched reminders. */
  function SentCount(batch: seq<Reminder>, users: map<int, Contact>, sends: (int, string) -> bool): (n: nat)
    ensures n <= |batch|
    decreases |batch|
  {
    if batch == [] then 0
    else
      SentCount(batch[..|batch| - 1], users, sends) + if VerdictFor(batch[|batch| - 1], users, sends) == Delivered then 1 else 0
  }

  function FailedCount(batch: seq<Reminder>, users: map<int, Contact>, sends: (int, string) -> bool): (n: nat)
    ensures n <= |batch|
    decreases |batch|
  {
    if batch == [] then 0
    else
      FailedCount(batch[..|batch| - 1], users, sends) + if VerdictFor(batch[|batch| - 1], users, sends) != Delivered then 1 else 0
  }

  /** Every fetched reminder is counted exactly once, as sent or as failed. */
  lemma {:induction false} CountsAddUp(batch: seq<Reminder>, users: map<int, Contact>, sends: (int, string) -> bool)
    ensures SentCount(batch, users, sends) + FailedCount(batch, users, sends) == |batch|
  {
    if batch != [] {
      CountsAddUp(batch[..|batch| - 1], users, sends);
    }
  }

  /** A reminder counts as sent exactly when its row ends Sent: over a batch of distinct rows,
      the sent count is the number of fetched rows whose settled status is Sent. */
  lemma {:induction false} SentCountIsDelivered(batch: seq<Reminder>, users: map<int, Contact>, sends: (int, string) -> bool)
    ensures SentCount(batch, users, sends) == |Where(batch, (b: Reminder) => VerdictFor(b, users, sends) == Delivered)|
  {
    if batch != [] {
      var n := |batch| - 1;
      SentCountIsDelivered(batch[..n], users, sends);
      WhereSnoc(batch[..n], batch[n], (b: Reminder) => VerdictFor(b, users, sends) == Delivered);
      assert batch[..n] + [batch[n]] == batch;
    }
  }

  /** Filtering a sequence with one more row at the end. */
  lemma {:induction false} WhereSnoc<T>(rows: seq<T>, x: T, keep: T -> bool)
    ensures |Where(rows + [x], keep)| == |Where(rows, keep)| + if keep(x) then 1 else 0
  {
    if rows == [] {
      assert rows + [x] == [x];
      assert [x][1..] == [];
    } else {
      WhereSnoc(rows[1..], x, keep);
      assert (rows + [x])[1..] == rows[1..] + [x];
      assert (rows + [x])[0] == rows[0];
    }
  }

  /** One more fetched row of the table settles that row and leaves every other row of a
      partly handled table as it was. */
  lemma StepSettles(rows: seq<Reminder>, init: seq<Reminder>, cur: seq<Reminder>, b: Reminder,
                    users: map<int, Contact>, sends: (int, string) -> bool, now: int)
    requires Ascending(rows, IdOf) && b in rows && |cur| == |rows|
    requires forall k | 0 <= k < |rows| :: cur[k] == if rows[k] in init then Settled(rows[k], users, sends, now) else rows[k]
    ensures |Step(cur, b, users, sends, now)| == |rows|
    ensures forall k | 0 <= k < |rows| ::
      Step(cur, b, users, sends, now)[k] == if rows[k] in init + [b] then Settled(rows[k], users, sends, now) else rows[k]
  {
    assert forall k | 0 <= k < |rows| :: cur[k].id == rows[k].id;
    assert Ascending(cur, IdOf);
    var j :| 0 <= j < |rows| && rows[j] == b;
    FindByAscending(cur, j, IdOf);
    var v := VerdictFor(b, users, sends);
    ApplyReminderUpdateIdempotent(rows[j], StatusUpdate(v == Delivered, now));
    var next := Step(cur, b, users, sends, now);
    forall k | 0 <= k < |rows|
      ensures next[k] == if rows[k] in init + [b] then Settled(rows[k], users, sends, now) else rows[k]
    {
      assert rows[k] in init + [b] <==> rows[k] in init || rows[k] == b;
      if k != j {
        assert IdOf(rows[k]) != IdOf(rows[j]);
      }
    }
  }

  /** Over a table in ascending id order, handling fetched rows of that table settles exactly
      the fetched rows and leaves every other row as it was; fetching a row twice changes
      nothing more than fetching it once. */
  lemma {:induction false} ProcessAllSettles(rows: seq<Reminder>, batch: seq<Reminder>, users: map<int, Contact>,
                                             sends: (int, string) -> bool, now: int)
    requires Ascending(rows, IdOf)
    requires forall b | b in batch :: b in rows
    ensures |ProcessAll(rows, batch, users, sends, now)| == |rows|
    ensures forall k | 0 <= k < |rows| ::
      ProcessAll(rows, batch, users, sends, now)[k] == if rows[k] in batch then Settled(rows[k], users, sends, now) else rows[k]
  {
    if batch != [] {
      var n := |batch| - 1;
      var init := batch[..n];
      assert forall x | x in init :: x in batch;
      ProcessAllSettles(rows, init, users, sends, now);
      StepSettles(rows, init, ProcessAll(rows, init, users, sends, now), batch[n], users, sends, now);
      assert init + [batch[n]] == batch;
    }
  }

  /** One turn of that loop, as the folds over the first i + 1 reminders see it. */
  lemma ProcessStep(rows: seq<Reminder>, batch: seq<Reminder>, i: nat, users: map<int, Contact>,
                    sends: (int, string) -> bool, now: int)
    requires i < |batch|
    ensures ProcessAll(rows, batch[..i + 1], users, sends, now) == Step(ProcessAll(rows, batch[..i], users, sends, now), batch[i], users, sends, now)
    ensures SentCount(batch[..i + 1], users, sends) == SentCount(batch[..i], users, sends) + if VerdictFor(batch[i], users, sends) == Delivered then 1 else 0
    ensures FailedCount(batch[..i + 1], users, sends) == FailedCount(batch[..i], users, sends) + if VerdictFor(batch[i], users, sends) != Delivered then 1 else 0
  {
    assert batch[..i + 1][..i] == batch[..i];
  }

  /** The loop of a run over the fetched reminders: a missing user counts as failed with no
      write; otherwise the channels are tried and the row is marked Sent or Failed. */
  method ProcessBatch(store: ReminderStore, batch: seq<Reminder>, users: map<int, Contact>,
                      sends: (int, string) -> bool, now: int) returns (sent: int, failed: int)
    requires store.Valid()
    modifies store
    ensures store.Valid() && store.nextId == old(store.nextId)
    ensures store.rows == ProcessAll(old(store.rows), batch, users, sends, now)
    ensures sent == SentCount(batch, users, sends) && failed == FailedCount(batch, users, sends)
  {
    sent, failed := 0, 0;
    ghost var rows0 := store.rows;
    for i := 0 to |batch|
      invariant store.Valid() && store.nextId == old(store.nextId)
      invariant store.rows == ProcessAll(rows0, batch[..i], users, sends, now)
      invariant sent == SentCount(batch[..i], users, sends) && failed == FailedCount(batch[..i], users, sends)
    {
      var b := batch[i];
      ProcessStep(rows0, batch, i, users, sends, now);
      if b.userId !in users {
        failed := failed + 1;
      } else {
        var success := Deliver(b, users[b.userId], sends);
        var _ := store.Update(b.id, StatusUpdate(success, now));
        if success {
          sent := sent + 1;
        } else {
          failed := failed + 1;
        }
      }
    }
    assert batch[..|batch|] == batch;
  }

  /** The reminders a run fetches through a window: due, earliest first. */
  function DueBatch(rows: seq<Reminder>, currentTime: int, p: Page): (r: seq<Reminder>)
    requires p.limit >= 1 && p.offset >= 0
    ensures forall x | x in r :: x in rows && x.status == Pending && (currentTime != 0 ==> x.reminderTime <= currentTime)
    ensures SortedBy(r, TimeOf)
    ensures p.offset == 0 ==> |r| == if |Where(rows, DueAt(currentTime))| < p.limit then |Where(rows, DueAt(currentTime))| else p.limit
  {
    ByTime(rows, DueAt(currentTime), p)
  }

  /** One run through a window: fetch, handle each reminder, report the counts. */
  method Run(store: ReminderStore, window: Result<Page, ValidationError>, currentTime: int, users: map<int, Contact>,
             sends: (int, string) -> bool, now: int) returns (r: Result<ProcessRemindersResponse, ReminderError>)
    requires store.Valid()
    requires window.Success? ==> window.value.limit >= 1 && window.value.offset >= 0
    modifies store
    ensures store.Valid() && store.nextId == old(store.nextId)
    ensures window.Failure? ==> r == Failure(InvalidFilter(window.error)) && store.rows == old(store.rows)
    ensures window.Success? ==>
      var batch := DueBatch(old(store.rows), currentTime, window.value);
      && r == Success(ProcessRemindersResponse(|batch|, SentCount(batch, users, sends), FailedCount(batch, users, sends)))
      && r.value.sent + r.value.failed == r.value.processed
      && store.rows == ProcessAll(old(store.rows), batch, users, sends, now)
      && |store.rows| == |old(store.rows)|
      && forall k | 0 <= k < |old(store.rows)| ::
           store.rows[k] == if old(store.rows)[k] in batch then Settled(old(store.rows)[k], users, sends, now) else old(store.rows)[k]
  {
    if window.Failure? {
      return Failure(InvalidFilter(window.error));
    }
    var batch := DueBatch(store.rows, currentTime, window.value);
    ProcessAllSettles(store.rows, batch, users, sends, now);
    CountsAddUp(batch, users, sends);
    var sent, failed := ProcessBatch(store, batch, users, sends, now);
    r := Success(ProcessRemindersResponse(|batch|, sent, failed));
  }

  /** `process_reminders` as written: a `max_reminders` below 1 is refused by the filter;
      otherwise the 20 earliest due reminders are handled, whatever `max_reminders` says. */
  method ProcessReminders(store: ReminderStore, req: ProcessRemindersRequest, users: map<int, Contact>,
                          sends: (int, string) -> bool, now: int) returns (r: Result<ProcessRemindersResponse, ReminderError>)
    requires store.Valid()
    modifies store
    ensures store.Valid() && store.nextId == old(store.nextId)
    ensures req.maxReminders.Some? && req.maxReminders.value < 1 ==>
      r == Failure(InvalidFilter(LimitBelowOne)) && store.rows == old(store.rows)
    ensures !(req.maxReminders.Some? && req.maxReminders.value < 1) ==>
      var batch := DueBatch(old(store.rows), req.currentTime, Page(DefaultLimit, DefaultOffset));
      && r == Success(ProcessRemindersResponse(|batch|, SentCount(batch, users, sends), FailedCount(batch, users, sends)))
      && r.value.sent + r.value.failed == r.value.processed <= DefaultLimit
      && store.rows == ProcessAll(old(store.rows), batch, users, sends, now)
  {
    r := Run(store, ProcessWindow(req), req.currentTime, users, sends, now);
  }

  /** `process_reminders` with the window the request asks for: up to `max_reminders` of the
      earliest due reminders (the default 20 when it is None). */
  method ProcessRemindersUpTo(store: ReminderStore, req: ProcessRemindersRequest, users: map<int, Contact>,
                              sends: (int, string) -> bool, now: int) returns (r: Result<ProcessRemindersResponse, ReminderError>)
    requires store.Valid()
    modifies store
    ensures store.Valid() && store.nextId == old(store.nextId)
    ensures req.maxReminders.Some? && req.maxReminders.value < 1 ==>
      r == Failure(InvalidFilter(LimitBelowOne)) && store.rows == old(store.rows)
    ensures req.maxReminders.Some? && req.maxReminders.value >= 1 ==>
      var batch := DueBatch(old(store.rows), req.currentTime, Page(req.maxReminders.value, 0));
      && r == Success(ProcessRemindersResponse(|batch|, SentCount(batch, users, sends), FailedCount(batch, users, sends)))
      && r.value.sent + r.value.failed == r.value.processed <= req.maxReminders.value
      && store.rows == ProcessAll(old(store.rows), batch, users, sends, now)
    ensures req.maxReminders.None? ==>
      var batch := DueBatch(old(store.rows), req.currentTime, Page(DefaultLimit, DefaultOffset));
      && r == Success(ProcessRemindersResponse(|batch|, SentCount(batch, users, sends), FailedCount(batch, users, sends)))
      && r.value.sent + r.value.failed == r.value.processed <= DefaultLimit
      && store.rows == ProcessAll(old(store.rows), batch, users, sends, now)
  {
    r := Run(store, ProcessWindowUpTo(req), req.currentTime, users, sends, now);
  }

  /** As written, a run with more than 20 due reminders handles exactly 20 of them, even when
      `max_reminders` allows more. */
  lemma ProcessFetchesTwenty(rows: seq<Reminder>, req: ProcessRemindersRequest)
    requires forall x | x in rows :: Due(x, req.currentTime)
    requires |rows| > DefaultLimit
    requires req.maxReminders == Some(DefaultMaxReminders)
    ensures ProcessWindow(req).Success?
    ensures |DueBatch(rows, req.currentTime, ProcessWindow(req).value)| == DefaultLimit < req.maxReminders.value
  {
    WhereAll(rows, DueAt(req.currentTime));
  }

  /** With the intended window, a run handles `max_reminders` of them, or all when fewer are due. */
  lemma ProcessUpToFetchesMax(rows: seq<Reminder>, req: ProcessRemindersRequest)
    requires forall x | x in rows :: Due(x, req.currentTime)
    requires req.maxReminders.Some? && req.maxReminders.value >= 1
    ensures ProcessWindowUpTo(req).Success?
    ensures |DueBatch(rows, req.currentTime, ProcessWindowUpTo(req).value)| ==
      if |rows| < req.maxReminders.value then |rows| else req.maxReminders.value
  {
    WhereAll(rows, DueAt(req.currentTime));
  }
}
