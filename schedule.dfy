/** The scheduling engine of app.js as pure functions over the appointment list: the decision of
    POST /appointments (app.js:268-304) and of DELETE /appointments/:id (app.js:389-405), the list each
    leaves behind, and the invariant the service keeps. The class in service.dfy performs these on
    its mutable list. */
module Schedule {
  import opened Wrappers
  import opened Errors
  import opened Catalog
  import opened Intervals
  import Identity

  /** An appointment id is the text uuidv4 produced when the appointment was created. */
  type AppointmentId = string

  /** A stored booking; `start` and `end` are instants (the source stores their ISO-8601 text). */
  datatype Appointment = Appointment(id: AppointmentId, roomId: RoomId, userId: Identity.UserId, start: int, end: int)

  /** The callback of app.js:285-288: an existing appointment clashes with a new booking of `roomId`
      over [start, end) when it is in the same room and the windows overlap. */
  predicate Clashes(appt: Appointment, roomId: RoomId, start: int, end: int)
  {
    appt.roomId == roomId && Overlaps(start, end, appt.start, appt.end)
  }

  /** `appointments.some(...)` (app.js:285): some stored appointment clashes with the new booking. */
  function HasConflict(appts: seq<Appointment>, roomId: RoomId, start: int, end: int): (b: bool)
    ensures b <==> exists i :: 0 <= i < |appts| && Clashes(appts[i], roomId, start, end)
    decreases |appts|
  {
    if appts == [] then false
    else if Clashes(appts[0], roomId, start, end) then true
    else
      var b := HasConflict(appts[1..], roomId, start, end);
      assert forall i :: 1 <= i < |appts| ==> appts[i] == appts[1..][i - 1];
      b
  }

  /** `appointments.findIndex(appt => appt.id === id)` (app.js:393): the position of the first
      appointment with this id, or -1 when there is none. */
  function FindIndex(appts: seq<Appointment>, id: AppointmentId): (k: int)
    ensures -1 <= k < |appts|
    ensures k == -1 <==> forall i :: 0 <= i < |appts| ==> appts[i].id != id
    ensures k >= 0 ==> appts[k].id == id && forall j :: 0 <= j < k ==> appts[j].id != id
    decreases |appts|
  {
    if appts == [] then -1
    else if appts[0].id == id then 0
    else
      var k := FindIndex(appts[1..], id);
      assert forall i :: 1 <= i < |appts| ==> appts[i] == appts[1..][i - 1];
      if k == -1 then -1 else k + 1
  }

  predicate IsFresh(appts: seq<Appointment>, id: AppointmentId)
  {
    forall i :: 0 <= i < |appts| ==> appts[i].id != id
  }

  predicate UniqueIds(appts: seq<Appointment>)
  {
    forall i, j :: 0 <= i < j < |appts| ==> appts[i].id != appts[j].id
  }

  /** No room is double-booked: any two appointments in the same room have disjoint windows. */
  predicate NoDoubleBooking(appts: seq<Appointment>)
  {
    forall i, j :: 0 <= i < j < |appts| && appts[i].roomId == appts[j].roomId
      ==> !Overlaps(appts[i].start, appts[i].end, appts[j].start, appts[j].end)
  }

  /** The invariant of the appointment list: distinct ids, non-empty windows, rooms of the catalog,
      and no double booking. */
  predicate Consistent(rooms: seq<Room>, appts: seq<Appointment>)
  {
    && UniqueIds(appts)
    && (forall i :: 0 <= i < |appts| ==> appts[i].start < appts[i].end)
    && (forall i :: 0 <= i < |appts| ==> RoomExists(rooms, appts[i].roomId))
    && NoDoubleBooking(appts)
  }

  /** The decision of POST /appointments (app.js:268-304) for the authenticated `userId`, with `newId`
      the uuid the handler draws on success: the three checks in the source's order, then the new record. */
  function TryCreate(rooms: seq<Room>, appts: seq<Appointment>, userId: Identity.UserId, roomId: RoomId,
                     start: int, end: int, newId: AppointmentId): Result<Appointment, Error>
  {
    if !RoomExists(rooms, roomId) then Err(RoomNotFound)
    else if start >= end then Err(InvalidRange)
    else if HasConflict(appts, roomId, start, end) then Err(Conflict)
    else Ok(Appointment(newId, roomId, userId, start, end))
  }

  /** The list after a create: the new record pushed at the end (app.js:302), or the list unchanged. */
  function AfterCreate(appts: seq<Appointment>, r: Result<Appointment, Error>): seq<Appointment>
  {
    if r.Ok? then appts + [r.value] else appts
  }

  /** The decision of DELETE /appointments/:id (app.js:389-405): the index to remove, or the failure. */
  function TryCancel(appts: seq<Appointment>, id: AppointmentId, userId: Identity.UserId): (r: Result<nat, Error>)
    ensures r.Ok? ==> r.value < |appts|
  {
    var k := FindIndex(appts, id);
    if k == -1 then Err(NotFound)
    else if appts[k].userId != userId then Err(Forbidden)
    else Ok(k)
  }

  /** The list after a cancel: `appointments.splice(k, 1)` (app.js:403), or the list unchanged. */
  function AfterCancel(appts: seq<Appointment>, r: Result<nat, Error>): seq<Appointment>
    requires r.Ok? ==> r.value < |appts|
  {
    if r.Ok? then appts[..r.value] + appts[r.value + 1..] else appts
  }

  /** The reference for removal: the list with every appointment of this id left out, order kept. */
  function WithoutId(appts: seq<Appointment>, id: AppointmentId): seq<Appointment>
    decreases |appts|
  {
    if appts == [] then []
    else (if appts[0].id == id then [] else [appts[0]]) + WithoutId(appts[1..], id)
  }

  // ---- create ----

  /** A booking of a room the catalog does not have fails with RoomNotFound and changes nothing. */
  lemma CreateUnknownRoom(rooms: seq<Room>, appts: seq<Appointment>, userId: Identity.UserId, roomId: RoomId,
                          start: int, end: int, newId: AppointmentId)
    requires forall i :: 0 <= i < |rooms| ==> rooms[i].id != roomId
    ensures TryCreate(rooms, appts, userId, roomId, start, end, newId) == Err(RoomNotFound)
    ensures AfterCreate(appts, TryCreate(rooms, appts, userId, roomId, start, end, newId)) == appts
  {
  }

  /** A window with start >= end is never booked, whatever is stored: it fails with InvalidRange when
      the room exists, and with RoomNotFound (the earlier check) when it does not. */
  lemma CreateEmptyWindow(rooms: seq<Room>, appts: seq<Appointment>, userId: Identity.UserId, roomId: RoomId,
                          start: int, end: int, newId: AppointmentId)
    requires start >= end
    ensures TryCreate(rooms, appts, userId, roomId, start, end, newId)
            == if RoomExists(rooms, roomId) then Err(InvalidRange) else Err(RoomNotFound)
    ensures AfterCreate(appts, TryCreate(rooms, appts, userId, roomId, start, end, newId)) == appts
  {
  }

  /** For a known room and a non-empty window, the create fails with Conflict exactly when some stored
      appointment of that room shares an instant with the new window. */
  lemma CreateConflictIffSharedInstant(rooms: seq<Room>, appts: seq<Appointment>, userId: Identity.UserId,
                                       roomId: RoomId, start: int, end: int, newId: AppointmentId)
    requires Consistent(rooms, appts)
    requires RoomExists(rooms, roomId) && start < end
    ensures TryCreate(rooms, appts, userId, roomId, start, end, newId) == Err(Conflict)
            <==> (exists i, t :: 0 <= i < |appts| && appts[i].roomId == roomId
                                 && Covers(start, end, t) && Covers(appts[i].start, appts[i].end, t))
  {
    if TryCreate(rooms, appts, userId, roomId, start, end, newId) == Err(Conflict) {
      var i :| 0 <= i < |appts| && Clashes(appts[i], roomId, start, end);
      OverlapsIffSharedInstant(start, end, appts[i].start, appts[i].end);
      var t :| Covers(start, end, t) && Covers(appts[i].start, appts[i].end, t);
      assert appts[i].roomId == roomId && Covers(start, end, t) && Covers(appts[i].start, appts[i].end, t);
    }
    if exists i, t :: 0 <= i < |appts| && appts[i].roomId == roomId
                      && Covers(start, end, t) && Covers(appts[i].start, appts[i].end, t) {
      var i, t :| 0 <= i < |appts| && appts[i].roomId == roomId
                  && Covers(start, end, t) && Covers(appts[i].start, appts[i].end, t);
      OverlapsIffSharedInstant(start, end, appts[i].start, appts[i].end);
      assert Clashes(appts[i], roomId, start, end);
    }
  }

  /** A booking that only touches the stored bookings of its room (each of them ends at or before
      `start`, or begins at or after `end`) is accepted. */
  lemma CreateBesideExisting(rooms: seq<Room>, appts: seq<Appointment>, userId: Identity.UserId, roomId: RoomId,
                             start: int, end: int, newId: AppointmentId)
    requires RoomExists(rooms, roomId) && start < end
    requires forall i :: 0 <= i < |appts| && appts[i].roomId == roomId
               ==> appts[i].end <= start || end <= appts[i].start
    ensures TryCreate(rooms, appts, userId, roomId, start, end, newId).Ok?
  {
  }

  /** A successful create appends exactly one record at the end, carrying the fresh id, the room, the
      requesting user and the window; every earlier entry stays where it was. It succeeds exactly when
      the room exists, the window is non-empty and nothing clashes. */
  lemma CreateAppends(rooms: seq<Room>, appts: seq<Appointment>, userId: Identity.UserId, roomId: RoomId,
                      start: int, end: int, newId: AppointmentId)
    ensures var r := TryCreate(rooms, appts, userId, roomId, start, end, newId);
            && (r.Ok? <==> RoomExists(rooms, roomId) && start < end
                           && forall i :: 0 <= i < |appts| ==> !Clashes(appts[i], roomId, start, end))
            && (r.Ok? ==> && r.value == Appointment(newId, roomId, userId, start, end)
                          && |AfterCreate(appts, r)| == |appts| + 1
                          && AfterCreate(appts, r)[..|appts|] == appts
                          && AfterCreate(appts, r)[|appts|] == r.value)
            && (r.Err? ==> AfterCreate(appts, r) == appts)
  {
  }

  /** Creating keeps the list consistent, in particular free of double bookings, whether the create
      succeeds or fails, provided the new id is fresh. */
  lemma CreatePreservesConsistency(rooms: seq<Room>, appts: seq<Appointment>, userId: Identity.UserId,
                                   roomId: RoomId, start: int, end: int, newId: AppointmentId)
    requires Consistent(rooms, appts) && IsFresh(appts, newId)
    ensures Consistent(rooms, AfterCreate(appts, TryCreate(rooms, appts, userId, roomId, start, end, newId)))
  {
  }

  // ---- cancel ----

  /** Cancelling an id that is not stored fails with NotFound and changes nothing. */
  lemma CancelUnknownId(appts: seq<Appointment>, id: AppointmentId, userId: Identity.UserId)
    requires IsFresh(appts, id)
    ensures TryCancel(appts, id, userId) == Err(NotFound)
    ensures AfterCancel(appts, TryCancel(appts, id, userId)) == appts
  {
  }

  /** Someone other than the owner cannot cancel: Forbidden, and the appointment stays stored. */
  lemma CancelByOtherUser(appts: seq<Appointment>, k: nat, userId: Identity.UserId)
    requires UniqueIds(appts) && k < |appts| && appts[k].userId != userId
    ensures TryCancel(appts, appts[k].id, userId) == Err(Forbidden)
    ensures AfterCancel(appts, TryCancel(appts, appts[k].id, userId)) == appts
  {
  }

  /** Every entry is kept when none has the id. */
  lemma {:induction false} WithoutAbsentId(appts: seq<Appointment>, id: AppointmentId)
    requires IsFresh(appts, id)
    ensures WithoutId(appts, id) == appts
    decreases |appts|
  {
    if appts != [] {
      WithoutAbsentId(appts[1..], id);
      assert [appts[0]] + appts[1..] == appts;
    }
  }

  /** With distinct ids, splicing out position k removes the appointment with that id and nothing else,
      keeping the relative order of the rest. */
  lemma {:induction false} SpliceRemovesOnlyThatId(appts: seq<Appointment>, k: nat)
    requires UniqueIds(appts) && k < |appts|
    ensures appts[..k] + appts[k + 1..] == WithoutId(appts, appts[k].id)
    decreases k
  {
    var id := appts[k].id;
    if k == 0 {
      assert IsFresh(appts[1..], id);
      WithoutAbsentId(appts[1..], id);
    } else {
      var tail := appts[1..];
      assert tail[k - 1] == appts[k];
      SpliceRemovesOnlyThatId(tail, k - 1);
      assert appts[..k] + appts[k + 1..] == [appts[0]] + (tail[..k - 1] + tail[k..]);
    }
  }

  /** The owner's cancel succeeds and leaves exactly the other appointments, in their order. */
  lemma CancelByOwner(appts: seq<Appointment>, k: nat)
    requires UniqueIds(appts) && k < |appts|
    ensures TryCancel(appts, appts[k].id, appts[k].userId) == Ok(k)
    ensures AfterCancel(appts, Ok(k)) == WithoutId(appts, appts[k].id)
    ensures |AfterCancel(appts, Ok(k))| == |appts| - 1
  {
    SpliceRemovesOnlyThatId(appts, k);
  }

  /** Cancelling the same id again after a successful cancel fails with NotFound, whoever asks. */
  lemma CancelTwice(appts: seq<Appointment>, id: AppointmentId, owner: Identity.UserId, anyone: Identity.UserId)
    requires UniqueIds(appts) && TryCancel(appts, id, owner).Ok?
    ensures TryCancel(AfterCancel(appts, TryCancel(appts, id, owner)), id, anyone) == Err(NotFound)
  {
  }

  /** Cancelling keeps the list consistent, whether it succeeds or fails. */
  lemma CancelPreservesConsistency(rooms: seq<Room>, appts: seq<Appointment>, id: AppointmentId,
                                   userId: Identity.UserId)
    requires Consistent(rooms, appts)
    ensures Consistent(rooms, AfterCancel(appts, TryCancel(appts, id, userId)))
  {
    var r := TryCancel(appts, id, userId);
    if r.Ok? {
      var k := r.value;
      var s := AfterCancel(appts, r);
      assert forall i :: 0 <= i < |s| ==> s[i] == appts[if i < k then i else i + 1];
    }
  }
}
