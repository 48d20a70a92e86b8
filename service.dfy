/** The running service of app.js: the module-level stores (app.js:14-25) as one object whose only
    mutable part is the appointment list, and the route handlers as its methods. The gated handlers run
    the `authenticate` middleware first, as `app.use(authenticate)` (app.js:149) places it before every
    route declared after it. */
module Service {
  import opened Wrappers
  import opened Errors
  import opened Identity
  import opened Catalog
  import opened Schedule

  class Scheduler {
    const users: seq<User>
    const rooms: seq<Room>
    const codec: Codec
    var appointments: seq<Appointment>

    ghost predicate Valid()
      reads this
    {
      Consistent(rooms, appointments)
    }

    /** Process start: fixed users and rooms, and `let appointments = []` (app.js:25). */
    constructor (users: seq<User>, rooms: seq<Room>, codec: Codec)
      ensures Valid()
      ensures this.users == users && this.rooms == rooms && this.codec == codec
      ensures appointments == []
    {
      this.users := users;
      this.rooms := rooms;
      this.codec := codec;
      appointments := [];
    }

    /** The POST /appointments handler once the gate has resolved the user (app.js:269-303): check the
        room, then the window, then conflicts, and only then push the new record. `newId` is the value
        uuidv4 returns at app.js:295. */
    method Book(userId: UserId, roomId: RoomId, start: int, end: int, newId: AppointmentId)
      returns (r: Result<Appointment, Error>)
      requires Valid() && IsFresh(appointments, newId)
      modifies this
      ensures Valid()
      ensures r == TryCreate(rooms, old(appointments), userId, roomId, start, end, newId)
      ensures appointments == AfterCreate(old(appointments), r)
    {
      CreatePreservesConsistency(rooms, appointments, userId, roomId, start, end, newId);
      if !RoomExists(rooms, roomId) {
        return Err(RoomNotFound);
      }
      if start >= end {
        return Err(InvalidRange);
      }
      if HasConflict(appointments, roomId, start, end) {
        return Err(Conflict);
      }
      var appt := Appointment(newId, roomId, userId, start, end);
      appointments := appointments + [appt];
      return Ok(appt);
    }

    /** The DELETE /appointments/:id handler once the gate has resolved the user (app.js:390-404): find
        the position of the id, refuse an unknown id, refuse a user who is not the owner, splice it out. */
    method Cancel(userId: UserId, id: AppointmentId) returns (r: Result<(), Error>)
      requires Valid()
      modifies this
      ensures Valid()
      ensures r.Ok? <==> TryCancel(old(appointments), id, userId).Ok?
      ensures r.Err? ==> r.error == TryCancel(old(appointments), id, userId).error
      ensures appointments == AfterCancel(old(appointments), TryCancel(old(appointments), id, userId))
    {
      CancelPreservesConsistency(rooms, appointments, id, userId);
      var k := FindIndex(appointments, id);
      if k == -1 {
        return Err(NotFound);
      }
      if appointments[k].userId != userId {
        return Err(Forbidden);
      }
      appointments := appointments[..k] + appointments[k + 1..];
      return Ok(());
    }

    /** The GET /appointments handler once past the gate (app.js:346): the list in insertion order. */
    method ListAppointments() returns (s: seq<Appointment>)
      ensures s == appointments
    {
      s := appointments;
    }

    /** POST /appointments behind the gate: an unauthenticated request fails and changes nothing;
        otherwise the create runs for the resolved user. */
    method PostAppointment(header: Option<string>, roomId: RoomId, start: int, end: int, newId: AppointmentId)
      returns (r: Result<Appointment, Error>)
      requires Valid() && IsFresh(appointments, newId)
      modifies this
      ensures Valid()
      ensures Authenticate(users, codec, header).Err? ==> r.Err? && r.error.Unauthenticated?
      ensures var auth := Authenticate(users, codec, header);
              && (auth.Err? ==> r == Err(auth.error) && appointments == old(appointments))
              && (auth.Ok? ==> && r == TryCreate(rooms, old(appointments), auth.value.id, roomId, start, end, newId)
                               && appointments == AfterCreate(old(appointments), r))
    {
      var auth := Authenticate(users, codec, header);
      if auth.Err? {
        return Err(auth.error);
      }
      r := Book(auth.value.id, roomId, start, end, newId);
    }

    /** DELETE /appointments/:id behind the gate: an unauthenticated request fails and changes nothing;
        otherwise the cancel runs for the resolved user. */
    method DeleteAppointment(header: Option<string>, id: AppointmentId) returns (r: Result<(), Error>)
      requires Valid()
      modifies this
      ensures Valid()
      ensures Authenticate(users, codec, header).Err? ==> r.Err? && r.error.Unauthenticated?
      ensures var auth := Authenticate(users, codec, header);
              && (auth.Err? ==> r == Err(auth.error) && appointments == old(appointments))
              && (auth.Ok? ==> && (r.Ok? <==> TryCancel(old(appointments), id, auth.value.id).Ok?)
                               && (r.Err? ==> r.error == TryCancel(old(appointments), id, auth.value.id).error)
                               && appointments == AfterCancel(old(appointments),
                                                              TryCancel(old(appointments), id, auth.value.id)))
    {
      var auth := Authenticate(users, codec, header);
      if auth.Err? {
        return Err(auth.error);
      }
      r := Cancel(auth.value.id, id);
    }

    /** GET /appointments behind the gate (app.js:345-347). */
    method GetAppointments(header: Option<string>) returns (r: Result<seq<Appointment>, Error>)
      ensures Authenticate(users, codec, header).Err? ==> r.Err? && r.error.Unauthenticated?
      ensures var auth := Authenticate(users, codec, header);
              && (auth.Err? ==> r == Err(auth.error))
              && (auth.Ok? ==> r == Ok(appointments))
    {
      var auth := Authenticate(users, codec, header);
      if auth.Err? {
        return Err(auth.error);
      }
      var s := ListAppointments();
      return Ok(s);
    }

    /** GET /rooms (app.js:187-189), which is declared after the gate and so is gated too. */
    method GetRooms(header: Option<string>) returns (r: Result<seq<Room>, Error>)
      ensures Authenticate(users, codec, header).Err? ==> r.Err? && r.error.Unauthenticated?
      ensures var auth := Authenticate(users, codec, header);
              && (auth.Err? ==> r == Err(auth.error))
              && (auth.Ok? ==> r == Ok(rooms))
    {
      var auth := Authenticate(users, codec, header);
      if auth.Err? {
        return Err(auth.error);
      }
      return Ok(rooms);
    }
  }

  /** The booking story of one morning, with instants in minutes: 09:00-10:00 booked, 09:30-10:30
      refused as a conflict, 10:00-11:00 accepted since it only touches, then the first booking
      cancelled by its owner and a second cancel of it refused as not found. */
  method BookingScenario(u1: UserId, u2: UserId, alpha: RoomId, beta: RoomId, gamma: RoomId,
                         first: AppointmentId, second: AppointmentId, third: AppointmentId, codec: Codec)
    requires u1 != u2 && first != second && first != third && second != third
  {
    var s := new Scheduler(SeedUsers(u1, u2), SeedRooms(alpha, beta, gamma), codec);
    assert s.rooms[0].id == alpha;
    var a := s.Book(u1, alpha, 540, 600, first);
    assert a == Ok(Appointment(first, alpha, u1, 540, 600));
    var b := s.Book(u2, alpha, 570, 630, second);
    assert b == Err(Conflict);
    var c := s.Book(u2, alpha, 600, 660, third);
    assert c == Ok(Appointment(third, alpha, u2, 600, 660));
    var d := s.Cancel(u2, first);
    assert d == Err(Forbidden);
    var e := s.Cancel(u1, first);
    assert e.Ok?;
    var f := s.Cancel(u1, first);
    assert f == Err(NotFound);
    var listed := s.ListAppointments();
    assert listed == [Appointment(third, alpha, u2, 600, 660)];
  }
}
