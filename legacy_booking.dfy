/** The earlier booking service (booking/BookingManagement.java, booking/BookingRepository.java).
    Bookings name their room by location, must last one hour, and keep a 30-minute
    buffer from other live bookings of the room; checking in marks the room ACTIVE, and
    cancelling or a no-show frees it again. `booking/Booking.java` declares none of the
    entity's transitions, so they are given functions here, and the three finders the
    service calls but the repository does not declare (no-shows, ended bookings, the
    bookings of a day) are given as their results. Booking ids are row positions. */
module LegacyBooking {
  import opened Outcomes
  import opened Text
  import opened Clock
  import LegacyRooms

  const RequiredDurationHours: int := 1
  const BufferMinutes: int := 30
  const CheckInGraceMinutes: int := 15

  datatype BookingStatus = Confirmed | CheckedIn | Canceled | NoShow

  datatype TimeSlot = TimeSlot(startTime: DateTime, endTime: DateTime)

  /** One row of the booking table. */
  datatype BookingRow = BookingRow(roomLocation: string, timeSlot: TimeSlot, status: BookingStatus)

  /** The entity's transitions: each gives the changed booking or the exception it
      throws. */
  datatype Transitions = Transitions(
    checkIn: BookingRow -> Result<BookingRow>,
    cancel: BookingRow -> Result<BookingRow>,
    markAsNoShow: BookingRow -> Result<BookingRow>)

  /** What the service's tests take `markAsNoShow` to do when it succeeds: the booking
      becomes NO_SHOW and nothing else about it changes. */
  ghost predicate MarksNoShow(t: Transitions) {
    forall row :: t.markAsNoShow(row).Ok? ==> t.markAsNoShow(row).value == row.(status := NoShow)
  }

  // ---------------------------------------------------------------------------------
  // The table

  /** `rows` with `ids[k]` overwritten by `updated[k]`, as `saveAll` of loaded
      entities leaves it. */
  function Overwrite(rows: seq<BookingRow>, ids: seq<nat>, updated: seq<BookingRow>): (r: seq<BookingRow>)
    requires |ids| == |updated| && forall k :: 0 <= k < |ids| ==> ids[k] < |rows|
    ensures |r| == |rows|
    ensures forall i :: 0 <= i < |rows| && i !in ids ==> r[i] == rows[i]
    ensures NoDuplicates(ids) ==> forall k :: 0 <= k < |ids| ==> r[ids[k]] == updated[k]
    decreases |ids|
  {
    if |ids| == 0 then rows
    else
      var n := |ids| - 1;
      var inner := Overwrite(rows, ids[..n], updated[..n]);
      assert forall i :: i in ids[..n] ==> i in ids;
      inner[ids[n] := updated[n]]
  }

  /** Writing back rows that did not change leaves the table as it was. */
  lemma {:induction false} OverwriteWithSame(rows: seq<BookingRow>, ids: seq<nat>, updated: seq<BookingRow>)
    requires |ids| == |updated| && forall k :: 0 <= k < |ids| ==> ids[k] < |rows|
    requires forall k :: 0 <= k < |ids| ==> updated[k] == rows[ids[k]]
    ensures Overwrite(rows, ids, updated) == rows
    decreases |ids|
  {
    if |ids| > 0 {
      var n := |ids| - 1;
      var inner := Overwrite(rows, ids[..n], updated[..n]);
      OverwriteWithSame(rows, ids[..n], updated[..n]);
      assert inner == rows;
      assert Overwrite(rows, ids, updated) == inner[ids[n] := updated[n]];
    }
  }

  class BookingRepository {
    var rows: seq<BookingRow>

    constructor ()
      ensures rows == []
    {
      rows := [];
    }

    method FindById(id: int) returns (r: Option<BookingRow>)
      ensures r == if 0 <= id < |rows| then Some(rows[id]) else None
    {
      if 0 <= id < |rows| {
        return Some(rows[id]);
      }
      return None;
    }

    /** `save` of a new booking: it gets the next id. */
    method Insert(row: BookingRow) returns (id: nat)
      modifies this
      ensures rows == old(rows) + [row] && id == old(|rows|)
    {
      id := |rows|;
      rows := rows + [row];
    }

    /** `save` of a loaded booking. */
    method Put(id: nat, row: BookingRow)
      requires id < |rows|
      modifies this
      ensures rows == old(rows)[id := row]
    {
      rows := rows[id := row];
    }

    /** `saveAll` of loaded bookings. */
    method SaveAll(ids: seq<nat>, updated: seq<BookingRow>)
      requires |ids| == |updated| && forall k :: 0 <= k < |ids| ==> ids[k] < |rows|
      modifies this
      ensures rows == Overwrite(old(rows), ids, updated)
    {
      var k := 0;
      while k < |ids|
        invariant 0 <= k <= |ids|
        invariant rows == Overwrite(old(rows), ids[..k], updated[..k])
      {
        assert ids[..k + 1][..k] == ids[..k] && updated[..k + 1][..k] == updated[..k];
        assert Overwrite(old(rows), ids[..k + 1], updated[..k + 1]) == rows[ids[k] := updated[k]];
        rows := rows[ids[k] := updated[k]];
        k := k + 1;
      }
      assert ids[..k] == ids && updated[..k] == updated;
    }
  }

  // ---------------------------------------------------------------------------------
  // The room side

  /** What the room side throws for a location it has no room for. */
  function UnknownRoom(location: string): Error {
    BadRequest("Room not found with location: " + location)
  }

  /** The room-side calls the service makes (`isRoomActive`, `activateRoomByLocation`,
      `deactivateRoomByLocation`): the locations of the active rooms, and the locations
      the room side has no room for, where every call throws. */
  class RoomSide {
    var active: set<string>
    const unknown: set<string>

    constructor (active: set<string>, unknown: set<string>)
      ensures this.active == active && this.unknown == unknown
    {
      this.active := active;
      this.unknown := unknown;
    }

    method IsRoomActive(location: string) returns (r: Result<bool>)
      ensures r == if location in unknown then Err(UnknownRoom(location)) else Ok(location in active)
    {
      if location in unknown {
        return Err(UnknownRoom(location));
      }
      r := Ok(location in active);
    }

    /** The room's `setActive`, looked up by location. */
    method ActivateRoomByLocation(location: string) returns (o: Outcome)
      modifies this
      ensures location in unknown ==> o == Fail(UnknownRoom(location)) && active == old(active)
      ensures location !in unknown && location in old(active) ==> o == Fail(Conflict("Room is already active")) && active == old(active)
      ensures location !in unknown && location !in old(active) ==> o.Pass? && active == old(active) + {location}
    {
      if location in unknown {
        return Fail(UnknownRoom(location));
      }
      if location in active {
        return Fail(Conflict("Room is already active"));
      }
      active := active + {location};
      o := Pass;
    }

    /** The room's `setInactive`, looked up by location. */
    method DeactivateRoomByLocation(location: string) returns (o: Outcome)
      modifies this
      ensures location in unknown ==> o == Fail(UnknownRoom(location)) && active == old(active)
      ensures location !in unknown && location !in old(active) ==> o == Fail(Conflict("Room is already inactive")) && active == old(active)
      ensures location !in unknown && location in old(active) ==> o.Pass? && active == old(active) - {location}
    {
      if location in unknown {
        return Fail(UnknownRoom(location));
      }
      if location !in active {
        return Fail(Conflict("Room is already inactive"));
      }
      active := active - {location};
      o := Pass;
    }
  }

  /** `deactivateIfActive`: frees the room if it is active; whatever the room side
      throws is swallowed. */
  method DeactivateIfActive(rooms: RoomSide, location: string)
    modifies rooms
    ensures rooms.active == if location in rooms.unknown then old(rooms.active) else old(rooms.active) - {location}
  {
    var active := rooms.IsRoomActive(location);
    if active.Ok? && active.value {
      var ignored := rooms.DeactivateRoomByLocation(location);
    }
  }

  // ---------------------------------------------------------------------------------
  // Creating a booking

  /** The statuses `findConflictingBookings` counts. */
  predicate Blocks(row: BookingRow) {
    row.status == Confirmed || row.status == CheckedIn
  }

  /** The where-clause of `findConflictingBookings`. */
  predicate ConflictsWith(row: BookingRow, location: string, startTime: DateTime, endTime: DateTime) {
    && row.roomLocation == location
    && Blocks(row)
    && IsBefore(row.timeSlot.startTime, endTime)
    && IsAfter(row.timeSlot.endTime, startTime)
  }

  function HasConflictUpTo(rows: seq<BookingRow>, n: nat, location: string, startTime: DateTime, endTime: DateTime): (b: bool)
    requires n <= |rows|
    ensures b <==> exists i :: 0 <= i < n && ConflictsWith(rows[i], location, startTime, endTime)
  {
    if n == 0 then false
    else (HasConflictUpTo(rows, n - 1, location, startTime, endTime)
      || ConflictsWith(rows[n - 1], location, startTime, endTime))
  }

  /** `findConflictingBookings(...)` is not empty. */
  function HasConflict(rows: seq<BookingRow>, location: string, startTime: DateTime, endTime: DateTime): bool {
    HasConflictUpTo(rows, |rows|, location, startTime, endTime)
  }

  const DurationMessage := "Booking must be exactly 1 hour(s) long"
  const ConflictMessage := "Booking conflicts with existing bookings for the selected room and time slot"
  const StartsInPastMessage := "Cannot create booking that starts in the past"
  const EndsInPastMessage := "Cannot create booking that ends in the past or at the current time"

  /** `createBooking` up to the save: the duration, then conflicts in the window
      widened by the buffer on both sides, then the two past checks. The duration and
      conflict failures are plain RuntimeExceptions; a new booking is CONFIRMED. */
  function CreateDecision(rows: seq<BookingRow>, location: string, startTime: DateTime, endTime: DateTime, now: DateTime): (r: Result<BookingRow>)
    ensures r.Ok? <==>
      && 3600 * NanosPerSecond <= Nanos(endTime) - Nanos(startTime) < 7200 * NanosPerSecond
      && !HasConflict(rows, location, PlusMinutes(startTime, -BufferMinutes), PlusMinutes(endTime, BufferMinutes))
      && !IsBefore(startTime, now)
    ensures r.Ok? ==> r.value == BookingRow(location, TimeSlot(startTime, endTime), Confirmed)
  {
    DurationHoursIsOne(startTime, endTime);
    if DurationHours(startTime, endTime) != RequiredDurationHours then Err(Internal(DurationMessage))
    else if HasConflict(rows, location, PlusMinutes(startTime, -BufferMinutes), PlusMinutes(endTime, BufferMinutes)) then
      Err(Internal(ConflictMessage))
    else if IsBefore(startTime, now) then Err(BadRequest(StartsInPastMessage))
    else if !IsAfter(endTime, now) then Err(BadRequest(EndsInPastMessage))
    else Ok(BookingRow(location, TimeSlot(startTime, endTime), Confirmed))
  }

  /** A new booking keeps at least the buffer from every CONFIRMED or CHECKED_IN
      booking of its room, on both sides. */
  lemma CreatedBookingKeepsBuffer(rows: seq<BookingRow>, location: string, startTime: DateTime, endTime: DateTime, now: DateTime, i: int)
    requires CreateDecision(rows, location, startTime, endTime, now).Ok?
    requires 0 <= i < |rows| && rows[i].roomLocation == location && Blocks(rows[i])
    ensures || Nanos(rows[i].timeSlot.endTime) + BufferMinutes * 60 * NanosPerSecond <= Nanos(startTime)
            || Nanos(endTime) + BufferMinutes * 60 * NanosPerSecond <= Nanos(rows[i].timeSlot.startTime)
  {
    assert !ConflictsWith(rows[i], location, PlusMinutes(startTime, -BufferMinutes), PlusMinutes(endTime, BufferMinutes));
  }

  /** The duration rule truncates to whole hours, so despite its message it accepts
      anything from one hour up to just under two: a 90-minute booking passes it. */
  lemma NinetyMinutesPassDurationRule(s: DateTime)
    ensures DurationHours(s, PlusMinutes(s, 90)) == RequiredDurationHours
    ensures DurationHours(s, PlusMinutes(s, 30)) != RequiredDurationHours
  {
    DurationHoursIsOne(s, PlusMinutes(s, 90));
    DurationHoursIsOne(s, PlusMinutes(s, 30));
  }

  /** The second past check never fires: once the duration and the start pass, the
      end lies an hour or more after `now`. */
  lemma EndInPastNeverReported(rows: seq<BookingRow>, location: string, startTime: DateTime, endTime: DateTime, now: DateTime)
    ensures CreateDecision(rows, location, startTime, endTime, now) != Err(BadRequest(EndsInPastMessage))
  {
    DurationHoursIsOne(startTime, endTime);
    assert StartsInPastMessage != EndsInPastMessage by {
      assert StartsInPastMessage[30] != EndsInPastMessage[30];
    }
  }

  /** What `BookingMapper.toDTO` keeps of a booking. */
  datatype BookingView = BookingView(id: nat, roomLocation: string, startTime: DateTime, endTime: DateTime, status: BookingStatus)

  function ToView(id: nat, row: BookingRow): BookingView {
    BookingView(id, row.roomLocation, row.timeSlot.startTime, row.timeSlot.endTime, row.status)
  }

  method CreateBooking(repo: BookingRepository, location: string, startTime: DateTime, endTime: DateTime, now: DateTime)
    returns (r: Result<BookingView>)
    modifies repo
    ensures var d := CreateDecision(old(repo.rows), location, startTime, endTime, now);
      && (r.Ok? <==> d.Ok?)
      && (d.Ok? ==> repo.rows == old(repo.rows) + [d.value] && r.value == ToView(|old(repo.rows)|, d.value))
      && (d.Err? ==> repo.rows == old(repo.rows) && r.error == d.error)
  {
    var d := CreateDecision(repo.rows, location, startTime, endTime, now);
    if d.Err? {
      return Err(d.error);
    }
    var id := repo.Insert(d.value);
    r := Ok(ToView(id, d.value));
  }

  // ---------------------------------------------------------------------------------
  // Reading bookings

  function NotFound(id: int): Error {
    BadRequest("Booking not found with id: " + NumberText(id))
  }

  /** `getBookingById`. */
  function GetBookingById(rows: seq<BookingRow>, id: int): (r: Result<BookingView>)
    ensures r.Ok? <==> 0 <= id < |rows|
    ensures r.Ok? ==> r.value.id == id && r.value == ToView(id, rows[id])
    ensures r.Err? ==> r.error == NotFound(id)
  {
    if 0 <= id < |rows| then Ok(ToView(id, rows[id])) else Err(NotFound(id))
  }

  /** `getAllBookings`: every booking, in id order. */
  function GetAllBookings(rows: seq<BookingRow>): (views: seq<BookingView>)
    ensures |views| == |rows|
    ensures forall i :: 0 <= i < |rows| ==> views[i].id == i && views[i] == ToView(i, rows[i])
  {
    seq(|rows|, i requires 0 <= i < |rows| => ToView(i, rows[i]))
  }

  // ---------------------------------------------------------------------------------
  // Check-in and cancellation

  /** `checkInBooking` up to the writes: the booking must exist and accept the
      check-in, and its room must not be active yet. */
  function CheckInDecision(rows: seq<BookingRow>, active: set<string>, unknown: set<string>, t: Transitions, id: int): (r: Result<BookingRow>)
    ensures r.Ok? ==> 0 <= id < |rows| && t.checkIn(rows[id]) == Ok(r.value)
    ensures r.Ok? ==> r.value.roomLocation !in active && r.value.roomLocation !in unknown
    ensures 0 <= id < |rows| && t.checkIn(rows[id]).Ok? && t.checkIn(rows[id]).value.roomLocation in active - unknown ==>
      r == Err(Conflict("Cannot check-in: room is already active"))
    ensures !(0 <= id < |rows|) ==> r == Err(NotFound(id))
    ensures 0 <= id < |rows| && t.checkIn(rows[id]).Err? ==> r == Err(t.checkIn(rows[id]).error)
    ensures 0 <= id < |rows| && t.checkIn(rows[id]).Ok? && t.checkIn(rows[id]).value.roomLocation in unknown ==>
      r == Err(UnknownRoom(t.checkIn(rows[id]).value.roomLocation))
    ensures r.Ok? <==> (&& 0 <= id < |rows| && t.checkIn(rows[id]).Ok?
                        && t.checkIn(rows[id]).value.roomLocation !in active + unknown)
  {
    if !(0 <= id < |rows|) then Err(NotFound(id))
    else
      var checked :- t.checkIn(rows[id]);
      if checked.roomLocation in unknown then Err(UnknownRoom(checked.roomLocation))
      else if checked.roomLocation in active then Err(Conflict("Cannot check-in: room is already active"))
      else Ok(checked)
  }

  /** `checkInBooking`: on success the booking is saved and its room becomes active;
      on any refusal neither changes. */
  method CheckInBooking(repo: BookingRepository, rooms: RoomSide, t: Transitions, id: int) returns (r: Result<BookingView>)
    modifies repo, rooms
    ensures var d := CheckInDecision(old(repo.rows), old(rooms.active), rooms.unknown, t, id);
      && (r.Ok? <==> d.Ok?)
      && (d.Ok? ==> && repo.rows == old(repo.rows)[id := d.value]
                    && rooms.active == old(rooms.active) + {d.value.roomLocation}
                    && r.value == ToView(id, d.value))
      && (d.Err? ==> repo.rows == old(repo.rows) && rooms.active == old(rooms.active) && r.error == d.error)
  {
    var found := repo.FindById(id);
    if found.None? {
      return Err(NotFound(id));
    }
    var checked := t.checkIn(found.value);
    if checked.Err? {
      return Err(checked.error);
    }
    var location := checked.value.roomLocation;
    var active := rooms.IsRoomActive(location);
    if active.Err? {
      return Err(active.error);
    }
    if active.value {
      return Err(Conflict("Cannot check-in: room is already active"));
    }
    var activated := rooms.ActivateRoomByLocation(location);
    repo.Put(id, checked.value);
    r := Ok(ToView(id, checked.value));
  }

  /** `cancelBooking` up to the writes. */
  function CancelDecision(rows: seq<BookingRow>, t: Transitions, id: int): (r: Result<BookingRow>)
    ensures r.Ok? <==> 0 <= id < |rows| && t.cancel(rows[id]).Ok?
    ensures r.Ok? ==> t.cancel(rows[id]) == Ok(r.value)
    ensures !(0 <= id < |rows|) ==> r == Err(NotFound(id))
    ensures 0 <= id < |rows| && t.cancel(rows[id]).Err? ==> r == t.cancel(rows[id])
  {
    if !(0 <= id < |rows|) then Err(NotFound(id))
    else t.cancel(rows[id])
  }

  /** `cancelBooking`: the cancelled booking is saved and its room is freed if it was
      active; a failure on the room side does not stop the cancellation. */
  method CancelBooking(repo: BookingRepository, rooms: RoomSide, t: Transitions, id: int) returns (r: Result<BookingView>)
    modifies repo, rooms
    ensures var d := CancelDecision(old(repo.rows), t, id);
      && (r.Ok? <==> d.Ok?)
      && (d.Ok? ==> && repo.rows == old(repo.rows)[id := d.value]
                    && rooms.active == (if d.value.roomLocation in rooms.unknown then old(rooms.active) else old(rooms.active) - {d.value.roomLocation})
                    && r.value == ToView(id, d.value))
      && (d.Err? ==> repo.rows == old(repo.rows) && rooms.active == old(rooms.active) && r.error == d.error)
  {
    var found := repo.FindById(id);
    if found.None? {
      return Err(NotFound(id));
    }
    var canceled := t.cancel(found.value);
    if canceled.Err? {
      return Err(canceled.error);
    }
    DeactivateIfActive(rooms, canceled.value.roomLocation);
    repo.Put(id, canceled.value);
    r := Ok(ToView(id, canceled.value));
  }

  // ---------------------------------------------------------------------------------
  // The sweeps

  /** The cut-off `markNoShowBookings` passes to its finder: the grace period before
      `now`. */
  function NoShowThreshold(now: DateTime): (threshold: DateTime)
    ensures Nanos(threshold) + CheckInGraceMinutes * 60 * NanosPerSecond == Nanos(now)
  {
    PlusMinutes(now, -CheckInGraceMinutes)
  }

  predicate ValidIds(rows: seq<BookingRow>, ids: seq<nat>) {
    forall k :: 0 <= k < |ids| ==> ids[k] < |rows|
  }

  /** Marking the first `n` found bookings in turn; the first refusal ends the sweep. */
  function MarkAllUpTo(rows: seq<BookingRow>, found: seq<nat>, t: Transitions, n: nat): (r: Result<seq<BookingRow>>)
    requires n <= |found| && ValidIds(rows, found)
    ensures r.Ok? ==> |r.value| == n && forall k :: 0 <= k < n ==> t.markAsNoShow(rows[found[k]]) == Ok(r.value[k])
    ensures r.Ok? <==> forall k :: 0 <= k < n ==> t.markAsNoShow(rows[found[k]]).Ok?
  {
    if n == 0 then Ok([])
    else
      var init :- MarkAllUpTo(rows, found, t, n - 1);
      var marked :- t.markAsNoShow(rows[found[n - 1]]);
      Ok(init + [marked])
  }

  function MarkAll(rows: seq<BookingRow>, found: seq<nat>, t: Transitions): Result<seq<BookingRow>>
    requires ValidIds(rows, found)
  {
    MarkAllUpTo(rows, found, t, |found|)
  }

  function LocationsOf(bookings: seq<BookingRow>): set<string> {
    set k | 0 <= k < |bookings| :: bookings[k].roomLocation
  }

  lemma LocationsOfSnoc(bookings: seq<BookingRow>, b: BookingRow)
    ensures LocationsOf(bookings + [b]) == LocationsOf(bookings) + {b.roomLocation}
  {
    var s := bookings + [b];
    assert s[|bookings|] == b;
    forall l | l in LocationsOf(bookings) ensures l in LocationsOf(s) {
      var k :| 0 <= k < |bookings| && bookings[k].roomLocation == l;
      assert s[k] == bookings[k];
    }
  }

  /** `markNoShowBookings`, given what `findNoShowBookings(NoShowThreshold(now))`
      returned: every found booking is marked NO_SHOW and its room freed, then all are
      saved together; if a booking refuses, the transaction rolls back and nothing
      changes. An empty result saves nothing. */
  method MarkNoShowBookings(repo: BookingRepository, rooms: RoomSide, t: Transitions, found: seq<nat>) returns (o: Outcome)
    requires ValidIds(repo.rows, found)
    modifies repo, rooms
    ensures var marked := MarkAll(old(repo.rows), found, t);
      && (o.Pass? <==> marked.Ok?)
      && (marked.Err? ==> o.error == marked.error && repo.rows == old(repo.rows) && rooms.active == old(rooms.active))
      && (marked.Ok? ==> && repo.rows == Overwrite(old(repo.rows), found, marked.value)
                         && rooms.active == old(rooms.active) - (LocationsOf(marked.value) - rooms.unknown))
  {
    var all := MarkAll(repo.rows, found, t);
    if all.Err? {
      return Fail(all.error);
    }
    var marked := all.value;
    var k := 0;
    while k < |marked|
      invariant 0 <= k <= |marked| && repo.rows == old(repo.rows)
      invariant rooms.active == old(rooms.active) - (LocationsOf(marked[..k]) - rooms.unknown)
    {
      LocationsOfSnoc(marked[..k], marked[k]);
      assert marked[..k + 1] == marked[..k] + [marked[k]];
      DeactivateIfActive(rooms, marked[k].roomLocation);
      k := k + 1;
    }
    assert marked[..k] == marked;
    if |found| > 0 {
      repo.SaveAll(found, marked);
    } else {
      OverwriteWithSame(repo.rows, found, marked);
    }
    o := Pass;
  }

  /** Marking found bookings, with the usual no-show transition, makes each of them
      NO_SHOW and changes nothing else. */
  lemma MarkedBookingsAreNoShows(rows: seq<BookingRow>, found: seq<nat>, t: Transitions)
    requires MarksNoShow(t) && ValidIds(rows, found) && NoDuplicates(found) && MarkAll(rows, found, t).Ok?
    ensures var after := Overwrite(rows, found, MarkAll(rows, found, t).value);
      && (forall k :: 0 <= k < |found| ==> after[found[k]] == rows[found[k]].(status := NoShow))
      && (forall i :: 0 <= i < |rows| && i !in found ==> after[i] == rows[i])
  {
  }

  /** What happens to one ended booking: a CONFIRMED one is marked NO_SHOW, and if that
      throws it is skipped, room included; any other booking only has its room
      freed. */
  datatype EndedStep = EndedStep(row: BookingRow, changed: bool, freesRoom: bool)

  function ProcessEnded(row: BookingRow, t: Transitions): (step: EndedStep)
    ensures !step.changed ==> step.row == row
    ensures step.changed ==> row.status == Confirmed && t.markAsNoShow(row) == Ok(step.row)
    ensures step.freesRoom <==> row.status != Confirmed || t.markAsNoShow(row).Ok?
  {
    if row.status == Confirmed then
      match t.markAsNoShow(row)
      case Ok(marked) => EndedStep(marked, true, true)
      case Err(_) => EndedStep(row, false, false)
    else EndedStep(row, false, true)
  }

  function EndedRows(rows: seq<BookingRow>, ended: seq<nat>, t: Transitions): (r: seq<BookingRow>)
    requires ValidIds(rows, ended)
    ensures |r| == |ended| && forall k :: 0 <= k < |ended| ==> r[k] == ProcessEnded(rows[ended[k]], t).row
  {
    seq(|ended|, k requires 0 <= k < |ended| => ProcessEnded(rows[ended[k]], t).row)
  }

  /** The rooms the first `n` ended bookings free: the location is read from the
      booking before `markAsNoShow` runs. */
  function FreedLocations(rows: seq<BookingRow>, ended: seq<nat>, t: Transitions, n: nat): set<string>
    requires n <= |ended| && ValidIds(rows, ended)
  {
    set k | 0 <= k < n && ProcessEnded(rows[ended[k]], t).freesRoom :: rows[ended[k]].roomLocation
  }

  /** `freeRoomsForEndedBookings`, given what `findEndedBookings(now)` returned: each
      ended booking is processed on its own, a failing one is skipped, and the bookings
      are saved only if some status changed. */
  method FreeRoomsForEndedBookings(repo: BookingRepository, rooms: RoomSide, t: Transitions, ended: seq<nat>) returns (saved: bool)
    requires ValidIds(repo.rows, ended)
    modifies repo, rooms
    ensures saved <==> exists k :: 0 <= k < |ended| && ProcessEnded(old(repo.rows)[ended[k]], t).changed
    ensures repo.rows == Overwrite(old(repo.rows), ended, EndedRows(old(repo.rows), ended, t))
    ensures rooms.active == old(rooms.active) - (FreedLocations(old(repo.rows), ended, t, |ended|) - rooms.unknown)
  {
    var before := repo.rows;
    var processed: seq<BookingRow> := [];
    saved := false;
    var k := 0;
    while k < |ended|
      invariant 0 <= k <= |ended| && repo.rows == before
      invariant processed == EndedRows(before, ended, t)[..k]
      invariant saved <==> exists j :: 0 <= j < k && ProcessEnded(before[ended[j]], t).changed
      invariant rooms.active == old(rooms.active) - (FreedLocations(before, ended, t, k) - rooms.unknown)
    {
      var step := ProcessEnded(before[ended[k]], t);
      if step.changed {
        saved := true;
      }
      var roomLocation := before[ended[k]].roomLocation;
      if step.freesRoom {
        DeactivateIfActive(rooms, roomLocation);
      }
      assert FreedLocations(before, ended, t, k + 1) ==
        FreedLocations(before, ended, t, k) + (if step.freesRoom then {roomLocation} else {});
      processed := processed + [step.row];
      k := k + 1;
    }
    assert processed == EndedRows(before, ended, t);
    if saved {
      repo.SaveAll(ended, processed);
    } else {
      OverwriteWithSame(before, ended, processed);
    }
  }

  /** Only CONFIRMED ended bookings change, and with the usual no-show transition
      each of those becomes NO_SHOW. */
  lemma OnlyConfirmedEndedBookingsChange(rows: seq<BookingRow>, ended: seq<nat>, t: Transitions, i: int)
    requires ValidIds(rows, ended) && NoDuplicates(ended) && 0 <= i < |rows|
    requires Overwrite(rows, ended, EndedRows(rows, ended, t))[i] != rows[i]
    ensures rows[i].status == Confirmed
    ensures MarksNoShow(t) ==> Overwrite(rows, ended, EndedRows(rows, ended, t))[i] == rows[i].(status := NoShow)
  {
    var after := Overwrite(rows, ended, EndedRows(rows, ended, t));
    assert i in ended;
    var k :| 0 <= k < |ended| && ended[k] == i;
    assert after[i] == ProcessEnded(rows[i], t).row;
  }

  // ---------------------------------------------------------------------------------
  // Daily availability

  const FirstSlotHour: int := 8
  const SlotCount: int := 10

  /** One hourly slot of a day, by its start and end hour. */
  datatype SlotView = SlotView(startHour: int, endHour: int, available: bool)

  datatype RoomAvailability = RoomAvailability(roomLocation: string, roomName: string, slots: seq<SlotView>)

  /** Some booking of the room overlaps the slot. Bookings of every status count. */
  function OccupiedUpTo(bookings: seq<BookingRow>, n: nat, location: string, slotStart: DateTime, slotEnd: DateTime): (b: bool)
    requires n <= |bookings|
    ensures b <==> exists i :: (0 <= i < n && bookings[i].roomLocation == location
      && IsBefore(bookings[i].timeSlot.startTime, slotEnd) && IsAfter(bookings[i].timeSlot.endTime, slotStart))
  {
    if n == 0 then false
    else (OccupiedUpTo(bookings, n - 1, location, slotStart, slotEnd)
      || (bookings[n - 1].roomLocation == location
          && IsBefore(bookings[n - 1].timeSlot.startTime, slotEnd) && IsAfter(bookings[n - 1].timeSlot.endTime, slotStart)))
  }

  function Occupied(bookings: seq<BookingRow>, location: string, slotStart: DateTime, slotEnd: DateTime): bool {
    OccupiedUpTo(bookings, |bookings|, location, slotStart, slotEnd)
  }

  /** The slot of `day` starting at `hour`: free of bookings of the room, and not
      already begun if the day is today. */
  function Slot(day: int, hour: int, now: DateTime, location: string, bookings: seq<BookingRow>): (s: SlotView)
    requires 0 <= hour < 24
    ensures s.startHour == hour && s.endHour == hour + 1
  {
    var slotStart := AtTime(day, hour, 0);
    var slotEnd := PlusMinutes(slotStart, 60);
    var occupied := Occupied(bookings, location, slotStart, slotEnd);
    var inPast := day == Day(now) && IsBefore(slotStart, now);
    SlotView(hour, hour + 1, !occupied && !inPast)
  }

  /** `listDailyAvailability`, given the rooms `listAllRooms` returned and the bookings
      `findBookingsBetween` returned for the day; no date means today. */
  function ListDailyAvailability(date: Option<int>, now: DateTime, rooms: seq<LegacyRooms.RoomView>, bookings: seq<BookingRow>): (r: seq<RoomAvailability>)
    ensures |r| == |rooms|
    ensures forall i :: 0 <= i < |r| ==>
      && r[i].roomLocation == rooms[i].roomLocation && r[i].roomName == rooms[i].name
      && |r[i].slots| == SlotCount
      && forall k :: 0 <= k < SlotCount ==> r[i].slots[k].startHour == FirstSlotHour + k && r[i].slots[k].endHour == FirstSlotHour + k + 1
  {
    var day := if date.Some? then date.value else Day(now);
    seq(|rooms|, i requires 0 <= i < |rooms| =>
      RoomAvailability(rooms[i].roomLocation, rooms[i].name, DaySlots(day, now, rooms[i].roomLocation, bookings)))
  }

  /** The slots of one room on one day, hour by hour from the first slot. */
  function DaySlots(day: int, now: DateTime, location: string, bookings: seq<BookingRow>): (slots: seq<SlotView>)
    ensures |slots| == SlotCount
    ensures forall k :: 0 <= k < SlotCount ==> slots[k] == Slot(day, FirstSlotHour + k, now, location, bookings)
    ensures forall k :: 0 <= k < SlotCount ==> slots[k].startHour == FirstSlotHour + k && slots[k].endHour == FirstSlotHour + k + 1
  {
    seq(SlotCount, k requires 0 <= k < SlotCount => Slot(day, FirstSlotHour + k, now, location, bookings))
  }

  /** A slot is offered exactly when no booking of the room overlaps it and, on the
      current day, it has not begun. */
  lemma SlotAvailability(date: Option<int>, now: DateTime, rooms: seq<LegacyRooms.RoomView>, bookings: seq<BookingRow>, i: int, k: int)
    requires 0 <= i < |rooms| && 0 <= k < SlotCount
    ensures var day := if date.Some? then date.value else Day(now);
      var slotStart := AtTime(day, FirstSlotHour + k, 0);
      ListDailyAvailability(date, now, rooms, bookings)[i].slots[k].available <==>
        && !(exists b :: 0 <= b < |bookings| && bookings[b].roomLocation == rooms[i].roomLocation
              && Nanos(bookings[b].timeSlot.startTime) < Nanos(slotStart) + 3600 * NanosPerSecond
              && Nanos(bookings[b].timeSlot.endTime) > Nanos(slotStart))
        && !(day == Day(now) && Nanos(slotStart) < Nanos(now))
  {
    var day := if date.Some? then date.value else Day(now);
    var slotStart := AtTime(day, FirstSlotHour + k, 0);
    var slotEnd := PlusMinutes(slotStart, 60);
    assert Nanos(slotEnd) == Nanos(slotStart) + 3600 * NanosPerSecond;
    assert ListDailyAvailability(date, now, rooms, bookings)[i].slots[k] == Slot(day, FirstSlotHour + k, now, rooms[i].roomLocation, bookings);
  }

  /** Only the current day hides slots that have begun: a day already over shows every
      slot that no booking covers as available. */
  lemma PastDaysShowFreeSlots(day: int, now: DateTime, rooms: seq<LegacyRooms.RoomView>, i: int, k: int)
    requires day < Day(now) && 0 <= i < |rooms| && 0 <= k < SlotCount
    ensures ListDailyAvailability(Some(day), now, rooms, [])[i].slots[k].available
  {
    assert ListDailyAvailability(Some(day), now, rooms, [])[i].slots[k] == Slot(day, FirstSlotHour + k, now, rooms[i].roomLocation, []);
    assert !Occupied([], rooms[i].roomLocation, AtTime(day, FirstSlotHour + k, 0), PlusMinutes(AtTime(day, FirstSlotHour + k, 0), 60));
  }
}
