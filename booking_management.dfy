/** The application service of the reservation context
    (reservation/booking/application/BookingManagement.java). `LocalDateTime.now()`
    is the `now` parameter and the current security context is the `ctx` parameter.
    Every decision is a function of the stored rows, in the order the service makes
    its checks; the methods write through the repositories and are proved to end in
    the state those functions describe. */
module BookingService {
  import opened Outcomes
  import opened Text
  import opened Clock
  import opened BookingDomain
  import opened BookingStore
  import Rooms = ReservationRooms
  import opened Security

  const CheckInGracePeriodMinutes: int := 15

  /** `normalizeOwnerUserId`: the subject, or "anonymous" when it is missing or blank. */
  function NormalizeOwnerUserId(subject: Option<string>): (owner: string)
    ensures subject.Some? && !IsBlank(subject.value) ==> owner == subject.value
    ensures subject.None? || IsBlank(subject.value) ==> owner == "anonymous"
    ensures !IsBlank(owner)
  {
    if subject.None? || IsBlank(subject.value) then
      assert !IsWhitespace("anonymous"[0]);
      "anonymous"
    else subject.value
  }

  /** The owner `createBooking` records for the caller. */
  function OwnerOf(ctx: SecurityContext): string {
    NormalizeOwnerUserId(CurrentUser(ctx.authentication).subject)
  }

  /** `BookingDTO`, as the mapper fills it. */
  datatype BookingView = BookingView(id: int, roomId: int, startTime: DateTime, endTime: DateTime, status: string)

  function ToView(id: int, row: BookingRow): BookingView {
    BookingView(id, row.roomId, row.timeRange.startTime, row.timeRange.endTime, StatusName(row.status))
  }

  /** `hasOverlappingBlockingBooking`. */
  function HasOverlappingBlockingBooking(rows: seq<BookingRow>, roomId: int, range: TimeRange): bool {
    ExistsOverlappingBooking(rows, roomId, range.startTime, range.endTime, BlockingStatuses())
  }

  /** The room-level invariant the service exists to keep: two unfinished bookings of
      the same room never overlap. */
  predicate NoDoubleBooking(rows: seq<BookingRow>) {
    forall i, j :: 0 <= i < j < |rows| && rows[i].roomId == rows[j].roomId
      && IsBlocking(rows[i].status) && IsBlocking(rows[j].status)
      ==> !Overlaps(rows[i].timeRange, rows[j].timeRange)
  }

  /** A change that keeps every booking's room and range and never makes a booking
      blocking keeps the invariant. */
  lemma NoDoubleBookingWhenBlockingShrinks(before: seq<BookingRow>, after: seq<BookingRow>)
    requires NoDoubleBooking(before) && |after| == |before|
    requires forall i :: 0 <= i < |after| ==>
      after[i].roomId == before[i].roomId && after[i].timeRange == before[i].timeRange
      && (IsBlocking(after[i].status) ==> IsBlocking(before[i].status))
    ensures NoDoubleBooking(after)
  {
  }

  // ---------------------------------------------------------------------------------
  // createBooking

  /** The checks of `createBooking` in source order, and the row it inserts. */
  function CreateDecision(rows: seq<BookingRow>, roomRows: map<int, Rooms.RoomRow>, owner: string,
                          roomId: Option<int>, startTime: Option<DateTime>, endTime: Option<DateTime>, now: DateTime): (r: Result<BookingRow>)
    ensures r.Ok? ==> r.value.status == Confirmed && r.value.ownerUserId == owner
  {
    if roomId.None? then Err(BadRequest("roomId is required"))
    else
      var range :- NewTimeRange(startTime, endTime);
      if IsBefore(range.startTime, now) then Err(BadRequest("startTime must not be in the past"))
      else if roomId.value !in roomRows then Err(BadRequest("Room not found with id: " + NumberText(roomId.value)))
      else if Rooms.IsDisabled(roomRows[roomId.value].operationalStatus) then Err(Conflict("Cannot create booking for a disabled room"))
      else if HasOverlappingBlockingBooking(rows, roomId.value, range) then Err(Conflict("Room is not available for the requested time range"))
      else Ok(BookingRow(roomId.value, owner, range, Confirmed))
  }

  /** A created booking is CONFIRMED for the requested room and range, which is a valid
      range that has not started, and it overlaps no unfinished booking of that room. */
  lemma CreatedBookingIsAcceptable(rows: seq<BookingRow>, roomRows: map<int, Rooms.RoomRow>, owner: string,
                                   roomId: Option<int>, startTime: Option<DateTime>, endTime: Option<DateTime>, now: DateTime)
    requires CreateDecision(rows, roomRows, owner, roomId, startTime, endTime, now).Ok?
    ensures var row := CreateDecision(rows, roomRows, owner, roomId, startTime, endTime, now).value;
      && roomId == Some(row.roomId) && startTime == Some(row.timeRange.startTime) && endTime == Some(row.timeRange.endTime)
      && IsValidRange(row.timeRange) && !IsBefore(row.timeRange.startTime, now)
      && row.roomId in roomRows && !Rooms.IsDisabled(roomRows[row.roomId].operationalStatus)
      && forall i :: 0 <= i < |rows| && rows[i].roomId == row.roomId && IsBlocking(rows[i].status)
           ==> !Overlaps(rows[i].timeRange, row.timeRange)
  {
    var row := CreateDecision(rows, roomRows, owner, roomId, startTime, endTime, now).value;
    forall i | 0 <= i < |rows| && rows[i].roomId == row.roomId && IsBlocking(rows[i].status)
      ensures !Overlaps(rows[i].timeRange, row.timeRange)
    {
      BlockingQueryIsOverlaps(rows[i], row.roomId, row.timeRange);
    }
  }

  /** The converse: a request with a valid range that has not started, on a stored
      room that is not disabled and free of unfinished bookings over that range, is
      created, as a CONFIRMED booking of the caller for exactly that room and range. */
  lemma CreateConverse(rows: seq<BookingRow>, roomRows: map<int, Rooms.RoomRow>, owner: string,
                       roomId: int, startTime: DateTime, endTime: DateTime, now: DateTime)
    requires NewTimeRange(Some(startTime), Some(endTime)).Ok? && !IsBefore(startTime, now)
    requires roomId in roomRows && !Rooms.IsDisabled(roomRows[roomId].operationalStatus)
    requires forall i :: (0 <= i < |rows| && rows[i].roomId == roomId && IsBlocking(rows[i].status)
                          ==> !Overlaps(rows[i].timeRange, TimeRange(startTime, endTime)))
    ensures CreateDecision(rows, roomRows, owner, Some(roomId), Some(startTime), Some(endTime), now)
         == Ok(BookingRow(roomId, owner, TimeRange(startTime, endTime), Confirmed))
  {
    var range := TimeRange(startTime, endTime);
    forall i | 0 <= i < |rows|
      ensures !OverlapsRequest(rows[i], roomId, startTime, endTime, BlockingStatuses())
    {
      BlockingQueryIsOverlaps(rows[i], roomId, range);
    }
  }

  /** Creating a booking keeps the no-double-booking invariant. */
  lemma CreatePreservesNoDoubleBooking(rows: seq<BookingRow>, roomRows: map<int, Rooms.RoomRow>, owner: string,
                                       roomId: Option<int>, startTime: Option<DateTime>, endTime: Option<DateTime>, now: DateTime)
    requires NoDoubleBooking(rows)
    requires CreateDecision(rows, roomRows, owner, roomId, startTime, endTime, now).Ok?
    ensures NoDoubleBooking(rows + [CreateDecision(rows, roomRows, owner, roomId, startTime, endTime, now).value])
  {
    var row := CreateDecision(rows, roomRows, owner, roomId, startTime, endTime, now).value;
    CreatedBookingIsAcceptable(rows, roomRows, owner, roomId, startTime, endTime, now);
    var after := rows + [row];
    forall i, j | 0 <= i < j < |after| && after[i].roomId == after[j].roomId
      && IsBlocking(after[i].status) && IsBlocking(after[j].status)
      ensures !Overlaps(after[i].timeRange, after[j].timeRange)
    {
      if j == |rows| {
        assert after[i] == rows[i] && after[j] == row;
      } else {
        assert after[i] == rows[i] && after[j] == rows[j];
      }
    }
  }

  /** A finished booking, or one that only touches the requested range, never changes
      whether a booking can be created. */
  lemma FinishedOrTouchingBookingsNeverBlock(rows: seq<BookingRow>, extra: BookingRow, roomRows: map<int, Rooms.RoomRow>, owner: string,
                                             roomId: Option<int>, startTime: Option<DateTime>, endTime: Option<DateTime>, now: DateTime)
    requires IsTerminal(extra.status) || (startTime.Some? && extra.timeRange.endTime == startTime.value)
      || (endTime.Some? && extra.timeRange.startTime == endTime.value)
    ensures CreateDecision(rows + [extra], roomRows, owner, roomId, startTime, endTime, now)
         == CreateDecision(rows, roomRows, owner, roomId, startTime, endTime, now)
  {
    var range := NewTimeRange(startTime, endTime);
    if roomId.Some? && range.Ok? {
      var after := rows + [extra];
      assert !OverlapsRequest(extra, roomId.value, range.value.startTime, range.value.endTime, BlockingStatuses());
      assert forall i :: 0 <= i < |rows| ==> after[i] == rows[i];
      assert HasOverlappingBlockingBooking(after, roomId.value, range.value) == HasOverlappingBlockingBooking(rows, roomId.value, range.value);
    }
  }

  /** `createBooking`: inserts the decided row under the next id, or changes nothing. */
  method CreateBooking(bookings: BookingRepository, rooms: Rooms.RoomRepository, ctx: SecurityContext,
                       roomId: Option<int>, startTime: Option<DateTime>, endTime: Option<DateTime>, now: DateTime)
    returns (r: Result<BookingView>)
    modifies bookings
    ensures var d := CreateDecision(old(bookings.rows), rooms.rows, OwnerOf(ctx), roomId, startTime, endTime, now);
      && (d.Ok? ==> r == Ok(ToView(old(|bookings.rows|), d.value)) && bookings.rows == old(bookings.rows) + [d.value])
      && (d.Err? ==> r == Err(d.error) && bookings.rows == old(bookings.rows))
  {
    if roomId.None? {
      return Err(BadRequest("roomId is required"));
    }
    var currentUser := CurrentUser(ctx.authentication);
    var timeRange := NewTimeRange(startTime, endTime);
    if timeRange.Err? {
      return Err(timeRange.error);
    }
    var range := timeRange.value;
    if IsBefore(range.startTime, now) {
      return Err(BadRequest("startTime must not be in the past"));
    }
    var room := rooms.FindById(roomId.value);
    if room.None? {
      return Err(BadRequest("Room not found with id: " + NumberText(roomId.value)));
    }
    if Rooms.IsDisabled(room.value.operationalStatus) {
      return Err(Conflict("Cannot create booking for a disabled room"));
    }
    if HasOverlappingBlockingBooking(bookings.rows, roomId.value, range) {
      return Err(Conflict("Room is not available for the requested time range"));
    }
    var ownerUserId := NormalizeOwnerUserId(currentUser.subject);
    var booking := NewBooking(roomId, ownerUserId, Some(range));
    bookings.Save(booking.value);
    r := Ok(ToView(booking.value.id.value, booking.value.Row()));
  }

  // ---------------------------------------------------------------------------------
  // cancelBooking and checkIn

  /** The checks of `cancelBooking` and `checkIn` in source order: the id, the lookup,
      the owner-or-staff guard, then the entity's transition; on success the row it
      writes back. */
  function TransitionDecision(rows: seq<BookingRow>, ctx: SecurityContext, bookingId: Option<int>, t: Transition): (r: Result<BookingRow>)
    ensures r.Ok? ==> bookingId.Some? && 0 <= bookingId.value < |rows|
  {
    if bookingId.None? then Err(BadRequest("bookingId is required"))
    else if !(0 <= bookingId.value < |rows|) then Err(BadRequest("Booking not found with id: " + NumberText(bookingId.value)))
    else
      var row := rows[bookingId.value];
      var allowed := RequireOwnerOrStaff(ctx, Some(row.ownerUserId));
      if allowed.Fail? then Err(allowed.error)
      else
        var next :- Next(row.status, row.timeRange, t);
        Ok(row.(status := next))
  }

  /** The guard runs before the transition: a caller who is neither the owner nor staff
      is refused whatever the booking's status, and a stored booking is only ever
      changed by its owner or by staff (or with security off). */
  lemma OnlyOwnerOrStaffTransition(rows: seq<BookingRow>, ctx: SecurityContext, id: int, t: Transition)
    requires 0 <= id < |rows|
    ensures RequireOwnerOrStaff(ctx, Some(rows[id].ownerUserId)).Fail? ==>
      TransitionDecision(rows, ctx, Some(id), t) == Err(Forbidden("Access denied"))
    ensures TransitionDecision(rows, ctx, Some(id), t).Ok? ==>
      !ctx.securityEnabled || HasRole(ctx, Some(StaffRole)) || CurrentUser(ctx.authentication).subject == Some(rows[id].ownerUserId)
  {
  }

  /** An accepted transition follows an edge of the lifecycle and rewrites only the
      status of the row. */
  lemma TransitionFollowsLifecycle(rows: seq<BookingRow>, ctx: SecurityContext, bookingId: Option<int>, t: Transition)
    requires TransitionDecision(rows, ctx, bookingId, t).Ok?
    ensures var before := rows[bookingId.value];
      var after := TransitionDecision(rows, ctx, bookingId, t).value;
      && after == before.(status := after.status)
      && IsLifecycleEdge(before.status, after.status)
  {
    var before := rows[bookingId.value];
    var after := TransitionDecision(rows, ctx, bookingId, t).value;
    TransitionsAreLifecycleEdges(before.status, after.status, before.timeRange);
    assert Next(before.status, before.timeRange, t) == Ok(after.status);
  }

  /** Cancelling or checking in keeps the no-double-booking invariant. */
  lemma TransitionPreservesNoDoubleBooking(rows: seq<BookingRow>, ctx: SecurityContext, bookingId: Option<int>, t: Transition)
    requires NoDoubleBooking(rows)
    requires TransitionDecision(rows, ctx, bookingId, t).Ok?
    ensures NoDoubleBooking(rows[bookingId.value := TransitionDecision(rows, ctx, bookingId, t).value])
  {
    var id := bookingId.value;
    var before := rows[id];
    var after := TransitionDecision(rows, ctx, bookingId, t).value;
    TransitionFollowsLifecycle(rows, ctx, bookingId, t);
    NoDoubleBookingWhenBlockingShrinks(rows, rows[id := after]);
  }

  /** `cancelBooking(bookingId)` at instant `now`. */
  method CancelBooking(bookings: BookingRepository, ctx: SecurityContext, bookingId: Option<int>, now: DateTime)
    returns (r: Result<BookingView>)
    modifies bookings
    ensures var d := TransitionDecision(old(bookings.rows), ctx, bookingId, Transition.Cancel(Some(now)));
      && (d.Ok? ==> r == Ok(ToView(bookingId.value, d.value)) && bookings.rows == old(bookings.rows)[bookingId.value := d.value])
      && (d.Err? ==> r == Err(d.error) && bookings.rows == old(bookings.rows))
  {
    if bookingId.None? {
      return Err(BadRequest("bookingId is required"));
    }
    var found := bookings.FindById(bookingId.value);
    if found.None? {
      return Err(BadRequest("Booking not found with id: " + NumberText(bookingId.value)));
    }
    var booking := found.value;
    var allowed := RequireOwnerOrStaff(ctx, Some(booking.ownerUserId));
    if allowed.Fail? {
      return Err(allowed.error);
    }
    var o := booking.Cancel(Some(now));
    if o.Fail? {
      return Err(o.error);
    }
    bookings.Save(booking);
    r := Ok(ToView(booking.id.value, booking.Row()));
  }

  /** `checkIn(bookingId)`. */
  method CheckIn(bookings: BookingRepository, ctx: SecurityContext, bookingId: Option<int>)
    returns (r: Result<BookingView>)
    modifies bookings
    ensures var d := TransitionDecision(old(bookings.rows), ctx, bookingId, Transition.CheckIn);
      && (d.Ok? ==> r == Ok(ToView(bookingId.value, d.value)) && bookings.rows == old(bookings.rows)[bookingId.value := d.value])
      && (d.Err? ==> r == Err(d.error) && bookings.rows == old(bookings.rows))
  {
    if bookingId.None? {
      return Err(BadRequest("bookingId is required"));
    }
    var found := bookings.FindById(bookingId.value);
    if found.None? {
      return Err(BadRequest("Booking not found with id: " + NumberText(bookingId.value)));
    }
    var booking := found.value;
    var allowed := RequireOwnerOrStaff(ctx, Some(booking.ownerUserId));
    if allowed.Fail? {
      return Err(allowed.error);
    }
    var o := booking.CheckIn();
    if o.Fail? {
      return Err(o.error);
    }
    bookings.Save(booking);
    r := Ok(ToView(booking.id.value, booking.Row()));
  }

  // ---------------------------------------------------------------------------------
  // Read-only queries

  /** `locateBookingById`. */
  function LocateBookingById(rows: seq<BookingRow>, bookingId: Option<int>): (r: Result<Option<BookingView>>)
    ensures bookingId.None? <==> r.Err?
    ensures r.Ok? ==> (r.value.Some? <==> 0 <= bookingId.value < |rows|)
    ensures r.Ok? && r.value.Some? ==> r.value.value == ToView(bookingId.value, rows[bookingId.value])
  {
    if bookingId.None? then Err(BadRequest("bookingId is required"))
    else if 0 <= bookingId.value < |rows| then Ok(Some(ToView(bookingId.value, rows[bookingId.value])))
    else Ok(None)
  }

  function ViewsOf(rows: seq<BookingRow>, ids: seq<nat>): (views: seq<BookingView>)
    requires forall k :: 0 <= k < |ids| ==> ids[k] < |rows|
    ensures |views| == |ids| && forall k :: 0 <= k < |ids| ==> views[k] == ToView(ids[k], rows[ids[k]])
  {
    seq(|ids|, k requires 0 <= k < |ids| => ToView(ids[k], rows[ids[k]]))
  }

  /** `fetchBookingsByRoom`: the bookings of that room, each once, in table order. */
  function FetchBookingsByRoom(rows: seq<BookingRow>, roomId: Option<int>): (r: Result<seq<BookingView>>)
    ensures roomId.None? <==> r.Err?
    ensures r.Ok? ==> forall k :: 0 <= k < |r.value| ==> r.value[k].roomId == roomId.value
    ensures r.Ok? ==> forall j, k :: 0 <= j < k < |r.value| ==> r.value[j].id < r.value[k].id
  {
    if roomId.None? then Err(BadRequest("roomId is required"))
    else Ok(ViewsOf(rows, FoundIds(rows, RoomIs(roomId.value))))
  }

  /** The bookings listed for a room are exactly the stored bookings of that room. */
  lemma FetchBookingsByRoomIsExact(rows: seq<BookingRow>, roomId: int)
    ensures var views := FetchBookingsByRoom(rows, Some(roomId)).value;
      && (forall k :: 0 <= k < |views| ==> views[k].roomId == roomId && 0 <= views[k].id < |rows|)
      && (forall i :: 0 <= i < |rows| && rows[i].roomId == roomId ==> exists k :: 0 <= k < |views| && views[k].id == i)
      && (forall j, k :: 0 <= j < k < |views| ==> views[j].id < views[k].id)
      && (forall k :: 0 <= k < |views| ==> views[k] == ToView(views[k].id, rows[views[k].id]))
  {
    var ids := FoundIds(rows, RoomIs(roomId));
    var views := FetchBookingsByRoom(rows, Some(roomId)).value;
    forall i | 0 <= i < |rows| && rows[i].roomId == roomId
      ensures exists k :: 0 <= k < |views| && views[k].id == i
    {
      assert Selects(RoomIs(roomId), rows[i]);
      var k :| 0 <= k < |ids| && ids[k] == i;
      assert views[k].id == i;
    }
  }

  /** `fetchBookings`: every stored booking, in table order. */
  function FetchBookings(rows: seq<BookingRow>): (views: seq<BookingView>)
    ensures |views| == |rows| && forall i :: 0 <= i < |rows| ==> views[i] == ToView(i, rows[i])
  {
    FindAllIsEveryId(rows, |rows|);
    ViewsOf(rows, FoundIds(rows, Everything))
  }

  // ---------------------------------------------------------------------------------
  // fetchRoomAvailability

  /** `RoomAvailabilityDTO`, echoing the requested instants. */
  datatype Availability = Availability(roomId: int, startTime: DateTime, endTime: DateTime, status: string)

  /** `fetchRoomAvailability`: the room is looked up before the range is validated; a
      disabled room is unavailable whatever is booked. */
  function FetchRoomAvailability(rows: seq<BookingRow>, roomRows: map<int, Rooms.RoomRow>,
                                 roomId: Option<int>, startTime: Option<DateTime>, endTime: Option<DateTime>): (r: Result<Availability>)
    ensures r.Ok? ==> roomId.Some? && roomId.value in roomRows && NewTimeRange(startTime, endTime).Ok?
    ensures r.Ok? ==> r.value.status in {"AVAILABLE", "UNAVAILABLE"}
    ensures r.Ok? && Rooms.IsDisabled(roomRows[roomId.value].operationalStatus) ==> r.value.status == "UNAVAILABLE"
  {
    if roomId.None? then Err(BadRequest("roomId is required"))
    else if roomId.value !in roomRows then Err(BadRequest("Room not found with id: " + NumberText(roomId.value)))
    else
      var range :- NewTimeRange(startTime, endTime);
      if Rooms.IsDisabled(roomRows[roomId.value].operationalStatus) then
        Ok(Availability(roomId.value, range.startTime, range.endTime, "UNAVAILABLE"))
      else
        var unavailable := HasOverlappingBlockingBooking(rows, roomId.value, range);
        Ok(Availability(roomId.value, range.startTime, range.endTime, if unavailable then "UNAVAILABLE" else "AVAILABLE"))
  }

  /** Availability and creation agree: for a request that has not started, a room
      reported AVAILABLE is one a booking can be created for, and the other way
      round. */
  lemma AvailableIffCreatable(rows: seq<BookingRow>, roomRows: map<int, Rooms.RoomRow>, owner: string,
                              roomId: int, startTime: DateTime, endTime: DateTime, now: DateTime)
    requires !IsBefore(startTime, now)
    ensures var a := FetchRoomAvailability(rows, roomRows, Some(roomId), Some(startTime), Some(endTime));
      a.Ok? && a.value.status == "AVAILABLE"
      <==> CreateDecision(rows, roomRows, owner, Some(roomId), Some(startTime), Some(endTime), now).Ok?
  {
  }

  /** For an enabled room and a valid range, the answer is UNAVAILABLE exactly when an
      unfinished booking of that room overlaps the range. */
  lemma AvailabilityIffOverlap(rows: seq<BookingRow>, roomRows: map<int, Rooms.RoomRow>,
                               roomId: int, startTime: DateTime, endTime: DateTime)
    requires roomId in roomRows && !Rooms.IsDisabled(roomRows[roomId].operationalStatus)
    requires NewTimeRange(Some(startTime), Some(endTime)).Ok?
    ensures var a := FetchRoomAvailability(rows, roomRows, Some(roomId), Some(startTime), Some(endTime));
      && a.Ok?
      && (a.value.status == "UNAVAILABLE" <==>
            (exists i :: 0 <= i < |rows| && rows[i].roomId == roomId
               && IsBlocking(rows[i].status) && Overlaps(rows[i].timeRange, TimeRange(startTime, endTime))))
  {
    var range := TimeRange(startTime, endTime);
    forall i | 0 <= i < |rows|
      ensures OverlapsRequest(rows[i], roomId, startTime, endTime, BlockingStatuses())
        <==> rows[i].roomId == roomId && IsBlocking(rows[i].status) && Overlaps(rows[i].timeRange, range)
    {
      BlockingQueryIsOverlaps(rows[i], roomId, range);
    }
  }

  // ---------------------------------------------------------------------------------
  // The lifecycle sweeps

  /** The three private sweeps of `enforceLifecycle`. */
  datatype Sweep = MoveToCheckInRequired | MarkNoShows | CompleteCheckedIn

  /** The repository finder each sweep starts from. */
  function SweepFinder(sweep: Sweep, now: DateTime): Finder {
    match sweep
    case MoveToCheckInRequired => StatusAndStartAtMost(Confirmed, now)
    case MarkNoShows => StatusAndStartAtMost(CheckInRequired, now)
    case CompleteCheckedIn => StatusAndEndAtMost(CheckedIn, now)
  }

  function SweepTransition(sweep: Sweep): Transition {
    match sweep
    case MoveToCheckInRequired => Transition.RequireCheckIn
    case MarkNoShows => Transition.MarkNoShow
    case CompleteCheckedIn => Transition.Complete
  }

  /** The no-show filter: `now` is not before the start plus the grace period. */
  predicate GracePassed(row: BookingRow, now: DateTime) {
    !IsBefore(now, PlusMinutes(row.timeRange.startTime, CheckInGracePeriodMinutes))
  }

  /** The rows a sweep transitions. */
  predicate Swept(sweep: Sweep, row: BookingRow, now: DateTime) {
    Selects(SweepFinder(sweep, now), row) && (sweep == MarkNoShows ==> GracePassed(row, now))
  }

  function SweepRow(sweep: Sweep, row: BookingRow, now: DateTime): BookingRow {
    if Swept(sweep, row, now) then row.(status := StatusAfter(row.status, row.timeRange, SweepTransition(sweep))) else row
  }

  /** The table after one sweep. */
  function SweepRows(sweep: Sweep, rows: seq<BookingRow>, now: DateTime): (after: seq<BookingRow>)
    ensures |after| == |rows| && forall i :: 0 <= i < |rows| ==> after[i] == SweepRow(sweep, rows[i], now)
  {
    seq(|rows|, i requires 0 <= i < |rows| => SweepRow(sweep, rows[i], now))
  }

  /** The table after `enforceLifecycle(now)`: the three sweeps in source order. */
  function EnforceLifecycleRows(rows: seq<BookingRow>, now: DateTime): seq<BookingRow> {
    SweepRows(CompleteCheckedIn, SweepRows(MarkNoShows, SweepRows(MoveToCheckInRequired, rows, now), now), now)
  }

  /** A sweep only selects bookings in its transition's source status, so the
      transition never throws, and it follows a lifecycle edge. */
  lemma SweptTransitionSucceeds(sweep: Sweep, row: BookingRow, now: DateTime)
    requires Swept(sweep, row, now)
    ensures Next(row.status, row.timeRange, SweepTransition(sweep)).Ok?
    ensures IsLifecycleEdge(row.status, SweepRow(sweep, row, now).status)
  {
  }

  /** A sweep changes only the status of a row, never makes a booking blocking, and
      leaves the rows it does not select as they are. */
  lemma SweepRowChangesOnlyStatus(sweep: Sweep, row: BookingRow, now: DateTime)
    ensures SweepRow(sweep, row, now) == row.(status := SweepRow(sweep, row, now).status)
    ensures IsBlocking(SweepRow(sweep, row, now).status) ==> IsBlocking(row.status)
    ensures !Swept(sweep, row, now) ==> SweepRow(sweep, row, now) == row
  {
  }

  /** Running a sweep twice at the same instant changes nothing more. */
  lemma SweepIdempotent(sweep: Sweep, rows: seq<BookingRow>, now: DateTime)
    ensures SweepRows(sweep, SweepRows(sweep, rows, now), now) == SweepRows(sweep, rows, now)
  {
    var once := SweepRows(sweep, rows, now);
    forall i | 0 <= i < |rows|
      ensures SweepRow(sweep, once[i], now) == once[i]
    {
      if Swept(sweep, rows[i], now) {
        assert !Swept(sweep, once[i], now);
      }
    }
  }

  /** One tick of `enforceLifecycle` on a single booking: a CONFIRMED booking whose
      start has come becomes CHECK_IN_REQUIRED, and NO_SHOW at once when the grace
      period is also over (exactly at start plus 15 minutes counts); a CHECKED_IN
      booking whose end has come becomes COMPLETED; nothing else changes. */
  lemma EnforceLifecycleOnBooking(row: BookingRow, now: DateTime)
    ensures var after := SweepRow(CompleteCheckedIn, SweepRow(MarkNoShows, SweepRow(MoveToCheckInRequired, row, now), now), now);
      && after == row.(status := after.status)
      && after.status == (
        if (row.status == Confirmed || row.status == CheckInRequired) && !IsAfter(row.timeRange.startTime, now) then
          (if GracePassed(row, now) then NoShow else CheckInRequired)
        else if row.status == CheckedIn && !IsAfter(row.timeRange.endTime, now) then Completed
        else row.status)
  {
  }

  /** `enforceLifecycle` keeps the no-double-booking invariant. */
  lemma EnforceLifecyclePreservesNoDoubleBooking(rows: seq<BookingRow>, now: DateTime)
    requires NoDoubleBooking(rows)
    ensures NoDoubleBooking(EnforceLifecycleRows(rows, now))
  {
    var r1 := SweepRows(MoveToCheckInRequired, rows, now);
    var r2 := SweepRows(MarkNoShows, r1, now);
    var r3 := SweepRows(CompleteCheckedIn, r2, now);
    forall i | 0 <= i < |rows| { SweepRowChangesOnlyStatus(MoveToCheckInRequired, rows[i], now); }
    NoDoubleBookingWhenBlockingShrinks(rows, r1);
    forall i | 0 <= i < |r1| { SweepRowChangesOnlyStatus(MarkNoShows, r1[i], now); }
    NoDoubleBookingWhenBlockingShrinks(r1, r2);
    forall i | 0 <= i < |r2| { SweepRowChangesOnlyStatus(CompleteCheckedIn, r2[i], now); }
    NoDoubleBookingWhenBlockingShrinks(r2, r3);
  }

  /** After `saveAll` of entities that carry the swept rows of the selected ids, the
      table is the swept table. */
  lemma SavedRowsAreSwept(sweep: Sweep, before: seq<BookingRow>, after: seq<BookingRow>, ids: seq<nat>, now: DateTime)
    requires |after| == |before|
    requires forall k :: 0 <= k < |ids| ==> ids[k] < |before| && after[ids[k]] == SweepRow(sweep, before[ids[k]], now)
    requires forall i :: 0 <= i < |before| && Swept(sweep, before[i], now) ==> i in ids
    requires forall i :: 0 <= i < |before| && i !in ids ==> after[i] == before[i]
    ensures after == SweepRows(sweep, before, now)
  {
    forall i | 0 <= i < |before|
      ensures after[i] == SweepRow(sweep, before[i], now)
    {
      if i in ids {
        var k :| 0 <= k < |ids| && ids[k] == i;
      }
    }
  }

  /** `moveConfirmedBookingsToCheckInRequired` and `completeCheckedInBookings`: load the
      selected bookings, transition each, and `saveAll` them when there are any. */
  method SweepAll(bookings: BookingRepository, sweep: Sweep, now: DateTime) returns (saved: bool)
    requires sweep != MarkNoShows
    modifies bookings
    ensures bookings.rows == SweepRows(sweep, old(bookings.rows), now)
    ensures saved <==> exists i :: 0 <= i < |old(bookings.rows)| && Swept(sweep, old(bookings.rows)[i], now)
  {
    ghost var before := bookings.rows;
    ghost var ids := FoundIds(before, SweepFinder(sweep, now));
    var toUpdate := bookings.Find(SweepFinder(sweep, now));
    TransitionEach(sweep, toUpdate, before, ids, now);
    saved := SaveSwept(bookings, sweep, toUpdate, before, ids, now);
  }

  /** `markNoShows`: of the CHECK_IN_REQUIRED bookings that have started, those whose
      grace period is over are marked NO_SHOW and saved together. */
  method MarkNoShowsSweep(bookings: BookingRepository, now: DateTime) returns (saved: bool)
    modifies bookings
    ensures bookings.rows == SweepRows(MarkNoShows, old(bookings.rows), now)
    ensures saved <==> exists i :: 0 <= i < |old(bookings.rows)| && Swept(MarkNoShows, old(bookings.rows)[i], now)
  {
    ghost var before := bookings.rows;
    ghost var ids := FoundIds(before, SweepFinder(MarkNoShows, now));
    var toReview := bookings.Find(SweepFinder(MarkNoShows, now));
    var toUpdate, positions := PickGracePassed(toReview, before, ids, now);
    ghost var savedIds := IdsAt(ids, positions);
    PickedIdsAreSwept(before, ids, positions, now);
    forall m | 0 <= m < |toUpdate|
      ensures toUpdate[m].id == Some(savedIds[m]) && toUpdate[m].Row() == before[savedIds[m]]
    {
      assert toUpdate[m] == toReview[positions[m]];
    }
    TransitionEach(MarkNoShows, toUpdate, before, savedIds, now);
    saved := SaveSwept(bookings, MarkNoShows, toUpdate, before, savedIds, now);
  }

  /** The end of every sweep: `saveAll` of the transitioned entities, only when there
      are any. The table ends as the sweep function describes. */
  method SaveSwept(bookings: BookingRepository, sweep: Sweep, toUpdate: seq<Booking>, ghost before: seq<BookingRow>, ghost ids: seq<nat>, now: DateTime)
    returns (saved: bool)
    requires bookings.rows == before && |toUpdate| == |ids| && StrictlyIncreasing(ids)
    requires forall k :: 0 <= k < |ids| ==> ids[k] < |before| && Swept(sweep, before[ids[k]], now)
    requires forall k :: 0 <= k < |ids| ==> toUpdate[k].id == Some(ids[k]) && toUpdate[k].Row() == SweepRow(sweep, before[ids[k]], now)
    requires forall i :: 0 <= i < |before| && Swept(sweep, before[i], now) ==> i in ids
    modifies bookings
    ensures bookings.rows == SweepRows(sweep, before, now)
    ensures saved <==> exists i :: 0 <= i < |before| && Swept(sweep, before[i], now)
  {
    saved := |toUpdate| > 0;
    if saved {
      forall j, k | 0 <= j < k < |toUpdate| ensures toUpdate[j].id != toUpdate[k].id {
        assert ids[j] < ids[k];
      }
      bookings.SaveAll(toUpdate);
      forall i | 0 <= i < |before| && i !in ids ensures bookings.rows[i] == before[i] {
        assert forall k :: 0 <= k < |toUpdate| ==> toUpdate[k].id != Some(i);
      }
      assert Swept(sweep, before[ids[0]], now);
    }
    SavedRowsAreSwept(sweep, before, bookings.rows, ids, now);
  }

  /** The filter of `markNoShows`: the reviewed bookings whose grace period is over,
      in order, with their ids. */
  method PickGracePassed(toReview: seq<Booking>, ghost before: seq<BookingRow>, ghost ids: seq<nat>, now: DateTime)
    returns (picked: seq<Booking>, ghost positions: seq<nat>)
    requires |toReview| == |ids| && forall j :: 0 <= j < |ids| ==> ids[j] < |before|
    requires forall j :: 0 <= j < |ids| ==> toReview[j].Row() == before[ids[j]]
    ensures StrictlyIncreasing(positions)
    ensures forall m :: 0 <= m < |positions| ==> positions[m] < |ids| && GracePassed(before[ids[positions[m]]], now)
    ensures forall j :: 0 <= j < |ids| && GracePassed(before[ids[j]], now) ==> j in positions
    ensures |picked| == |positions| && forall m :: 0 <= m < |picked| ==> picked[m] == toReview[positions[m]]
  {
    picked := [];
    positions := [];
    var k := 0;
    while k < |toReview|
      invariant 0 <= k <= |toReview| && StrictlyIncreasing(positions)
      invariant forall m :: 0 <= m < |positions| ==> positions[m] < k && GracePassed(before[ids[positions[m]]], now)
      invariant forall j :: 0 <= j < k && GracePassed(before[ids[j]], now) ==> j in positions
      invariant |picked| == |positions| && forall m :: 0 <= m < |picked| ==> picked[m] == toReview[positions[m]]
    {
      assert toReview[k].Row() == before[ids[k]];
      if GracePassed(toReview[k].Row(), now) {
        AppendAboveKeepsIncreasing(positions, k);
        picked := picked + [toReview[k]];
        positions := positions + [k];
      }
      k := k + 1;
    }
  }

  function IdsAt(ids: seq<nat>, positions: seq<nat>): (r: seq<nat>)
    requires forall m :: 0 <= m < |positions| ==> positions[m] < |ids|
    ensures |r| == |positions| && forall m :: 0 <= m < |positions| ==> r[m] == ids[positions[m]]
  {
    seq(|positions|, m requires 0 <= m < |positions| => ids[positions[m]])
  }

  /** The ids at the positions the no-show filter keeps are exactly the swept rows,
      in table order. */
  lemma PickedIdsAreSwept(before: seq<BookingRow>, ids: seq<nat>, positions: seq<nat>, now: DateTime)
    requires ids == FoundIds(before, SweepFinder(MarkNoShows, now))
    requires StrictlyIncreasing(positions) && forall m :: 0 <= m < |positions| ==> positions[m] < |ids|
    requires forall j :: 0 <= j < |ids| && GracePassed(before[ids[j]], now) ==> j in positions
    requires forall m :: 0 <= m < |positions| ==> GracePassed(before[ids[positions[m]]], now)
    ensures var pickedIds := IdsAt(ids, positions);
      && StrictlyIncreasing(pickedIds)
      && (forall m :: 0 <= m < |pickedIds| ==> pickedIds[m] < |before| && Swept(MarkNoShows, before[pickedIds[m]], now))
      && (forall i :: 0 <= i < |before| && Swept(MarkNoShows, before[i], now) ==> i in pickedIds)
  {
    var pickedIds := IdsAt(ids, positions);
    forall i | 0 <= i < |before| && Swept(MarkNoShows, before[i], now)
      ensures i in pickedIds
    {
      var j :| 0 <= j < |ids| && ids[j] == i;
      var m :| 0 <= m < |positions| && positions[m] == j;
      assert pickedIds[m] == i;
    }
  }

  /** The `forEach` of the check-in and completion sweeps and the `peek` of
      `markNoShows`: every picked booking takes the sweep's transition. */
  method TransitionEach(sweep: Sweep, picked: seq<Booking>, ghost before: seq<BookingRow>, ghost pickedIds: seq<nat>, now: DateTime)
    requires |pickedIds| == |picked| && StrictlyIncreasing(pickedIds)
    requires forall m :: 0 <= m < |picked| ==>
      picked[m].id == Some(pickedIds[m]) && pickedIds[m] < |before| && picked[m].Row() == before[pickedIds[m]]
    requires forall m :: 0 <= m < |pickedIds| ==> Swept(sweep, before[pickedIds[m]], now)
    modifies picked
    ensures forall m :: 0 <= m < |picked| ==>
      picked[m].id == Some(pickedIds[m]) && picked[m].Row() == SweepRow(sweep, before[pickedIds[m]], now)
  {
    var k := 0;
    while k < |picked|
      invariant 0 <= k <= |picked|
      invariant forall m :: 0 <= m < |picked| ==> picked[m].id == Some(pickedIds[m])
      invariant forall m :: 0 <= m < k ==> picked[m].Row() == SweepRow(sweep, before[pickedIds[m]], now)
      invariant forall m :: k <= m < |picked| ==> picked[m].Row() == before[pickedIds[m]]
    {
      var b := picked[k];
      SweptTransitionSucceeds(sweep, b.Row(), now);
      var o;
      match sweep {
        case MoveToCheckInRequired => o := b.RequireCheckIn();
        case MarkNoShows => o := b.MarkNoShow();
        case CompleteCheckedIn => o := b.Complete();
      }
      k := k + 1;
    }
  }

  /** `enforceLifecycle`, with the instant it reads from the clock as a parameter. */
  method EnforceLifecycle(bookings: BookingRepository, now: DateTime)
    modifies bookings
    ensures bookings.rows == EnforceLifecycleRows(old(bookings.rows), now)
  {
    var moved := SweepAll(bookings, MoveToCheckInRequired, now);
    var marked := MarkNoShowsSweep(bookings, now);
    var completed := SweepAll(bookings, CompleteCheckedIn, now);
  }
}
