/** The booking aggregate of the reservation context
    (reservation/booking/domain/Booking.java): its time range value object, the
    six-state lifecycle, and the entity whose transitions overwrite its status. */
module BookingDomain {
  import opened Outcomes
  import opened Clock

  datatype BookingStatus = Confirmed | CheckInRequired | CheckedIn | Completed | Cancelled | NoShow

  /** The enum constant's name, as it appears in messages and DTOs. */
  function StatusName(status: BookingStatus): string {
    match status
    case Confirmed => "CONFIRMED"
    case CheckInRequired => "CHECK_IN_REQUIRED"
    case CheckedIn => "CHECKED_IN"
    case Completed => "COMPLETED"
    case Cancelled => "CANCELLED"
    case NoShow => "NO_SHOW"
  }

  /** The statuses `cancel` refuses to leave: a booking in one of them is finished. */
  predicate IsTerminal(status: BookingStatus) {
    status == Completed || status == Cancelled || status == NoShow
  }

  /** `blockingStatuses`: a booking in one of these holds its room. */
  function BlockingStatuses(): (s: set<BookingStatus>)
    ensures forall status :: status in s <==> !IsTerminal(status)
  {
    {Confirmed, CheckInRequired, CheckedIn}
  }

  predicate IsBlocking(status: BookingStatus) {
    status in BlockingStatuses()
  }

  // ---------------------------------------------------------------------------------
  // TimeRange

  const MinDurationMinutes: int := 30
  const MaxDurationMinutes: int := 120

  datatype TimeRange = TimeRange(startTime: DateTime, endTime: DateTime)

  /** A slot boundary: on the hour or the half hour, with no seconds or nanoseconds. */
  predicate IsSlotBoundary(t: DateTime) {
    t.second == 0 && t.nano == 0 && t.epochMinute % 30 == 0
  }

  /** The ranges a booking may take: from one slot boundary to another, one to four
      half-hour slots later. */
  predicate SpansWholeSlots(startTime: DateTime, endTime: DateTime) {
    && IsSlotBoundary(startTime)
    && IsSlotBoundary(endTime)
    && endTime.epochMinute - startTime.epochMinute in {30, 60, 90, 120}
  }

  predicate IsValidRange(range: TimeRange) {
    SpansWholeSlots(range.startTime, range.endTime)
  }

  /** The messages of the two alignment checks, naming the field they reject. */
  function StrayPrecisionMessage(field: string): string {
    field + " must have zero seconds and nanoseconds"
  }

  function MisalignedMessage(field: string): string {
    field + " must align to 30-minute slots"
  }

  /** `validateAlignedToTimeslot`. */
  function AlignedToTimeslot(field: string, value: DateTime): (o: Outcome)
    ensures o.Pass? <==> IsSlotBoundary(value)
    ensures o.Fail? ==> o.error.BadRequest?
  {
    if value.second != 0 || value.nano != 0 then
      Fail(BadRequest(StrayPrecisionMessage(field)))
    else if MinuteOfHour(value) != 0 && MinuteOfHour(value) != 30 then
      Fail(BadRequest(MisalignedMessage(field)))
    else
      Pass
  }

  /** The canonical constructor of `TimeRange`, with its checks in source order:
      presence, order, minimum and maximum duration (in truncated whole minutes), then
      the alignment of each end. It accepts exactly the ranges of whole slots. */
  function NewTimeRange(startTime: Option<DateTime>, endTime: Option<DateTime>): (r: Result<TimeRange>)
    ensures r.Ok? <==> startTime.Some? && endTime.Some? && SpansWholeSlots(startTime.value, endTime.value)
    ensures r.Ok? ==> r.value == TimeRange(startTime.value, endTime.value)
    ensures r.Err? ==> r.error.BadRequest?
  {
    if startTime.None? || endTime.None? then
      Err(BadRequest("startTime and endTime are required"))
    else
      var s := startTime.value;
      var e := endTime.value;
      if !IsAfter(e, s) then
        Err(BadRequest("endTime must be after startTime"))
      else if DurationMinutes(s, e) < MinDurationMinutes then
        Err(BadRequest("Booking duration must be at least 30 minutes"))
      else if DurationMinutes(s, e) > MaxDurationMinutes then
        Err(BadRequest("Booking duration must be at most 120 minutes"))
      else
        var checks :- ValidRangeChecks(s, e);
        Ok(TimeRange(s, e))
  }

  /** The alignment checks, run once the duration is known to be within bounds. */
  function ValidRangeChecks(s: DateTime, e: DateTime): (r: Result<bool>)
    requires IsAfter(e, s) && MinDurationMinutes <= DurationMinutes(s, e) <= MaxDurationMinutes
    ensures r.Ok? <==> SpansWholeSlots(s, e)
    ensures r.Err? ==> r.error.BadRequest?
  {
    var o1 := AlignedToTimeslot("startTime", s);
    if o1.Fail? then Err(o1.error)
    else
      var o2 := AlignedToTimeslot("endTime", e);
      if o2.Fail? then Err(o2.error)
      else
        DurationMinutesOfWholeMinutes(s, e);
        Ok(true)
  }

  /** `overlaps`: the half-open intervals [start, end) intersect. */
  predicate Overlaps(a: TimeRange, b: TimeRange) {
    IsBefore(a.startTime, b.endTime) && IsBefore(b.startTime, a.endTime)
  }

  /** An instant inside the half-open interval of a range. */
  predicate Contains(range: TimeRange, n: int) {
    Nanos(range.startTime) <= n < Nanos(range.endTime)
  }

  /** For non-empty ranges, `overlaps` holds exactly when some instant lies in both. */
  lemma OverlapsIffCommonInstant(a: TimeRange, b: TimeRange)
    requires IsBefore(a.startTime, a.endTime) && IsBefore(b.startTime, b.endTime)
    ensures Overlaps(a, b) <==> exists n :: Contains(a, n) && Contains(b, n)
  {
    if Overlaps(a, b) {
      var n := if Nanos(a.startTime) < Nanos(b.startTime) then Nanos(b.startTime) else Nanos(a.startTime);
      assert Contains(a, n) && Contains(b, n);
    }
  }

  /** `overlaps` is symmetric, ranges that only touch do not overlap, and a non-empty
      range overlaps itself. */
  lemma OverlapsProperties(a: TimeRange, b: TimeRange)
    ensures Overlaps(a, b) == Overlaps(b, a)
    ensures a.endTime == b.startTime ==> !Overlaps(a, b)
    ensures IsBefore(a.startTime, a.endTime) ==> Overlaps(a, a)
  {
  }

  /** 10:00 on the first day of the epoch, as in the examples below. */
  const TenOClock: DateTime := LocalDateTime(600, 0, 0)

  /** A 90-minute range from a slot boundary is accepted as given. */
  lemma AcceptedRangeExample()
    ensures NewTimeRange(Some(TenOClock), Some(PlusMinutes(TenOClock, 90))) == Ok(TimeRange(TenOClock, PlusMinutes(TenOClock, 90)))
  {
    DurationMinutesOfWholeMinutes(TenOClock, PlusMinutes(TenOClock, 90));
  }

  /** The duration checks come before the alignment checks and report the bound. */
  lemma DurationBoundsExamples()
    ensures NewTimeRange(Some(TenOClock), Some(PlusMinutes(TenOClock, 15))) == Err(BadRequest("Booking duration must be at least 30 minutes"))
    ensures NewTimeRange(Some(TenOClock), Some(PlusMinutes(TenOClock, 150))) == Err(BadRequest("Booking duration must be at most 120 minutes"))
    ensures NewTimeRange(Some(TenOClock), Some(TenOClock)) == Err(BadRequest("endTime must be after startTime"))
    ensures NewTimeRange(None, Some(TenOClock)) == Err(BadRequest("startTime and endTime are required"))
  {
    DurationMinutesOfWholeMinutes(TenOClock, PlusMinutes(TenOClock, 15));
    DurationMinutesOfWholeMinutes(TenOClock, PlusMinutes(TenOClock, 150));
  }

  /** A quarter-past start fails the slot check. */
  lemma MisalignedStartExample()
    ensures var s := LocalDateTime(615, 0, 0);
      NewTimeRange(Some(s), Some(PlusMinutes(s, 30))) == Err(BadRequest(MisalignedMessage("startTime")))
  {
    var s := LocalDateTime(615, 0, 0);
    var e := PlusMinutes(s, 30);
    DurationMinutesOfWholeMinutes(s, e);
    assert DurationMinutes(s, e) == 30;
    var msg := MisalignedMessage("startTime");
    assert MinuteOfHour(s) == 15;
    assert AlignedToTimeslot("startTime", s) == Fail(BadRequest(msg));
    assert ValidRangeChecks(s, e) == Err(BadRequest(msg));
  }

  /** A start one second past a slot boundary fails the zero-seconds check. */
  lemma StraySecondExample()
    ensures var s := LocalDateTime(600, 1, 0);
      NewTimeRange(Some(s), Some(PlusMinutes(s, 30))) == Err(BadRequest(StrayPrecisionMessage("startTime")))
  {
    var s := LocalDateTime(600, 1, 0);
    var e := PlusMinutes(s, 30);
    assert Nanos(e) - Nanos(s) == 1800 * NanosPerSecond;
    assert DurationSeconds(s, e) == 1800;
    assert DurationMinutes(s, e) == 30;
    var msg := StrayPrecisionMessage("startTime");
    assert AlignedToTimeslot("startTime", s) == Fail(BadRequest(msg));
    assert ValidRangeChecks(s, e) == Err(BadRequest(msg));
  }

  // ---------------------------------------------------------------------------------
  // Lifecycle

  /** The transition methods of the entity. */
  datatype Transition = RequireCheckIn | CheckIn | MarkNoShow | Complete | Cancel(now: Option<DateTime>)

  /** The status a transition leads to from `status`, or the exception it throws. */
  function Next(status: BookingStatus, range: TimeRange, t: Transition): Result<BookingStatus> {
    match t
    case RequireCheckIn =>
      if status != Confirmed then Err(Conflict("Check-in can only be required from CONFIRMED"))
      else Ok(CheckInRequired)
    case CheckIn =>
      if status != CheckInRequired then Err(Conflict("Cannot check in unless status is CHECK_IN_REQUIRED"))
      else Ok(CheckedIn)
    case MarkNoShow =>
      if status != CheckInRequired then Err(Conflict("No-show can only happen from CHECK_IN_REQUIRED"))
      else Ok(NoShow)
    case Complete =>
      if status != CheckedIn then Err(Conflict("Complete can only happen from CHECKED_IN"))
      else Ok(Completed)
    case Cancel(now) =>
      if now.None? then Err(BadRequest("now is required"))
      else if IsTerminal(status) then Err(Conflict("Cannot cancel booking in status: " + StatusName(status)))
      else if IsAfter(now.value, range.endTime) then Err(Conflict("Cannot cancel after end time"))
      else Ok(Cancelled)
  }

  /** The status after attempting a transition: unchanged when it is refused. */
  function StatusAfter(status: BookingStatus, range: TimeRange, t: Transition): BookingStatus {
    var r := Next(status, range, t);
    if r.Ok? then r.value else status
  }

  function OutcomeOf(r: Result<BookingStatus>): Outcome {
    if r.Ok? then Pass else Fail(r.error)
  }

  /** The lifecycle graph: CONFIRMED to CHECK_IN_REQUIRED to CHECKED_IN to COMPLETED,
      CHECK_IN_REQUIRED to NO_SHOW, and any unfinished status to CANCELLED. */
  predicate IsLifecycleEdge(from: BookingStatus, to: BookingStatus) {
    || (from == Confirmed && to == CheckInRequired)
    || (from == CheckInRequired && to == CheckedIn)
    || (from == CheckInRequired && to == NoShow)
    || (from == CheckedIn && to == Completed)
    || (!IsTerminal(from) && to == Cancelled)
  }

  /** Every accepted transition follows an edge of the lifecycle graph, and every edge
      is taken by some transition (cancelling exactly at the end time is allowed). */
  lemma TransitionsAreLifecycleEdges(from: BookingStatus, to: BookingStatus, range: TimeRange)
    ensures (exists t :: Next(from, range, t) == Ok(to)) <==> IsLifecycleEdge(from, to)
  {
    if exists t :: Next(from, range, t) == Ok(to) {
      var t :| Next(from, range, t) == Ok(to);
      AcceptedTransitionIsEdge(from, range, t);
    }
    if IsLifecycleEdge(from, to) {
      var t := EdgeTransition(from, to, range);
    }
  }

  /** A transition that takes an edge of the lifecycle graph. */
  lemma EdgeTransition(from: BookingStatus, to: BookingStatus, range: TimeRange) returns (t: Transition)
    requires IsLifecycleEdge(from, to)
    ensures Next(from, range, t) == Ok(to)
  {
    if to == Cancelled {
      t := Cancel(Some(range.endTime));
    } else if to == CheckInRequired {
      t := RequireCheckIn;
    } else if to == CheckedIn {
      t := CheckIn;
    } else if to == NoShow {
      t := MarkNoShow;
    } else {
      t := Complete;
    }
  }

  lemma AcceptedTransitionIsEdge(from: BookingStatus, range: TimeRange, t: Transition)
    requires Next(from, range, t).Ok?
    ensures IsLifecycleEdge(from, Next(from, range, t).value)
  {
    match t {
      case RequireCheckIn =>
      case CheckIn =>
      case MarkNoShow =>
      case Complete =>
      case Cancel(now) =>
    }
  }

  /** Once finished, a booking refuses every transition. */
  lemma TerminalStatusesAreFinal(status: BookingStatus, range: TimeRange, t: Transition)
    requires IsTerminal(status)
    ensures Next(status, range, t).Err?
    ensures StatusAfter(status, range, t) == status
  {
  }

  /** A refused transition is a conflict, except a cancellation without a clock,
      which is a bad request. */
  lemma RefusalKinds(status: BookingStatus, range: TimeRange, t: Transition)
    requires Next(status, range, t).Err?
    ensures Next(status, range, t).error.BadRequest? <==> t.Cancel? && t.now.None?
    ensures !Next(status, range, t).error.BadRequest? ==> Next(status, range, t).error.Conflict?
  {
    match t {
      case RequireCheckIn =>
      case CheckIn =>
      case MarkNoShow =>
      case Complete =>
      case Cancel(now) =>
    }
  }

  /** No transition makes a non-blocking booking blocking again. */
  lemma TransitionsNeverReblock(status: BookingStatus, range: TimeRange, t: Transition)
    requires !IsBlocking(status)
    ensures !IsBlocking(StatusAfter(status, range, t))
  {
  }

  // ---------------------------------------------------------------------------------
  // The entity

  /** One row of the `bookings` table. The owner column is what the reservation
      service stores and reads back as `bookedByUserId`. */
  datatype BookingRow = BookingRow(roomId: int, ownerUserId: string, timeRange: TimeRange, status: BookingStatus)

  class Booking {
    var id: Option<nat>
    const roomId: int
    const ownerUserId: string
    const timeRange: TimeRange
    var status: BookingStatus

    function Row(): BookingRow
      reads this
    {
      BookingRow(roomId, ownerUserId, timeRange, status)
    }

    /** An entity with the given identity and column values, as the persistence layer
        materialises it or as the constructor builds it once its checks passed. */
    constructor Of(id: Option<nat>, row: BookingRow)
      ensures this.id == id && Row() == row
    {
      this.id := id;
      roomId := row.roomId;
      ownerUserId := row.ownerUserId;
      timeRange := row.timeRange;
      status := row.status;
    }

    method RequireCheckIn() returns (o: Outcome)
      modifies this`status
      ensures o == OutcomeOf(Next(old(status), timeRange, Transition.RequireCheckIn))
      ensures status == StatusAfter(old(status), timeRange, Transition.RequireCheckIn)
    {
      if status != Confirmed {
        return Fail(Conflict("Check-in can only be required from CONFIRMED"));
      }
      status := CheckInRequired;
      o := Pass;
    }

    method CheckIn() returns (o: Outcome)
      modifies this`status
      ensures o == OutcomeOf(Next(old(status), timeRange, Transition.CheckIn))
      ensures status == StatusAfter(old(status), timeRange, Transition.CheckIn)
    {
      if status != CheckInRequired {
        return Fail(Conflict("Cannot check in unless status is CHECK_IN_REQUIRED"));
      }
      status := CheckedIn;
      o := Pass;
    }

    method MarkNoShow() returns (o: Outcome)
      modifies this`status
      ensures o == OutcomeOf(Next(old(status), timeRange, Transition.MarkNoShow))
      ensures status == StatusAfter(old(status), timeRange, Transition.MarkNoShow)
    {
      if status != CheckInRequired {
        return Fail(Conflict("No-show can only happen from CHECK_IN_REQUIRED"));
      }
      status := NoShow;
      o := Pass;
    }

    method Complete() returns (o: Outcome)
      modifies this`status
      ensures o == OutcomeOf(Next(old(status), timeRange, Transition.Complete))
      ensures status == StatusAfter(old(status), timeRange, Transition.Complete)
    {
      if status != CheckedIn {
        return Fail(Conflict("Complete can only happen from CHECKED_IN"));
      }
      status := Completed;
      o := Pass;
    }

    method Cancel(now: Option<DateTime>) returns (o: Outcome)
      modifies this`status
      ensures o == OutcomeOf(Next(old(status), timeRange, Transition.Cancel(now)))
      ensures status == StatusAfter(old(status), timeRange, Transition.Cancel(now))
    {
      if now.None? {
        return Fail(BadRequest("now is required"));
      }
      if status == Cancelled || status == Completed || status == NoShow {
        return Fail(Conflict("Cannot cancel booking in status: " + StatusName(status)));
      }
      if IsAfter(now.value, timeRange.endTime) {
        return Fail(Conflict("Cannot cancel after end time"));
      }
      status := Cancelled;
      o := Pass;
    }
  }

  /** `new Booking(roomId, ownerUserId, timeRange)`: a missing room id or range is
      refused; a new booking has no id yet and is CONFIRMED. */
  method NewBooking(roomId: Option<int>, ownerUserId: string, timeRange: Option<TimeRange>) returns (r: Result<Booking>)
    ensures r.Ok? <==> roomId.Some? && timeRange.Some?
    ensures r.Ok? ==> (fresh(r.value) && r.value.id.None?
      && r.value.Row() == BookingRow(roomId.value, ownerUserId, timeRange.value, Confirmed))
    ensures roomId.None? ==> r == Err(BadRequest("roomId is required"))
    ensures roomId.Some? && timeRange.None? ==> r == Err(BadRequest("timeRange is required"))
  {
    if roomId.None? {
      return Err(BadRequest("roomId is required"));
    }
    if timeRange.None? {
      return Err(BadRequest("timeRange is required"));
    }
    var booking := new Booking.Of(None, BookingRow(roomId.value, ownerUserId, timeRange.value, Confirmed));
    r := Ok(booking);
  }
}
