# University room booking — a Dafny model of the booking core

This project models the core of a university room-booking backend, a Spring
application with two generations of code side by side.

- **Reservation context.** A booking names a catalog room by id and takes a half-open
  time range of 30 to 120 minutes on 30-minute boundaries. Its lifecycle runs from
  CONFIRMED through CHECK_IN_REQUIRED and CHECKED_IN to COMPLETED, or ends as
  CANCELLED or NO_SHOW. The booking service creates, cancels and checks in bookings,
  lists them and reports availability. A scheduled sweep moves bookings along the
  lifecycle. Cancel and check-in are guarded by an owner-or-staff check.
- **Catalog.** This is the registry of rooms: a profile with a
  BUILDING-LEVEL-ROOMCODE location that is unique across rooms, a type, and an
  ENABLED/DISABLED status. The catalog service publishes an event for every change.
  The reservation context keeps its own copy of the rooms, updated by the handlers of
  those events.
- **Security.** The converter turns Keycloak token claims into `ROLE_` authorities.
  The current-user provider turns an authentication into a user account. The
  authorization service answers `hasRole`, `requireStaff` and `requireOwnerOrStaff`.
- **Legacy variant.** This is the earlier room registry (rooms are ACTIVE while in use)
  and its booking service. A booking there lasts one hour, keeps a 30-minute buffer,
  marks its room active on check-in and frees it on cancellation or no-show. The
  service also lists daily hourly availability.

Modules, one per file:

| file | module | what it holds |
|---|---|---|
| `common.dfy` | `Outcomes`, `Text`, `Clock` | error kinds, `Result`/`Outcome`, Java's string operations, `LocalDateTime` and `Duration` |
| `location_pattern.dfy` | `LocationPattern` | the location regular expression and a matcher proved equal to it |
| `booking_domain.dfy` | `BookingDomain` | the booking entity, its time range and lifecycle |
| `booking_repository.dfy` | `BookingStore` | the booking table and its queries |
| `booking_management.dfy` | `BookingService` | the reservation booking service and the lifecycle sweeps |
| `reservation_rooms.dfy` | `ReservationRooms` | the reservation copy of the rooms and its event handlers |
| `catalog_events.dfy` | `CatalogEvents` | the three catalog events |
| `catalog.dfy` | `Catalog` | the catalog room, its repository and the catalog service |
| `catalog_projection.dfy` | `CatalogProjection` | how the reservation copy follows the catalog |
| `security.dfy` | `Security` | the token converter, the current-user provider and the authorization service |
| `legacy_rooms.dfy` | `LegacyRooms` | the legacy room registry and its service |
| `legacy_booking.dfy` | `LegacyBooking` | the legacy booking service |

How the model is built:

- **Exceptions become errors.** A thrown exception is an `Err`/`Fail` value whose
  kind is the HTTP status the global exception handler gives it:
  - `IllegalArgumentException` is `BadRequest`.
  - `IllegalStateException` and a unique-column violation are `Conflict`.
  - `AccessDeniedException` is `Forbidden`.
  - A plain `RuntimeException` is `Internal`.
  - Messages are the source's own.
- **Tables and entities.** A repository is a class holding its table as a sequence of
  rows, and a row's position is its generated id. An entity is a class loaded fresh
  from its row and written back by `save`, so the entity's methods change only that
  entity.
- **Decision functions.** Each service operation is a method proved to do what a pure
  decision function says. That function keeps the source's order of checks. The
  lemmas state what the source promises about those functions:
  - no two blocking bookings of a room overlap;
  - availability agrees with creation;
  - locations stay unique;
  - the reservation copy tracks the catalog;
  - role authorities are upper case and prefixed once.
- **Inputs.** The clock (`now`), the security context and the scope authorities
  Spring derives from a token are parameters.

Three properties of the legacy code are proved as written:

- The "exactly one hour" rule truncates to whole hours, so 60 to 119 minutes pass it
  (`LegacyBooking.NinetyMinutesPassDurationRule`).
- The "ends in the past" check can never fire once the duration and start checks have
  passed (`LegacyBooking.EndInPastNeverReported`).
- An already-finished day shows its free slots as available
  (`LegacyBooking.PastDaysShowFreeSlots`).

## Model

| member | source | states |
|---|---|---|
| Text.Trim | src/main/java/com/mykulle/booking/system/useraccount/security/KeycloakJwtAuthenticationConverter.java:80 | the result is a slice of the input that neither starts nor ends with a character at or below U+0020, and nothing longer is one |
| Text.TrimIdempotent | src/main/java/com/mykulle/booking/system/useraccount/security/KeycloakJwtAuthenticationConverter.java:80 | trimming twice gives what trimming once gives |
| Text.ToUpper | src/main/java/com/mykulle/booking/system/useraccount/security/KeycloakJwtAuthenticationConverter.java:82 | upper-casing keeps the length and maps each character by `Character.toUpperCase` on ASCII |
| Text.ToUpperIdempotent | src/main/java/com/mykulle/booking/system/useraccount/security/KeycloakJwtAuthenticationConverter.java:82 | upper-casing an upper-cased string changes nothing |
| Text.EqualsIgnoreCaseIsUpperEquality | src/main/java/com/mykulle/booking/system/useraccount/security/SecurityAuthorizationService.java:46 | `equalsIgnoreCase` holds exactly when the upper-cased strings are equal |
| Text.DistinctHasNoDuplicates | src/main/java/com/mykulle/booking/system/useraccount/security/SecurityContextCurrentUserProvider.java:60 | `distinct()` leaves every element once |
| Text.DistinctSameElements | src/main/java/com/mykulle/booking/system/useraccount/security/SecurityContextCurrentUserProvider.java:60 | `distinct()` keeps exactly the elements of its input |
| Text.DistinctKeepsFirstOccurrenceOrder | src/main/java/com/mykulle/booking/system/useraccount/security/SecurityContextCurrentUserProvider.java:60 | `distinct()` keeps the elements in the order of their first occurrence |
| Clock.PlusMinutes | src/main/java/com/mykulle/booking/system/booking/BookingManagement.java:90 | `plusMinutes(m)` moves the instant by exactly m minutes |
| Clock.AtTime | src/main/java/com/mykulle/booking/system/booking/BookingManagement.java:134 | `atTime(h, m)` lies on the given day with zero seconds and the given minute |
| Clock.DurationMinutesBounds | src/main/java/com/mykulle/booking/system/reservation/booking/domain/Booking.java:112 | `toMinutes` of a non-negative duration is its number of whole minutes |
| Clock.DurationHoursIsOne | src/main/java/com/mykulle/booking/system/booking/BookingManagement.java:186-192 | `toHours() == 1` holds exactly when the duration is at least one hour and under two |
| LocationPattern.MatcherIsPattern | src/main/java/com/mykulle/booking/system/catalog/domain/CatalogRoom.java:65 | the matcher accepts exactly the strings of `^[A-Z]{2,10}-\d{2}-\d{2,4}$` |
| LocationPattern.MatchImpliesFirstIsLetter | src/main/java/com/mykulle/booking/system/catalog/domain/CatalogRoom.java:65 | a matching location has at least eight characters and starts with an upper-case letter |
| LocationPattern.ExampleLocationAccepted | src/main/java/com/mykulle/booking/system/catalog/domain/CatalogRoom.java:74-76 | "LIB-03-12", the example of the error message, matches the pattern |
| LocationPattern.ExampleLocationsRejected | src/main/java/com/mykulle/booking/system/catalog/domain/CatalogRoom.java:74-76 | "LIB-3-12" (one floor digit) and "lib-03-12" (lower case) do not match |
| BookingDomain.BlockingStatuses | src/main/java/com/mykulle/booking/system/reservation/booking/domain/Booking.java:47-49 | a status blocks its room exactly when it is not CANCELLED, COMPLETED or NO_SHOW |
| BookingDomain.AlignedToTimeslot | src/main/java/com/mykulle/booking/system/reservation/booking/domain/Booking.java:124-133 | an instant passes exactly when it is on the hour or the half hour with no seconds or nanoseconds; otherwise a bad request |
| BookingDomain.NewTimeRange | src/main/java/com/mykulle/booking/system/reservation/booking/domain/Booking.java:104-122 | a range is accepted exactly when both ends are present, the end is after the start, it lasts 30 to 120 minutes and both ends are slot boundaries; every refusal is a bad request |
| BookingDomain.ValidRangeChecks | src/main/java/com/mykulle/booking/system/reservation/booking/domain/Booking.java:120-121 | once the duration is within bounds, the alignment checks pass exactly for whole-slot ranges |
| BookingDomain.OverlapsIffCommonInstant | src/main/java/com/mykulle/booking/system/reservation/booking/domain/Booking.java:135-137 | for non-empty ranges, `overlaps` holds exactly when some instant lies in both half-open intervals |
| BookingDomain.OverlapsProperties | src/main/java/com/mykulle/booking/system/reservation/booking/domain/Booking.java:135-137 | `overlaps` is symmetric, ranges that only touch do not overlap, and a non-empty range overlaps itself |
| BookingDomain.AcceptedRangeExample | src/main/java/com/mykulle/booking/system/reservation/booking/domain/Booking.java:104-122 | a 90-minute range from 10:00 is accepted unchanged |
| BookingDomain.DurationBoundsExamples | src/main/java/com/mykulle/booking/system/reservation/booking/domain/Booking.java:105-118 | 15 and 150 minutes, an empty range and a missing start are refused with their own messages |
| BookingDomain.MisalignedStartExample | src/main/java/com/mykulle/booking/system/reservation/booking/domain/Booking.java:129-131 | a quarter-past start is refused by the 30-minute slot check |
| BookingDomain.StraySecondExample | src/main/java/com/mykulle/booking/system/reservation/booking/domain/Booking.java:125-127 | a start one second past a boundary is refused by the zero-seconds check |
| BookingDomain.TransitionsAreLifecycleEdges | src/main/java/com/mykulle/booking/system/reservation/booking/domain/Booking.java:51-93 | some transition leads from one status to another exactly when that is an edge of the lifecycle graph |
| BookingDomain.TerminalStatusesAreFinal | src/main/java/com/mykulle/booking/system/reservation/booking/domain/Booking.java:79-93 | a CANCELLED, COMPLETED or NO_SHOW booking refuses every transition and keeps its status |
| BookingDomain.RefusalKinds | src/main/java/com/mykulle/booking/system/reservation/booking/domain/Booking.java:51-93 | a refused transition is a conflict, except a cancellation without a clock, which is a bad request |
| BookingDomain.TransitionsNeverReblock | src/main/java/com/mykulle/booking/system/reservation/booking/domain/Booking.java:51-93 | no transition makes a non-blocking booking blocking |
| BookingDomain.Booking.RequireCheckIn | src/main/java/com/mykulle/booking/system/reservation/booking/domain/Booking.java:51-56 | only a CONFIRMED booking moves to CHECK_IN_REQUIRED; otherwise a conflict and no change |
| BookingDomain.Booking.CheckIn | src/main/java/com/mykulle/booking/system/reservation/booking/domain/Booking.java:58-63 | only a CHECK_IN_REQUIRED booking moves to CHECKED_IN; otherwise a conflict and no change |
| BookingDomain.Booking.MarkNoShow | src/main/java/com/mykulle/booking/system/reservation/booking/domain/Booking.java:65-70 | only a CHECK_IN_REQUIRED booking moves to NO_SHOW; otherwise a conflict and no change |
| BookingDomain.Booking.Complete | src/main/java/com/mykulle/booking/system/reservation/booking/domain/Booking.java:72-77 | only a CHECKED_IN booking moves to COMPLETED; otherwise a conflict and no change |
| BookingDomain.Booking.Cancel | src/main/java/com/mykulle/booking/system/reservation/booking/domain/Booking.java:79-93 | a missing clock is a bad request; a finished booking or one whose end has passed is a conflict; otherwise CANCELLED |
| BookingDomain.NewBooking | src/main/java/com/mykulle/booking/system/reservation/booking/domain/Booking.java:39-45 | a missing room id, then a missing range, is a bad request; a new booking has no id and is CONFIRMED |
| BookingStore.ExistsOverlappingUpTo | src/main/java/com/mykulle/booking/system/reservation/booking/domain/BookingRepository.java:14-27 | the query is true exactly when some row of the room, in one of the statuses, starts before the end and ends after the start |
| BookingStore.TouchingRangesNeverOverlap | src/main/java/com/mykulle/booking/system/reservation/booking/domain/BookingRepository.java:19-20 | a booking that ends at the requested start or starts at the requested end never matches |
| BookingStore.BlockingQueryIsOverlaps | src/main/java/com/mykulle/booking/system/reservation/booking/domain/BookingRepository.java:14-27 | with the blocking statuses the query's clause is: same room, blocking, and the ranges overlap |
| BookingStore.FoundIdsUpTo | src/main/java/com/mykulle/booking/system/reservation/booking/domain/BookingRepository.java:29-33 | a derived finder returns exactly the rows it selects, each once, in id order |
| BookingStore.FindAllIsEveryId | src/main/java/com/mykulle/booking/system/reservation/booking/domain/BookingRepository.java:12 | `findAll` returns every id once, in order |
| BookingStore.BookingRepository.FindById | src/main/java/com/mykulle/booking/system/reservation/booking/domain/BookingRepository.java:12 | an entity is found exactly when the id is stored, loaded with that row |
| BookingStore.BookingRepository.Find | src/main/java/com/mykulle/booking/system/reservation/booking/domain/BookingRepository.java:29-33 | a finder yields one fresh, distinct entity per selected row, in table order |
| BookingStore.BookingRepository.Save | src/main/java/com/mykulle/booking/system/reservation/booking/domain/BookingRepository.java:12 | a stored entity overwrites its row; a new one is appended and receives the next id |
| BookingStore.BookingRepository.SaveAll | src/main/java/com/mykulle/booking/system/reservation/booking/domain/BookingRepository.java:12 | every saved entity's row is overwritten and every other row is kept |
| BookingService.NormalizeOwnerUserId | src/main/java/com/mykulle/booking/system/reservation/booking/application/BookingManagement.java:197-199 | the owner is the subject, or "anonymous" when it is missing or blank |
| BookingService.NoDoubleBookingWhenBlockingShrinks | src/main/java/com/mykulle/booking/system/reservation/booking/application/BookingManagement.java:152-159 | a change that keeps rooms and ranges and never makes a booking blocking keeps the no-double-booking invariant |
| BookingService.CreateDecision | src/main/java/com/mykulle/booking/system/reservation/booking/application/BookingManagement.java:36-60 | a created booking is CONFIRMED and owned by the caller; the checks run in the source's order (the two directions of when creation passes are `CreatedBookingIsAcceptable` and `CreateConverse`) |
| BookingService.CreatedBookingIsAcceptable | src/main/java/com/mykulle/booking/system/reservation/booking/application/BookingManagement.java:36-60 | a created booking is CONFIRMED for the requested room and range, owned by the caller, and overlaps no blocking booking of that room |
| BookingService.CreateConverse | src/main/java/com/mykulle/booking/system/reservation/booking/application/BookingManagement.java:36-60 | a request with a valid, unstarted range on a stored, not disabled room that no blocking booking overlaps is created, as a CONFIRMED booking of the caller for that room and range |
| BookingService.CreatePreservesNoDoubleBooking | src/main/java/com/mykulle/booking/system/reservation/booking/application/BookingManagement.java:53-58 | creating a booking keeps the invariant that no two blocking bookings of a room overlap |
| BookingService.FinishedOrTouchingBookingsNeverBlock | src/main/java/com/mykulle/booking/system/reservation/booking/application/BookingManagement.java:53-55 | adding a finished booking, or one that only touches the request, does not change whether creation is refused |
| BookingService.CreateBooking | src/main/java/com/mykulle/booking/system/reservation/booking/application/BookingManagement.java:36-60 | on success the decided row is stored under the next id and returned; on refusal nothing changes |
| BookingService.TransitionDecision | src/main/java/com/mykulle/booking/system/reservation/booking/application/BookingManagement.java:65-88 | cancel and check-in: missing id, unknown booking, failed owner-or-staff guard, then the entity's refusal, in that order |
| BookingService.OnlyOwnerOrStaffTransition | src/main/java/com/mykulle/booking/system/reservation/booking/application/BookingManagement.java:71-85 | a caller who is neither the owner nor staff is refused before the transition is tried |
| BookingService.TransitionFollowsLifecycle | src/main/java/com/mykulle/booking/system/reservation/booking/application/BookingManagement.java:65-88 | an accepted cancel or check-in follows a lifecycle edge and rewrites only that booking's status |
| BookingService.TransitionPreservesNoDoubleBooking | src/main/java/com/mykulle/booking/system/reservation/booking/application/BookingManagement.java:65-88 | cancelling or checking in keeps the no-double-booking invariant |
| BookingService.CancelBooking | src/main/java/com/mykulle/booking/system/reservation/booking/application/BookingManagement.java:65-74 | the booking's row is rewritten exactly as the decision says, and only on success |
| BookingService.CheckIn | src/main/java/com/mykulle/booking/system/reservation/booking/application/BookingManagement.java:79-88 | the booking's row is rewritten exactly as the decision says, and only on success |
| BookingService.LocateBookingById | src/main/java/com/mykulle/booking/system/reservation/booking/application/BookingManagement.java:90-96 | a missing id is a bad request; otherwise the view of the stored booking (its room, range and status), or none exactly when no booking has that id |
| BookingService.ViewsOf | src/main/java/com/mykulle/booking/system/reservation/booking/application/BookingManagement.java:100-103 | one view per id, of that id's row |
| BookingService.FetchBookingsByRoom | src/main/java/com/mykulle/booking/system/reservation/booking/application/BookingManagement.java:106-114 | a missing room id is a bad request; otherwise bookings of that room only, each once in increasing id order (that every booking of the room is listed is `FetchBookingsByRoomIsExact`) |
| BookingService.FetchBookingsByRoomIsExact | src/main/java/com/mykulle/booking/system/reservation/booking/application/BookingManagement.java:106-114 | a booking is listed for a room exactly when it is stored for that room, each once in increasing id order, with its stored contents |
| BookingService.FetchBookings | src/main/java/com/mykulle/booking/system/reservation/booking/application/BookingManagement.java:98-104 | every stored booking once, in id order |
| BookingService.FetchRoomAvailability | src/main/java/com/mykulle/booking/system/reservation/booking/application/BookingManagement.java:122-137 | an answer is given only for a known room and a valid range, it is AVAILABLE or UNAVAILABLE, and a disabled room is UNAVAILABLE |
| BookingService.AvailabilityIffOverlap | src/main/java/com/mykulle/booking/system/reservation/booking/application/BookingManagement.java:122-137 | for a room that is not disabled and a valid range, UNAVAILABLE exactly when a blocking booking of that room overlaps the range |
| BookingService.AvailableIffCreatable | src/main/java/com/mykulle/booking/system/reservation/booking/application/BookingManagement.java:122-137 | for a request that has not started, AVAILABLE is reported exactly when the same booking would be created |
| BookingService.SweepRows | src/main/java/com/mykulle/booking/system/reservation/booking/application/BookingManagement.java:161-195 | a sweep transitions exactly the rows its finder selects and keeps every other row |
| BookingService.SweptTransitionSucceeds | src/main/java/com/mykulle/booking/system/reservation/booking/application/BookingManagement.java:161-195 | every row a sweep selects accepts the sweep's transition, so no sweep throws |
| BookingService.SweepRowChangesOnlyStatus | src/main/java/com/mykulle/booking/system/reservation/booking/application/BookingManagement.java:161-195 | a sweep changes only a row's status and never makes it blocking |
| BookingService.SweepIdempotent | src/main/java/com/mykulle/booking/system/reservation/booking/application/BookingManagement.java:161-195 | running a sweep twice at one instant changes nothing more |
| BookingService.EnforceLifecycleOnBooking | src/main/java/com/mykulle/booking/system/reservation/booking/application/BookingManagement.java:144-150 | in one tick a started CONFIRMED booking becomes CHECK_IN_REQUIRED, and NO_SHOW too once the grace period is over |
| BookingService.EnforceLifecyclePreservesNoDoubleBooking | src/main/java/com/mykulle/booking/system/reservation/booking/application/BookingManagement.java:144-150 | `enforceLifecycle` keeps the no-double-booking invariant |
| BookingService.SavedRowsAreSwept | src/main/java/com/mykulle/booking/system/reservation/booking/application/BookingManagement.java:166-168 | saving the transitioned entities leaves the table the sweep function describes |
| BookingService.SweepAll | src/main/java/com/mykulle/booking/system/reservation/booking/application/BookingManagement.java:161-195 | the table ends as the sweep function says; something is saved exactly when a row was selected |
| BookingService.MarkNoShowsSweep | src/main/java/com/mykulle/booking/system/reservation/booking/application/BookingManagement.java:171-185 | the table ends as the no-show sweep function says; something is saved exactly when a booking's grace period is over |
| BookingService.PickGracePassed | src/main/java/com/mykulle/booking/system/reservation/booking/application/BookingManagement.java:177-178 | the filter keeps exactly the reviewed bookings whose grace period is over, in order |
| BookingService.PickedIdsAreSwept | src/main/java/com/mykulle/booking/system/reservation/booking/application/BookingManagement.java:171-180 | the ids the filter keeps are exactly the rows the no-show sweep selects |
| BookingService.TransitionEach | src/main/java/com/mykulle/booking/system/reservation/booking/application/BookingManagement.java:164-179 | every picked booking takes the sweep's transition (CHECK_IN_REQUIRED, NO_SHOW or COMPLETED) and keeps its id |
| BookingService.SaveSwept | src/main/java/com/mykulle/booking/system/reservation/booking/application/BookingManagement.java:166-168 | `saveAll` runs only when something was selected, and the table then ends as the sweep function says |
| BookingService.EnforceLifecycle | src/main/java/com/mykulle/booking/system/reservation/booking/application/BookingManagement.java:144-150 | the table ends as the three sweeps applied in source order describe |
| ReservationRooms.NewRoomLocation | src/main/java/com/mykulle/booking/system/reservation/rooms/domain/Room.java:68-72 | a location is accepted exactly when it is not blank |
| ReservationRooms.NewRoomProfile | src/main/java/com/mykulle/booking/system/reservation/rooms/domain/Room.java:54-64 | a profile is accepted exactly when name, location and type are not blank; a blank location is refused with its own message |
| ReservationRooms.EnabledAndDisabledExclusive | src/main/java/com/mykulle/booking/system/reservation/rooms/domain/Room.java:48-50 | no status is both enabled and disabled; the test ignores case; other strings are neither |
| ReservationRooms.Room.Update | src/main/java/com/mykulle/booking/system/reservation/rooms/domain/Room.java:39-46 | a blank status is refused with nothing changed; otherwise profile and status are replaced, and a valid profile leaves the room valid |
| ReservationRooms.NewRoom | src/main/java/com/mykulle/booking/system/reservation/rooms/domain/Room.java:28-37 | a room is created exactly when the status is not blank, and with a valid profile it is valid |
| ReservationRooms.RoomRepository.FindById | src/main/java/com/mykulle/booking/system/reservation/rooms/domain/RoomRepository.java:11 | an entity is found exactly when the id is stored, loaded with that row |
| ReservationRooms.RoomRepository.Save | src/main/java/com/mykulle/booking/system/reservation/rooms/domain/RoomRepository.java:11 | the entity's row is upserted under its id |
| ReservationRooms.RoomRepository.DeleteById | src/main/java/com/mykulle/booking/system/reservation/rooms/domain/RoomRepository.java:11 | the id is removed; an absent id changes nothing |
| ReservationRooms.OnRoomAdded | src/main/java/com/mykulle/booking/system/reservation/rooms/application/RoomManagement.java:19-34 | the table ends as the upsert effect of the event says, or unchanged when a field is blank |
| ReservationRooms.OnStatusChanged | src/main/java/com/mykulle/booking/system/reservation/rooms/application/RoomManagement.java:36-42 | a known room gets the new status; an unknown id changes nothing |
| ReservationRooms.OnRoomRemoved | src/main/java/com/mykulle/booking/system/reservation/rooms/application/RoomManagement.java:44-47 | the room's row is removed and every other row is kept |
| ReservationRooms.RoomAddedUpserts | src/main/java/com/mykulle/booking/system/reservation/rooms/application/RoomManagement.java:26-33 | after an added event the id holds the event's profile and status, and every other row is kept |
| ReservationRooms.RoomAddedRejectsBlankFields | src/main/java/com/mykulle/booking/system/reservation/rooms/application/RoomManagement.java:20-24 | an added event is refused exactly when a field is blank, as a bad request |
| ReservationRooms.RoomAddedIdempotent | src/main/java/com/mykulle/booking/system/reservation/rooms/application/RoomManagement.java:19-34 | delivering the same added event twice gives the same table as once |
| ReservationRooms.StatusChangedKeepsProfile | src/main/java/com/mykulle/booking/system/reservation/rooms/application/RoomManagement.java:36-42 | a status change keeps the profile and every other room, and is refused only for a blank status |
| ReservationRooms.HandlersPreserveValidRows | src/main/java/com/mykulle/booking/system/reservation/rooms/application/RoomManagement.java:19-42 | every handler keeps each stored row valid |
| Catalog.EnumNamesIdentifyConstants | src/main/java/com/mykulle/booking/system/catalog/domain/CatalogRoom.java:102-104 | the enum names are distinct for distinct constants and never blank |
| Catalog.BlankLocationNeverMatches | src/main/java/com/mykulle/booking/system/catalog/domain/CatalogRoom.java:69-77 | a blank value never has the location shape |
| Catalog.NewRoomLocation | src/main/java/com/mykulle/booking/system/catalog/domain/CatalogRoom.java:63-79 | a location is accepted exactly when present and of the BUILDING-LEVEL-ROOMCODE shape; missing or blank and badly shaped values get different messages |
| Catalog.NewRoomProfile | src/main/java/com/mykulle/booking/system/catalog/domain/CatalogRoom.java:50-59 | a profile is accepted exactly when the name is not blank and location and type are present; the name is checked first |
| Catalog.CatalogRoom.IsEnabled | src/main/java/com/mykulle/booking/system/catalog/domain/CatalogRoom.java:40-46 | exactly one of enabled and disabled holds |
| Catalog.CatalogRoom.Enable | src/main/java/com/mykulle/booking/system/catalog/domain/CatalogRoom.java:81-87 | refused as a conflict exactly when already enabled; either way the room ends enabled |
| Catalog.CatalogRoom.Disable | src/main/java/com/mykulle/booking/system/catalog/domain/CatalogRoom.java:89-95 | refused as a conflict exactly when already disabled; either way the room ends disabled |
| Catalog.CatalogRoom.UpdateProfile | src/main/java/com/mykulle/booking/system/catalog/domain/CatalogRoom.java:97-100 | a missing profile is a bad request and changes nothing; otherwise the profile is replaced |
| Catalog.NewCatalogRoom | src/main/java/com/mykulle/booking/system/catalog/domain/CatalogRoom.java:34-38 | a missing profile is a bad request; a new room has no id and is enabled |
| Catalog.LocationTakenUpTo | src/main/java/com/mykulle/booking/system/catalog/domain/CatalogRoom.java:63 | true exactly when another stored room has the location |
| Catalog.StoredId | src/main/java/com/mykulle/booking/system/catalog/domain/CatalogRepository.java:8 | a save writes to the entity's own row when it is stored, else to a new one |
| Catalog.StoreKeepsLocationsUnique | src/main/java/com/mykulle/booking/system/catalog/domain/CatalogRoom.java:63 | a save that the unique column lets through keeps locations unique |
| Catalog.CatalogRepository.FindById | src/main/java/com/mykulle/booking/system/catalog/domain/CatalogRepository.java:8 | an entity is found exactly when the id is stored, loaded with that row |
| Catalog.CatalogRepository.Save | src/main/java/com/mykulle/booking/system/catalog/domain/CatalogRepository.java:8 | a save whose location another room holds is a conflict and changes nothing; otherwise the row is written and a new entity receives its id |
| Catalog.CatalogRepository.Delete | src/main/java/com/mykulle/booking/system/catalog/domain/CatalogRepository.java:8 | the entity's row is emptied |
| Catalog.EventLog.Publish | src/main/java/com/mykulle/booking/system/catalog/RoomCatalogEvent.java:8-11 | the event is appended to what was published |
| Catalog.FoundIdsUpTo | src/main/java/com/mykulle/booking/system/catalog/domain/CatalogRepository.java:10-12 | a finder returns exactly the stored rooms it selects, each once, in id order |
| Catalog.QueryViews | src/main/java/com/mykulle/booking/system/catalog/domain/CatalogRepository.java:10-14 | the views of exactly the stored rooms a finder selects, in increasing id order |
| Catalog.FetchEnabledRooms | src/main/java/com/mykulle/booking/system/catalog/application/CatalogManagement.java:80-86 | exactly the enabled rooms, each once in increasing id order, each listed as stored |
| Catalog.LocateRoomsByType | src/main/java/com/mykulle/booking/system/catalog/application/CatalogManagement.java:68-75 | exactly the rooms of that type, each once in increasing id order, each listed as stored |
| Catalog.FetchRooms | src/main/java/com/mykulle/booking/system/catalog/application/CatalogManagement.java:91-97 | every stored room once, in id order |
| Catalog.LocateRoom | src/main/java/com/mykulle/booking/system/catalog/application/CatalogManagement.java:59-63 | a room is returned exactly when one is stored with that location, and it is such a room |
| Catalog.LocatedRoomIsUnique | src/main/java/com/mykulle/booking/system/catalog/domain/CatalogRepository.java:14 | with unique locations the single-result finder sees at most one room, the one with that location |
| Catalog.AddDecision | src/main/java/com/mykulle/booking/system/catalog/application/CatalogManagement.java:29-31 | adding passes exactly when the location has the shape, the name is not blank, a type is given and no stored room has the location; checks in source order |
| Catalog.AddRoom | src/main/java/com/mykulle/booking/system/catalog/application/CatalogManagement.java:29-41 | on success the enabled room is appended and one RoomAddedToCatalog is published; on refusal nothing changes and nothing is published |
| Catalog.RemoveDecision | src/main/java/com/mykulle/booking/system/catalog/application/CatalogManagement.java:46-51 | removal passes exactly for a stored, disabled room; unknown id is a bad request and an enabled room a conflict |
| Catalog.RemoveRoom | src/main/java/com/mykulle/booking/system/catalog/application/CatalogManagement.java:46-54 | a removed room's row is emptied and one RoomRemovedFromCatalog is published; otherwise nothing changes |
| Catalog.ToggleDecision | src/main/java/com/mykulle/booking/system/catalog/application/CatalogManagement.java:102-127 | enable/disable passes exactly for a stored room not already in the target status whose location no other room holds; the refusals are not found, the no-op conflict, then the location conflict |
| Catalog.SetStatus | src/main/java/com/mykulle/booking/system/catalog/application/CatalogManagement.java:102-127 | on success the row takes the target status and one RoomOperationalStatusChanged is published; otherwise nothing changes |
| Catalog.EnableRoom | src/main/java/com/mykulle/booking/system/catalog/application/CatalogManagement.java:102-112 | as `SetStatus` with the target ENABLED |
| Catalog.DisableRoom | src/main/java/com/mykulle/booking/system/catalog/application/CatalogManagement.java:117-127 | as `SetStatus` with the target DISABLED |
| Catalog.DuplicateLocationIsRefused | src/main/java/com/mykulle/booking/system/catalog/application/CatalogManagement.java:29-31 | adding a room at a stored location is refused with "Room location already exists" |
| Catalog.ToggleRefusedOnlyForUnknownOrNoOp | src/main/java/com/mykulle/booking/system/catalog/application/CatalogManagement.java:102-127 | with unique locations, a toggle is refused only for an unknown id or a room already in the target status |
| Catalog.DisableThenEnableRestores | src/main/java/com/mykulle/booking/system/catalog/application/CatalogManagement.java:102-127 | disabling an enabled room and enabling it again gives back the same table |
| Catalog.OperationsKeepCatalogInvariant | src/main/java/com/mykulle/booking/system/catalog/application/CatalogManagement.java:29-127 | every successful add, remove and toggle keeps locations unique and profiles valid |
| Catalog.AddKeepsCatalogInvariant | src/main/java/com/mykulle/booking/system/catalog/application/CatalogManagement.java:29-41 | a successful add keeps locations unique and profiles valid |
| Catalog.ToggleKeepsCatalogInvariant | src/main/java/com/mykulle/booking/system/catalog/application/CatalogManagement.java:102-127 | a successful enable or disable keeps locations unique and profiles valid |
| CatalogProjection.Projection | src/main/java/com/mykulle/booking/system/reservation/rooms/application/RoomManagement.java:19-47 | the mirrored table has exactly the live catalog ids, each with the projected row |
| CatalogProjection.ProjectedRowIsValid | src/main/java/com/mykulle/booking/system/reservation/rooms/domain/Room.java:54-72 | a catalog room with a valid profile passes every check of the reservation side |
| CatalogProjection.ProjectedStatusAgrees | src/main/java/com/mykulle/booking/system/reservation/rooms/domain/Room.java:48-50 | the reservation side sees a room as disabled (enabled) exactly when the catalog has it disabled (enabled) |
| CatalogProjection.AddRoomKeepsProjection | src/main/java/com/mykulle/booking/system/catalog/application/CatalogManagement.java:29-41 | `addRoom` and then the handler of its event keep the reservation copy equal to the projection |
| CatalogProjection.ProjectionOfAppend | src/main/java/com/mykulle/booking/system/catalog/application/CatalogManagement.java:29-41 | a room added to the catalog appears in the projection under its id, and nothing else changes |
| CatalogProjection.SetStatusKeepsProjection | src/main/java/com/mykulle/booking/system/catalog/application/CatalogManagement.java:102-127 | enable/disable and then the handler of its event keep the copy equal to the projection |
| CatalogProjection.RemoveRoomKeepsProjection | src/main/java/com/mykulle/booking/system/catalog/application/CatalogManagement.java:46-54 | `removeRoom` and then the handler of its event keep the copy equal to the projection |
| LegacyRooms.Room.IsActive | src/main/java/com/mykulle/booking/system/rooms/Room.java:28-34 | exactly one of active and inactive holds |
| LegacyRooms.Room.SetActive | src/main/java/com/mykulle/booking/system/rooms/Room.java:49-55 | refused as a conflict exactly when already active; either way the room ends active |
| LegacyRooms.Room.SetInactive | src/main/java/com/mykulle/booking/system/rooms/Room.java:57-63 | refused as a conflict exactly when already inactive; either way the room ends inactive |
| LegacyRooms.NewRoom | src/main/java/com/mykulle/booking/system/rooms/Room.java:36-47 | a missing or blank name, then a missing location, is a bad request; a new room is ACTIVE |
| LegacyRooms.ExistsAtLocationUpTo | src/main/java/com/mykulle/booking/system/rooms/RoomRepository.java:16-17 | true exactly when a stored room has that location value |
| LegacyRooms.IdsWithStatusUpTo | src/main/java/com/mykulle/booking/system/rooms/RoomRepository.java:12 | exactly the stored rooms with the status (or all), each once, in id order |
| LegacyRooms.ViewsOf | src/main/java/com/mykulle/booking/system/rooms/RoomManagement.java:55-71 | the views of exactly the stored rooms with the status (or all), in increasing id order |
| LegacyRooms.ListAllRooms | src/main/java/com/mykulle/booking/system/rooms/RoomManagement.java:54-62 | every stored room, listed as stored, each once in increasing id order |
| LegacyRooms.ListRoomByStatus | src/main/java/com/mykulle/booking/system/rooms/RoomManagement.java:65-71 | exactly the rooms with that status, each once in increasing id order, each listed as stored |
| LegacyRooms.StatusListsPartitionRooms | src/main/java/com/mykulle/booking/system/rooms/RoomManagement.java:65-71 | every stored room is in exactly one of the two status lists |
| LegacyRooms.RoomRepository.FindById | src/main/java/com/mykulle/booking/system/rooms/RoomRepository.java:10 | an entity is found exactly when the id is stored, loaded with that row |
| LegacyRooms.RoomRepository.Insert | src/main/java/com/mykulle/booking/system/rooms/RoomRepository.java:10 | a new room is appended and receives the next id |
| LegacyRooms.RoomRepository.Update | src/main/java/com/mykulle/booking/system/rooms/RoomRepository.java:10 | a loaded room's row is overwritten |
| LegacyRooms.RoomRepository.Delete | src/main/java/com/mykulle/booking/system/rooms/RoomRepository.java:10 | a loaded room's row is emptied |
| LegacyRooms.AddDecision | src/main/java/com/mykulle/booking/system/rooms/RoomManagement.java:17-27 | adding passes exactly when no room has the joined location, it has the shape and the name is not blank; an existing location is refused first |
| LegacyRooms.AddRoom | src/main/java/com/mykulle/booking/system/rooms/RoomManagement.java:17-27 | on success the ACTIVE room is appended; on refusal nothing changes |
| LegacyRooms.RemoveDecision | src/main/java/com/mykulle/booking/system/rooms/RoomManagement.java:30-35 | removal passes exactly for a stored inactive room; unknown id is a bad request, an active room a conflict |
| LegacyRooms.RemoveRoom | src/main/java/com/mykulle/booking/system/rooms/RoomManagement.java:30-35 | on success the row is emptied; otherwise nothing changes |
| LegacyRooms.ToggleDecision | src/main/java/com/mykulle/booking/system/rooms/RoomManagement.java:38-51 | activate/deactivate passes exactly for a stored room not already in the target status |
| LegacyRooms.SetStatus | src/main/java/com/mykulle/booking/system/rooms/RoomManagement.java:38-51 | on success the row takes the target status; otherwise nothing changes |
| LegacyRooms.ActivateRoom | src/main/java/com/mykulle/booking/system/rooms/RoomManagement.java:38-43 | as `SetStatus` with the target ACTIVE |
| LegacyRooms.DeactivateRoom | src/main/java/com/mykulle/booking/system/rooms/RoomManagement.java:46-51 | as `SetStatus` with the target INACTIVE |
| LegacyRooms.ExistingLocationIsRefused | src/main/java/com/mykulle/booking/system/rooms/RoomManagement.java:20-22 | adding at an existing location is refused with "Room already exists at location: " and the location |
| LegacyRooms.OperationsKeepLocationsUnique | src/main/java/com/mykulle/booking/system/rooms/Room.java:66 | every successful add, remove and toggle keeps locations unique |
| LegacyRooms.DeactivateThenActivateRestores | src/main/java/com/mykulle/booking/system/rooms/RoomManagement.java:38-51 | deactivating an active room and activating it again gives back the same table |
| LegacyBooking.Overwrite | src/main/java/com/mykulle/booking/system/booking/BookingManagement.java:99 | rows outside the ids are kept and, with distinct ids, each id holds its updated row |
| LegacyBooking.OverwriteWithSame | src/main/java/com/mykulle/booking/system/booking/BookingManagement.java:124-126 | writing back unchanged rows leaves the table as it was |
| LegacyBooking.BookingRepository.SaveAll | src/main/java/com/mykulle/booking/system/booking/BookingManagement.java:99 | the table ends with each id overwritten by its row |
| LegacyBooking.RoomSide.IsRoomActive | src/main/java/com/mykulle/booking/system/booking/BookingManagement.java:67 | an unknown location throws; otherwise whether the room is active |
| LegacyBooking.RoomSide.ActivateRoomByLocation | src/main/java/com/mykulle/booking/system/booking/BookingManagement.java:70 | an unknown location throws, an active room is a conflict; otherwise the room becomes active |
| LegacyBooking.RoomSide.DeactivateRoomByLocation | src/main/java/com/mykulle/booking/system/booking/BookingManagement.java:212 | an unknown location throws, an inactive room is a conflict; otherwise the room becomes inactive |
| LegacyBooking.DeactivateIfActive | src/main/java/com/mykulle/booking/system/booking/BookingManagement.java:209-217 | a known room ends inactive; an unknown one is left alone; nothing is thrown |
| LegacyBooking.HasConflictUpTo | src/main/java/com/mykulle/booking/system/booking/BookingRepository.java:12-23 | true exactly when a CONFIRMED or CHECKED_IN booking of the room starts before the end and ends after the start |
| LegacyBooking.CreateDecision | src/main/java/com/mykulle/booking/system/booking/BookingManagement.java:170-207 | creation passes exactly when the duration is from one hour to under two, nothing conflicts within the 30-minute buffer and the start has not passed |
| LegacyBooking.CreatedBookingKeepsBuffer | src/main/java/com/mykulle/booking/system/booking/BookingManagement.java:194-207 | a new booking keeps at least 30 minutes from every CONFIRMED or CHECKED_IN booking of its room |
| LegacyBooking.NinetyMinutesPassDurationRule | src/main/java/com/mykulle/booking/system/booking/BookingManagement.java:186-192 | a 90-minute booking passes the "exactly 1 hour" rule and a 30-minute one does not |
| LegacyBooking.EndInPastNeverReported | src/main/java/com/mykulle/booking/system/booking/BookingManagement.java:181-183 | the "ends in the past" refusal can never be produced |
| LegacyBooking.CreateBooking | src/main/java/com/mykulle/booking/system/booking/BookingManagement.java:34-43 | on success the CONFIRMED booking is appended under the next id; on refusal nothing changes |
| LegacyBooking.GetBookingById | src/main/java/com/mykulle/booking/system/booking/BookingManagement.java:45-50 | the view of the stored booking, or "Booking not found with id" |
| LegacyBooking.GetAllBookings | src/main/java/com/mykulle/booking/system/booking/BookingManagement.java:52-58 | every booking once, in id order |
| LegacyBooking.CheckInDecision | src/main/java/com/mykulle/booking/system/booking/BookingManagement.java:60-70 | a check-in passes exactly for a known booking that accepts it whose room is known and not active; an unknown id is not found, a refused transition keeps its error, an unknown room is reported and an active room is a conflict |
| LegacyBooking.CheckInBooking | src/main/java/com/mykulle/booking/system/booking/BookingManagement.java:60-74 | on success the booking is saved and its room becomes active; on refusal neither changes |
| LegacyBooking.CancelDecision | src/main/java/com/mykulle/booking/system/booking/BookingManagement.java:76-79 | a cancellation passes exactly for a known booking that accepts it; an unknown id is not found, and a refused cancel reports the entity's own error |
| LegacyBooking.CancelBooking | src/main/java/com/mykulle/booking/system/booking/BookingManagement.java:76-86 | on success the booking is saved and its known room is freed; on refusal neither changes |
| LegacyBooking.NoShowThreshold | src/main/java/com/mykulle/booking/system/booking/BookingManagement.java:90 | the threshold is the grace period before now |
| LegacyBooking.MarkAllUpTo | src/main/java/com/mykulle/booking/system/booking/BookingManagement.java:94-98 | marking succeeds exactly when every found booking accepts it, each giving its marked row |
| LegacyBooking.MarkNoShowBookings | src/main/java/com/mykulle/booking/system/booking/BookingManagement.java:89-102 | if a booking refuses, nothing changes; otherwise every found booking is overwritten with its marked row and their known rooms are freed |
| LegacyBooking.MarkedBookingsAreNoShows | src/main/java/com/mykulle/booking/system/booking/BookingManagement.java:89-102 | with the usual no-show transition, every found booking becomes NO_SHOW and every other is kept |
| LegacyBooking.ProcessEnded | src/main/java/com/mykulle/booking/system/booking/BookingManagement.java:110-122 | only a CONFIRMED booking changes, by the no-show transition; its room is freed unless that transition throws |
| LegacyBooking.EndedRows | src/main/java/com/mykulle/booking/system/booking/BookingManagement.java:110-123 | each ended booking's row after its own processing |
| LegacyBooking.FreeRoomsForEndedBookings | src/main/java/com/mykulle/booking/system/booking/BookingManagement.java:105-129 | bookings are saved exactly when one changed; the table is as the per-booking processing says, and the freed rooms are the locations read before `markAsNoShow`, for every booking whose processing did not throw |
| LegacyBooking.OnlyConfirmedEndedBookingsChange | src/main/java/com/mykulle/booking/system/booking/BookingManagement.java:113-117 | only CONFIRMED ended bookings change, and with the usual transition they become NO_SHOW |
| LegacyBooking.OccupiedUpTo | src/main/java/com/mykulle/booking/system/booking/BookingManagement.java:152-155 | true exactly when a booking of the room starts before the slot's end and ends after its start |
| LegacyBooking.Slot | src/main/java/com/mykulle/booking/system/booking/BookingManagement.java:149-161 | a slot runs from its hour to the next |
| LegacyBooking.DaySlots | src/main/java/com/mykulle/booking/system/booking/BookingManagement.java:147-163 | ten slots, from 8 to 18, each one hour |
| LegacyBooking.ListDailyAvailability | src/main/java/com/mykulle/booking/system/booking/BookingManagement.java:132-167 | one entry per listed room, with its location and name and the ten hourly slots from 8 to 18 |
| LegacyBooking.SlotAvailability | src/main/java/com/mykulle/booking/system/booking/BookingManagement.java:149-159 | a slot is available exactly when no booking of the room overlaps it and, on the current day, it has not begun |
| LegacyBooking.PastDaysShowFreeSlots | src/main/java/com/mykulle/booking/system/booking/BookingManagement.java:157 | on a day already over, a slot with no bookings is shown as available |
| Security.RoleAuthorityOf | src/main/java/com/mykulle/booking/system/useraccount/security/KeycloakJwtAuthenticationConverter.java:77-82 | an element is kept exactly when it is a string that is not blank after trimming |
| Security.RoleAuthorityIsUpperCase | src/main/java/com/mykulle/booking/system/useraccount/security/KeycloakJwtAuthenticationConverter.java:82 | a kept element becomes "ROLE_" followed by its trimmed, upper-cased text |
| Security.FilterMapMembers | src/main/java/com/mykulle/booking/system/useraccount/security/KeycloakJwtAuthenticationConverter.java:77-84 | filter-and-map keeps exactly the defined images |
| Security.ReadRoleAuthorities | src/main/java/com/mykulle/booking/system/useraccount/security/KeycloakJwtAuthenticationConverter.java:72-85 | a claim that is not a collection gives no authorities |
| Security.ReadRoleAuthoritiesMembers | src/main/java/com/mykulle/booking/system/useraccount/security/KeycloakJwtAuthenticationConverter.java:72-85 | the result has no duplicates, and an authority is in it exactly when some element produces it |
| Security.RealmRoleAuthorities | src/main/java/com/mykulle/booking/system/useraccount/security/KeycloakJwtAuthenticationConverter.java:49-56 | no realm_access gives nothing; otherwise the authorities of its roles |
| Security.ClientRoleAuthorities | src/main/java/com/mykulle/booking/system/useraccount/security/KeycloakJwtAuthenticationConverter.java:58-70 | no resource_access or a missing or blank client id gives nothing; otherwise only the client's map's roles count |
| Security.PrincipalName | src/main/java/com/mykulle/booking/system/useraccount/security/KeycloakJwtAuthenticationConverter.java:42-44 | the preferred username when present and not blank, else the subject |
| Security.AddAll | src/main/java/com/mykulle/booking/system/useraccount/security/KeycloakJwtAuthenticationConverter.java:36-40 | adding to a linked set gives the distinct elements in first-occurrence order |
| Security.Convert | src/main/java/com/mykulle/booking/system/useraccount/security/KeycloakJwtAuthenticationConverter.java:31-47 | the token is authenticated and carries the principal name and the distinct scope, realm and client authorities, in that order |
| Security.RealmRolesAreGranted | src/main/java/com/mykulle/booking/system/useraccount/security/KeycloakJwtAuthenticationConverter.java:39-85 | every usable realm role is granted as "ROLE_" + its trimmed upper-cased text |
| Security.ReadRoleAuthoritiesAreUpperCase | src/main/java/com/mykulle/booking/system/useraccount/security/KeycloakJwtAuthenticationConverter.java:82 | whatever is read from a roles claim starts with "ROLE_" and is upper case |
| Security.GrantedComeFromClaims | src/main/java/com/mykulle/booking/system/useraccount/security/KeycloakJwtAuthenticationConverter.java:31-47 | without scope authorities everything granted is a role authority |
| Security.GrantedWithoutScopes | src/main/java/com/mykulle/booking/system/useraccount/security/KeycloakJwtAuthenticationConverter.java:36-40 | without scope authorities everything granted comes from the realm or client roles |
| Security.ClaimAuthoritiesAreUpperCase | src/main/java/com/mykulle/booking/system/useraccount/security/KeycloakJwtAuthenticationConverter.java:49-70 | every realm or client authority starts with "ROLE_" and is upper case |
| Security.ClientRoleAuthoritiesAreUpperCase | src/main/java/com/mykulle/booking/system/useraccount/security/KeycloakJwtAuthenticationConverter.java:58-70 | every client authority starts with "ROLE_" and is upper case |
| Security.NormalizeRole | src/main/java/com/mykulle/booking/system/useraccount/security/SecurityContextCurrentUserProvider.java:64-71 | one leading "ROLE_" is stripped; null becomes the empty string; anything else is kept |
| Security.NormalizeAll | src/main/java/com/mykulle/booking/system/useraccount/security/SecurityContextCurrentUserProvider.java:58-59 | each authority is normalised in place |
| Security.ExtractRoles | src/main/java/com/mykulle/booking/system/useraccount/security/SecurityContextCurrentUserProvider.java:55-62 | the roles have no duplicates and are exactly the normalised authorities |
| Security.ValueOrFallback | src/main/java/com/mykulle/booking/system/useraccount/security/SecurityContextCurrentUserProvider.java:73-75 | the value unless it is null or blank, then the fallback |
| Security.CurrentUser | src/main/java/com/mykulle/booking/system/useraccount/security/SecurityContextCurrentUserProvider.java:21-53 | anonymous unless authenticated; otherwise the subject (or name), the JWT's claims and the extracted roles |
| Security.ConvertedRoleReachesCurrentUser | src/main/java/com/mykulle/booking/system/useraccount/security/SecurityContextCurrentUserProvider.java:55-62 | a granted "ROLE_" authority shows up as that role in the current user's roles |
| Security.RoleAuthority | src/main/java/com/mykulle/booking/system/useraccount/security/SecurityAuthorizationService.java:42 | the role with "ROLE_" added unless it already starts with it |
| Security.AnyAuthorityMatches | src/main/java/com/mykulle/booking/system/useraccount/security/SecurityAuthorizationService.java:43-46 | true exactly when some authority equals the role or its prefixed form, ignoring case |
| Security.HasRole | src/main/java/com/mykulle/booking/system/useraccount/security/SecurityAuthorizationService.java:26-47 | true exactly when security is on, the role is present and not blank, the caller is authenticated and some authority matches |
| Security.RequireStaff | src/main/java/com/mykulle/booking/system/useraccount/security/SecurityAuthorizationService.java:49-58 | passes exactly when security is off or the caller has STAFF; otherwise forbidden |
| Security.RequireOwnerOrStaff | src/main/java/com/mykulle/booking/system/useraccount/security/SecurityAuthorizationService.java:60-74 | passes exactly when security is off, the caller has STAFF, or the owner is present and equals the caller's subject |
| Security.DisabledSecurityAllowsEverything | src/main/java/com/mykulle/booking/system/useraccount/security/SecurityAuthorizationService.java:26-74 | with security off no role is held and neither guard refuses |
| Security.AnonymousIsRefused | src/main/java/com/mykulle/booking/system/useraccount/security/SecurityAuthorizationService.java:49-74 | with security on, an unauthenticated caller fails `requireStaff` and passes `requireOwnerOrStaff` exactly when the owner is "anonymous", the anonymous user's subject |
| Security.RoleAuthorityIdempotent | src/main/java/com/mykulle/booking/system/useraccount/security/SecurityAuthorizationService.java:42 | the prefix is added at most once |
| Security.HasRoleIgnoresCase | src/main/java/com/mykulle/booking/system/useraccount/security/SecurityAuthorizationService.java:42-46 | two spellings of a role that differ only in case are held alike |
| Security.MatchIgnoresRoleCase | src/main/java/com/mykulle/booking/system/useraccount/security/SecurityAuthorizationService.java:42-46 | one authority matches two spellings of a role alike when they differ only in case |
| Security.ConvertedStaffHasRole | src/main/java/com/mykulle/booking/system/useraccount/security/SecurityAuthorizationService.java:26-47 | a user whose realm roles include a spelling of "staff" has the STAFF role |
| Security.HasRoleWhenGranted | src/main/java/com/mykulle/booking/system/useraccount/security/SecurityAuthorizationService.java:42-46 | an authority "ROLE_STAFF" makes `hasRole("STAFF")` true |
| Security.StaffSpelling | src/main/java/com/mykulle/booking/system/useraccount/security/SecurityAuthorizationService.java:55 | a spelling of STAFF is not blank and upper-cases to STAFF |


## Left out

- **Controllers, persistence and transactions.** Controllers and DTO serialization,
  the HTTP security filter chain, pessimistic row locking, optimistic versioning and
  transaction isolation are not modelled. Each operation runs alone on the state it
  is given.
- **Rolled-back transactions.** A legacy transaction that is only marked rollback-only,
  when an exception is caught after it crossed a transactional proxy, is not
  modelled.
- **Timing and infrastructure.** Scheduling (the cron and fixed-delay triggers) and
  logging are left out. So is asynchronous event delivery: events are published to a
  log, and the handlers are proved against the events they receive.
- **Ids.** Generated ids are row positions and are never reused. Overflow of `Long`
  ids is not modelled.
- **Text.** Case mapping covers ASCII only. `Character.isWhitespace` is followed for
  the characters the model names; Unicode case folding is not modelled.
- **Non-object access claims.** `realm_access` and `resource_access` are either absent or JSON objects here. A token whose claim is present but not an object makes Spring's `getClaimAsMap` throw `IllegalArgumentException`; that path is not modelled.
- **Scope authorities.** `JwtGrantedAuthoritiesConverter`'s scope authorities are an
  input, not derived from the token.
- **Missing `requireStaff` call.** The catalog service's tests expect `requireStaff`
  before catalog changes. The service never calls it, and the model follows the code.
- **Booking owner.** The reservation service builds a booking with an owner, which
  `Booking.java` does not declare. The model gives the row an owner column.
- **Room lookup order.** `fetchRoomAvailability` looks the room up before it validates
  the range. The model keeps that order.
- **Legacy rooms:**
  - `addRoom` calls `existsByLocationBuildingAndLocationLevelAndLocationRoomCode` and a
    three-argument `RoomLocation`, neither of which exists. Both are modelled on the
    joined value `building-level-roomCode`, with `existsByRoomLocation`.
  - `deactivateRoom` calls `setInActive`, which is modelled as `setInactive`.
  - A new room is ACTIVE, as the code says; the tests assume INACTIVE.
  - The room DTO declares no `roomLocation`, but the mapper and the legacy booking
    service read one. The view carries it.
- **Legacy booking:**
  - `booking/Booking.java` is a stub, so `checkIn`, `cancel` and `markAsNoShow` are
    given functions (`LegacyBooking.Transitions`).
  - That a new booking is CONFIRMED comes from the tests.
  - The finders the service calls but the repository does not declare are inputs
    given as their results: `findNoShowBookings`, `findEndedBookings` and
    `findBookingsBetween`.
  - `rooms.listAllRooms()` is an input as well.
  - Null start or end times are not modelled.
- `LegacyBooking.RoomSide`: `isRoomActive`, `activateRoomByLocation` and
  `deactivateRoomByLocation` are not declared by the legacy room service. They are
  modelled from how they are used. The message for an unknown location is this
  model's own.
- `LegacyBooking.MarkNoShowBookings`: a refused no-show ends the whole sweep with
  nothing changed. This models the rollback; rooms freed before the failure are not
  kept.
