/** The room catalog (catalog/domain/CatalogRoom.java, catalog/domain/CatalogRepository.java,
    catalog/application/CatalogManagement.java): the registry of bookable rooms, its
    table with the unique `room_location` column, and the service that adds, removes,
    enables and disables rooms and publishes an event for each change. A room's
    generated id is the position of its row; a deleted room leaves an empty row, so
    ids are never reused. */
module Catalog {
  import opened Outcomes
  import opened Text
  import opened LocationPattern
  import opened CatalogEvents

  // ---------------------------------------------------------------------------------
  // Value objects

  datatype RoomType = StudyRoom | MeetingRoom | ConferenceRoom

  datatype OperationalStatus = Enabled | Disabled

  /** The enum constant's `name()`, as carried by the events. */
  function RoomTypeName(t: RoomType): string {
    match t
    case StudyRoom => "STUDY_ROOM"
    case MeetingRoom => "MEETING_ROOM"
    case ConferenceRoom => "CONFERENCE_ROOM"
  }

  function StatusName(s: OperationalStatus): string {
    match s
    case Enabled => "ENABLED"
    case Disabled => "DISABLED"
  }

  /** The names identify the constants, and none of them is blank, so the reservation
      side always accepts them. */
  lemma EnumNamesIdentifyConstants(t: RoomType, u: RoomType, s: OperationalStatus, z: OperationalStatus)
    ensures RoomTypeName(t) == RoomTypeName(u) <==> t == u
    ensures StatusName(s) == StatusName(z) <==> s == z
    ensures !IsBlank(RoomTypeName(t)) && !IsBlank(StatusName(s))
  {
    assert !IsWhitespace(RoomTypeName(t)[0]) && !IsWhitespace(StatusName(s)[0]);
    if RoomTypeName(t) == RoomTypeName(u) {
      assert RoomTypeName(t)[0] == RoomTypeName(u)[0];
    }
    if StatusName(s) == StatusName(z) {
      assert StatusName(s)[0] == StatusName(z)[0];
    }
  }

  const LocationRequired := "Room location is required"
  const LocationFormat := "Invalid room location format. Expected format: BUILDING-LEVEL-ROOMCODE (e.g., LIB-03-12)"

  datatype RoomLocation = RoomLocation(value: string)

  /** A blank string never has the location shape, so the blankness check in
      `RoomLocation` only decides which message a bad value gets. */
  lemma BlankLocationNeverMatches(s: string)
    ensures IsBlank(s) ==> !MatchesLocationPattern(s)
  {
    if MatchesLocationPattern(s) {
      MatchImpliesFirstIsLetter(s);
      assert !IsWhitespace(s[0]);
    }
  }

  /** `new RoomLocation(value)`: accepted exactly when the whole value has the
      BUILDING-LEVEL-ROOMCODE shape; a missing or blank value and a value of the wrong
      shape are refused with different messages. */
  function NewRoomLocation(value: Option<string>): (r: Result<RoomLocation>)
    ensures r.Ok? <==> value.Some? && MatchesLocationPattern(value.value)
    ensures r.Ok? ==> r.value.value == value.value
    ensures r.Err? && (value.None? || IsBlank(value.value)) ==> r == Err(BadRequest(LocationRequired))
    ensures r.Err? && value.Some? && !IsBlank(value.value) ==> r == Err(BadRequest(LocationFormat))
  {
    if value.None? || IsBlank(value.value) then
      if value.Some? then BlankLocationNeverMatches(value.value); Err(BadRequest(LocationRequired))
      else Err(BadRequest(LocationRequired))
    else if !MatchesLocationPattern(value.value) then Err(BadRequest(LocationFormat))
    else Ok(RoomLocation(value.value))
  }

  datatype RoomProfile = RoomProfile(name: string, roomLocation: RoomLocation, roomType: RoomType)

  /** What the record constructors accept. */
  predicate ValidProfile(p: RoomProfile) {
    !IsBlank(p.name) && MatchesLocationPattern(p.roomLocation.value)
  }

  /** `new RoomProfile(name, roomLocation, roomType)`: checked in that order. */
  function NewRoomProfile(name: Option<string>, roomLocation: Option<RoomLocation>, roomType: Option<RoomType>): (r: Result<RoomProfile>)
    ensures r.Ok? <==> name.Some? && !IsBlank(name.value) && roomLocation.Some? && roomType.Some?
    ensures r.Ok? ==> r.value == RoomProfile(name.value, roomLocation.value, roomType.value)
    ensures r.Err? ==> r.error.BadRequest?
    ensures name.None? || IsBlank(name.value) ==> r == Err(BadRequest("Room name is required"))
  {
    if name.None? || IsBlank(name.value) then Err(BadRequest("Room name is required"))
    else if roomLocation.None? then Err(BadRequest(LocationRequired))
    else if roomType.None? then Err(BadRequest("Room type is required"))
    else Ok(RoomProfile(name.value, roomLocation.value, roomType.value))
  }

  // ---------------------------------------------------------------------------------
  // The entity

  /** One row of the `catalog_room` table. */
  datatype CatalogRow = CatalogRow(profile: RoomProfile, operationalStatus: OperationalStatus)

  class CatalogRoom {
    var id: Option<nat>
    var profile: RoomProfile
    var operationalStatus: OperationalStatus

    function Row(): CatalogRow
      reads this
    {
      CatalogRow(profile, operationalStatus)
    }

    /** An entity loaded from a row, or a new one about to be inserted. */
    constructor Of(id: Option<nat>, row: CatalogRow)
      ensures this.id == id && Row() == row
    {
      this.id := id;
      profile := row.profile;
      operationalStatus := row.operationalStatus;
    }

    /** `isEnabled`; exactly one of it and `isDisabled` holds. */
    predicate IsEnabled()
      reads this
      ensures IsEnabled() <==> !IsDisabled()
    {
      operationalStatus == Enabled
    }

    predicate IsDisabled()
      reads this
    {
      operationalStatus == Disabled
    }

    /** `enable`: refused for an enabled room; either way the room ends up enabled,
        and nothing but the status can change. */
    method Enable() returns (o: Outcome)
      modifies this`operationalStatus
      ensures o.Pass? <==> old(operationalStatus) == Disabled
      ensures o.Fail? ==> o.error == Conflict("Room is already enabled")
      ensures operationalStatus == Enabled
    {
      if IsEnabled() {
        return Fail(Conflict("Room is already enabled"));
      }
      operationalStatus := Enabled;
      o := Pass;
    }

    /** `disable`: the mirror image of `enable`. */
    method Disable() returns (o: Outcome)
      modifies this`operationalStatus
      ensures o.Pass? <==> old(operationalStatus) == Enabled
      ensures o.Fail? ==> o.error == Conflict("Room is already disabled")
      ensures operationalStatus == Disabled
    {
      if IsDisabled() {
        return Fail(Conflict("Room is already disabled"));
      }
      operationalStatus := Disabled;
      o := Pass;
    }

    /** `updateProfile`: a missing profile is refused and nothing changes. */
    method UpdateProfile(newProfile: Option<RoomProfile>) returns (o: Outcome)
      modifies this`profile
      ensures o.Pass? <==> newProfile.Some?
      ensures o.Fail? ==> o.error == BadRequest("Room profile is required")
      ensures profile == if newProfile.Some? then newProfile.value else old(profile)
    {
      if newProfile.None? {
        return Fail(BadRequest("Room profile is required"));
      }
      profile := newProfile.value;
      o := Pass;
    }
  }

  /** `new CatalogRoom(profile)`: a new room has no id yet and is enabled. */
  method NewCatalogRoom(profile: Option<RoomProfile>) returns (r: Result<CatalogRoom>)
    ensures r.Ok? <==> profile.Some?
    ensures r.Ok? ==> fresh(r.value) && r.value.id.None? && r.value.Row() == CatalogRow(profile.value, Enabled)
    ensures r.Err? ==> r.error == BadRequest("Room profile is required")
  {
    if profile.None? {
      return Err(BadRequest("Room profile is required"));
    }
    var room := new CatalogRoom.Of(None, CatalogRow(profile.value, Enabled));
    r := Ok(room);
  }

  // ---------------------------------------------------------------------------------
  // The table

  /** Position `id` holds room `id`, or nothing once that room was deleted. */
  type Table = seq<Option<CatalogRow>>

  predicate Live(rows: Table, id: int) {
    0 <= id < |rows| && rows[id].Some?
  }

  /** Whether another stored room (any room but `self`) already has the location: the
      unique-column check that fails a save. */
  function LocationTakenUpTo(rows: Table, n: nat, loc: RoomLocation, self: Option<nat>): (b: bool)
    requires n <= |rows|
    ensures b <==> exists i :: 0 <= i < n && Live(rows, i) && rows[i].value.profile.roomLocation == loc && self != Some(i)
  {
    if n == 0 then false
    else (LocationTakenUpTo(rows, n - 1, loc, self)
      || (Live(rows, n - 1) && rows[n - 1].value.profile.roomLocation == loc && self != Some(n - 1)))
  }

  function LocationTaken(rows: Table, loc: RoomLocation, self: Option<nat>): bool {
    LocationTakenUpTo(rows, |rows|, loc, self)
  }

  /** The id a save writes to: the entity's own id when its row is stored, none (an
      insert) otherwise. */
  function StoredId(rows: Table, id: Option<nat>): (target: Option<nat>)
    ensures target.Some? ==> target == id && Live(rows, target.value)
  {
    if id.Some? && Live(rows, id.value) then id else None
  }

  /** The table after a successful save of `row` to `target`. */
  function Stored(rows: Table, target: Option<nat>, row: CatalogRow): Table {
    if target.Some? && target.value < |rows| then rows[target.value := Some(row)] else rows + [Some(row)]
  }

  /** The unique `room_location` column: no two stored rooms share a location. */
  ghost predicate UniqueLocations(rows: Table) {
    forall i, j :: Live(rows, i) && Live(rows, j) && rows[i].value.profile.roomLocation == rows[j].value.profile.roomLocation ==> i == j
  }

  /** The catalog's table invariant: unique locations and profiles that passed their
      checks. */
  ghost predicate CatalogInvariant(rows: Table) {
    && UniqueLocations(rows)
    && forall i :: Live(rows, i) ==> ValidProfile(rows[i].value.profile)
  }

  /** A save the unique column lets through keeps locations unique. */
  lemma StoreKeepsLocationsUnique(rows: Table, target: Option<nat>, row: CatalogRow)
    requires UniqueLocations(rows)
    requires target.Some? ==> Live(rows, target.value)
    requires !LocationTaken(rows, row.profile.roomLocation, target)
    ensures UniqueLocations(Stored(rows, target, row))
  {
    var after := Stored(rows, target, row);
    forall i, j | Live(after, i) && Live(after, j) && after[i].value.profile.roomLocation == after[j].value.profile.roomLocation
      ensures i == j
    {
      var written := if target.Some? then target.value else |rows|;
      if i != written && j != written {
        assert Live(rows, i) && Live(rows, j);
      }
    }
  }

  class CatalogRepository {
    var rows: Table

    constructor ()
      ensures rows == []
    {
      rows := [];
    }

    /** `findById`: a fresh entity loaded from the row, or none. */
    method FindById(id: int) returns (r: Option<CatalogRoom>)
      ensures r.Some? <==> Live(rows, id)
      ensures r.Some? ==> fresh(r.value) && r.value.id == Some(id) && r.value.Row() == rows[id].value
    {
      if 0 <= id < |rows| && rows[id].Some? {
        var room := new CatalogRoom.Of(Some(id), rows[id].value);
        return Some(room);
      }
      return None;
    }

    /** `save`: refused by the unique `room_location` column when another stored room
        has the location; otherwise a stored room's row is overwritten and any other
        entity is inserted under the next id, which it receives. */
    method Save(room: CatalogRoom) returns (o: Outcome)
      modifies this, room`id
      ensures var target := StoredId(old(rows), old(room.id));
        && (o.Fail? <==> LocationTaken(old(rows), room.profile.roomLocation, target))
        && (o.Fail? ==> o.error == Conflict("Room location already exists") && rows == old(rows) && room.id == old(room.id))
        && (o.Pass? ==> rows == Stored(old(rows), target, room.Row()))
        && (o.Pass? ==> room.id == if target.Some? then target else Some(old(|rows|)))
    {
      var target := StoredId(rows, room.id);
      if LocationTaken(rows, room.profile.roomLocation, target) {
        return Fail(Conflict("Room location already exists"));
      }
      if target.Some? {
        rows := rows[target.value := Some(room.Row())];
      } else {
        room.id := Some(|rows|);
        rows := rows + [Some(room.Row())];
      }
      o := Pass;
    }

    /** `delete` of an entity loaded from this table: its row is emptied. */
    method Delete(room: CatalogRoom)
      modifies this
      ensures if room.id.Some? && room.id.value < |old(rows)| then rows == old(rows)[room.id.value := None] else rows == old(rows)
    {
      if room.id.Some? && room.id.value < |rows| {
        rows := rows[room.id.value := None];
      }
    }
  }

  /** The application-event publisher, as the log of what it was given. */
  class EventLog {
    var published: seq<CatalogEvent>

    constructor ()
      ensures published == []
    {
      published := [];
    }

    method Publish(e: CatalogEvent)
      modifies this
      ensures published == old(published) + [e]
    {
      published := published + [e];
    }
  }

  // ---------------------------------------------------------------------------------
  // Queries

  /** The derived finders and `findAll`. */
  datatype RoomQuery =
    | TypeIs(roomType: RoomType)          // findByProfileRoomType
    | StatusIs(status: OperationalStatus) // findByOperationalStatus
    | LocationIs(value: string)           // findByProfileRoomLocationValue
    | AnyRoom                             // findAll

  predicate Selects(q: RoomQuery, row: CatalogRow) {
    match q
    case TypeIs(t) => row.profile.roomType == t
    case StatusIs(s) => row.operationalStatus == s
    case LocationIs(v) => row.profile.roomLocation.value == v
    case AnyRoom => true
  }

  /** The ids of the stored rooms among the first `n` that a finder returns, in table
      order: exactly the selected ones, each once. */
  function FoundIdsUpTo(rows: Table, n: nat, q: RoomQuery): (ids: seq<nat>)
    requires n <= |rows|
    ensures forall k :: 0 <= k < |ids| ==> ids[k] < n && Live(rows, ids[k]) && Selects(q, rows[ids[k]].value)
    ensures forall i :: 0 <= i < n && Live(rows, i) && Selects(q, rows[i].value) ==> i in ids
    ensures StrictlyIncreasing(ids)
  {
    if n == 0 then []
    else
      var init := FoundIdsUpTo(rows, n - 1, q);
      if rows[n - 1].Some? && Selects(q, rows[n - 1].value) then init + [n - 1] else init
  }

  function FoundIds(rows: Table, q: RoomQuery): seq<nat> {
    FoundIdsUpTo(rows, |rows|, q)
  }

  /** What `RoomMapper.toDTO` keeps of a room. */
  datatype RoomView = RoomView(id: nat, name: string, roomLocation: string, roomType: RoomType, status: OperationalStatus)

  function ToView(id: nat, row: CatalogRow): RoomView {
    RoomView(id, row.profile.name, row.profile.roomLocation.value, row.profile.roomType, row.operationalStatus)
  }

  /** A finder's result mapped to views: exactly the stored rooms it selects, each
      once, in id order. */
  function QueryViews(rows: Table, q: RoomQuery): (views: seq<RoomView>)
    ensures forall k :: 0 <= k < |views| ==>
      Live(rows, views[k].id) && Selects(q, rows[views[k].id].value) && views[k] == ToView(views[k].id, rows[views[k].id].value)
    ensures forall i :: Live(rows, i) && Selects(q, rows[i].value) ==> exists k :: 0 <= k < |views| && views[k].id == i
    ensures forall j, k :: 0 <= j < k < |views| ==> views[j].id < views[k].id
  {
    var ids := FoundIds(rows, q);
    var views := seq(|ids|, k requires 0 <= k < |ids| => ToView(ids[k], rows[ids[k]].value));
    assert forall k :: 0 <= k < |views| ==> views[k].id == ids[k];
    forall i | Live(rows, i) && Selects(q, rows[i].value)
      ensures exists k :: 0 <= k < |views| && views[k].id == i
    {
      var k :| 0 <= k < |ids| && ids[k] == i;
      assert views[k].id == i;
    }
    views
  }

  /** `fetchEnabledRooms`: exactly the enabled rooms. */
  function FetchEnabledRooms(rows: Table): (views: seq<RoomView>)
    ensures forall k :: 0 <= k < |views| ==> views[k].status == Enabled && Live(rows, views[k].id)
    ensures forall k :: 0 <= k < |views| ==> Live(rows, views[k].id) && views[k] == ToView(views[k].id, rows[views[k].id].value)
    ensures forall j, k :: 0 <= j < k < |views| ==> views[j].id < views[k].id
    ensures forall i :: Live(rows, i) && rows[i].value.operationalStatus == Enabled ==>
      exists k :: 0 <= k < |views| && views[k] == ToView(i, rows[i].value)
  {
    var views := QueryViews(rows, StatusIs(Enabled));
    forall i | Live(rows, i) && rows[i].value.operationalStatus == Enabled
      ensures exists k :: 0 <= k < |views| && views[k] == ToView(i, rows[i].value)
    {
      var k :| 0 <= k < |views| && views[k].id == i;
      assert views[k] == ToView(i, rows[i].value);
    }
    views
  }

  /** `locateRoomsByType`: exactly the rooms of that type. */
  function LocateRoomsByType(rows: Table, t: RoomType): (views: seq<RoomView>)
    ensures forall k :: 0 <= k < |views| ==> views[k].roomType == t && Live(rows, views[k].id)
    ensures forall k :: 0 <= k < |views| ==> Live(rows, views[k].id) && views[k] == ToView(views[k].id, rows[views[k].id].value)
    ensures forall j, k :: 0 <= j < k < |views| ==> views[j].id < views[k].id
    ensures forall i :: Live(rows, i) && rows[i].value.profile.roomType == t ==>
      exists k :: 0 <= k < |views| && views[k] == ToView(i, rows[i].value)
  {
    var views := QueryViews(rows, TypeIs(t));
    forall i | Live(rows, i) && rows[i].value.profile.roomType == t
      ensures exists k :: 0 <= k < |views| && views[k] == ToView(i, rows[i].value)
    {
      var k :| 0 <= k < |views| && views[k].id == i;
      assert views[k] == ToView(i, rows[i].value);
    }
    views
  }

  /** `fetchRooms`: every stored room once, in id order. */
  function FetchRooms(rows: Table): (views: seq<RoomView>)
    ensures forall k :: 0 <= k < |views| ==> Live(rows, views[k].id) && views[k] == ToView(views[k].id, rows[views[k].id].value)
    ensures forall i :: Live(rows, i) ==> exists k :: 0 <= k < |views| && views[k] == ToView(i, rows[i].value)
    ensures forall j, k :: 0 <= j < k < |views| ==> views[j].id < views[k].id
  {
    var views := QueryViews(rows, AnyRoom);
    forall i | Live(rows, i)
      ensures exists k :: 0 <= k < |views| && views[k] == ToView(i, rows[i].value)
    {
      assert Selects(AnyRoom, rows[i].value);
      var k :| 0 <= k < |views| && views[k].id == i;
      assert views[k] == ToView(i, rows[i].value);
    }
    views
  }

  /** `locateRoom`: the room stored with exactly that location, if any. */
  function LocateRoom(rows: Table, value: string): (r: Option<RoomView>)
    ensures r.Some? <==> exists i :: Live(rows, i) && rows[i].value.profile.roomLocation.value == value
    ensures r.Some? ==> Live(rows, r.value.id) && r.value == ToView(r.value.id, rows[r.value.id].value) && r.value.roomLocation == value
  {
    var views := QueryViews(rows, LocationIs(value));
    if |views| == 0 then None else Some(views[0])
  }

  /** With unique locations every row the single-result finder sees is the same
      room (its ids strictly increase, so there is at most one), and that room is the
      one stored with the location. */
  lemma LocatedRoomIsUnique(rows: Table, value: string)
    requires UniqueLocations(rows)
    ensures var views := QueryViews(rows, LocationIs(value));
      forall k :: 0 <= k < |views| ==> views[k] == views[0]
    ensures forall i :: Live(rows, i) && rows[i].value.profile.roomLocation.value == value ==> LocateRoom(rows, value) == Some(ToView(i, rows[i].value))
  {
    var views := QueryViews(rows, LocationIs(value));
    LocatedViewsShareId(rows, value, views);
    forall i | Live(rows, i) && rows[i].value.profile.roomLocation.value == value
      ensures LocateRoom(rows, value) == Some(ToView(i, rows[i].value))
    {
      assert Selects(LocationIs(value), rows[i].value);
      var k :| 0 <= k < |views| && views[k].id == i;
      assert views[0].id == i;
    }
  }

  /** Under unique locations, views of rooms stored with one location have one id. */
  lemma LocatedViewsShareId(rows: Table, value: string, views: seq<RoomView>)
    requires UniqueLocations(rows)
    requires forall k :: 0 <= k < |views| ==> Live(rows, views[k].id) && rows[views[k].id].value.profile.roomLocation.value == value
    ensures forall j, k :: 0 <= j < |views| && 0 <= k < |views| ==> views[j].id == views[k].id
  {
    forall j, k | 0 <= j < |views| && 0 <= k < |views| ensures views[j].id == views[k].id {
      SameLocationSameRoom(rows, views[j].id, views[k].id);
    }
  }

  lemma SameLocationSameRoom(rows: Table, a: int, b: int)
    requires UniqueLocations(rows) && Live(rows, a) && Live(rows, b)
    requires rows[a].value.profile.roomLocation.value == rows[b].value.profile.roomLocation.value
    ensures a == b
  {
    assert rows[a].value.profile.roomLocation == rows[b].value.profile.roomLocation;
  }

  // ---------------------------------------------------------------------------------
  // The service

  const LocationExists := "Room location already exists"

  function NotFound(roomId: int): Error {
    BadRequest("Room not found with id: " + NumberText(roomId))
  }

  /** `addRoom` up to the save: the location is built first (it is an argument of the
      profile), then the profile, then the unique column decides; a new room is
      enabled. */
  function AddDecision(rows: Table, name: Option<string>, location: Option<string>, roomType: Option<RoomType>): (r: Result<CatalogRow>)
    ensures r.Ok? <==>
      && location.Some? && MatchesLocationPattern(location.value)
      && name.Some? && !IsBlank(name.value) && roomType.Some?
      && !LocationTaken(rows, RoomLocation(location.value), None)
    ensures r.Ok? ==> r.value == CatalogRow(RoomProfile(name.value, RoomLocation(location.value), roomType.value), Enabled)
    ensures r.Ok? ==> ValidProfile(r.value.profile)
  {
    var loc :- NewRoomLocation(location);
    var profile :- NewRoomProfile(name, Some(loc), roomType);
    if LocationTaken(rows, loc, None) then Err(Conflict(LocationExists))
    else Ok(CatalogRow(profile, Enabled))
  }

  /** The event `addRoom` publishes for the room saved under `id`. */
  function AddedEvent(id: nat, row: CatalogRow): CatalogEvent {
    Added(RoomAddedToCatalog(id, row.profile.name, row.profile.roomLocation.value,
      RoomTypeName(row.profile.roomType), StatusName(row.operationalStatus)))
  }

  /** `addRoom`: on success the room is stored under the next id and exactly one
      RoomAddedToCatalog is published; on any refusal, including the location conflict
      at save, nothing is stored and nothing is published. */
  method AddRoom(repo: CatalogRepository, log: EventLog, name: Option<string>, location: Option<string>, roomType: Option<RoomType>)
    returns (r: Result<RoomView>)
    modifies repo, log
    ensures var d := AddDecision(old(repo.rows), name, location, roomType);
      && (r.Ok? <==> d.Ok?)
      && (d.Ok? ==> && repo.rows == old(repo.rows) + [Some(d.value)]
                    && log.published == old(log.published) + [AddedEvent(|old(repo.rows)|, d.value)]
                    && r.value == ToView(|old(repo.rows)|, d.value))
      && (d.Err? ==> repo.rows == old(repo.rows) && log.published == old(log.published) && r.error == d.error)
  {
    var loc := NewRoomLocation(location);
    if loc.Err? {
      return Err(loc.error);
    }
    var profile := NewRoomProfile(name, Some(loc.value), roomType);
    if profile.Err? {
      return Err(profile.error);
    }
    var created := NewCatalogRoom(Some(profile.value));
    var room := created.value;
    var saved := repo.Save(room);
    if saved.Fail? {
      return Err(saved.error);
    }
    log.Publish(AddedEvent(room.id.value, room.Row()));
    r := Ok(ToView(room.id.value, room.Row()));
  }

  /** `removeRoom`: an unknown id, then an enabled room, is refused. */
  function RemoveDecision(rows: Table, roomId: int): (o: Outcome)
    ensures o.Pass? <==> Live(rows, roomId) && rows[roomId].value.operationalStatus == Disabled
    ensures !Live(rows, roomId) ==> o == Fail(NotFound(roomId))
    ensures Live(rows, roomId) && o.Fail? ==> o == Fail(Conflict("Cannot remove an enabled room. Please disable it first."))
  {
    if !Live(rows, roomId) then Fail(NotFound(roomId))
    else if rows[roomId].value.operationalStatus == Enabled then
      Fail(Conflict("Cannot remove an enabled room. Please disable it first."))
    else
      assert rows[roomId].value.operationalStatus == Disabled;
      Pass
  }

  /** `removeRoom`: a disabled room's row is emptied and one RoomRemovedFromCatalog is
      published; a refusal deletes and publishes nothing. */
  method RemoveRoom(repo: CatalogRepository, log: EventLog, roomId: int) returns (o: Outcome)
    modifies repo, log
    ensures o == RemoveDecision(old(repo.rows), roomId)
    ensures o.Pass? ==> && repo.rows == old(repo.rows)[roomId := None]
                        && log.published == old(log.published) + [Removed(RoomRemovedFromCatalog(roomId))]
    ensures o.Fail? ==> repo.rows == old(repo.rows) && log.published == old(log.published)
  {
    var found := repo.FindById(roomId);
    if found.None? {
      return Fail(NotFound(roomId));
    }
    var room := found.value;
    if room.IsEnabled() {
      return Fail(Conflict("Cannot remove an enabled room. Please disable it first."));
    }
    repo.Delete(room);
    log.Publish(Removed(RoomRemovedFromCatalog(roomId)));
    o := Pass;
  }

  /** `enableRoom` (target Enabled) and `disableRoom` (target Disabled) up to the
      save: an unknown id, then a room already in the target status, is refused; the
      save of the changed row is refused only if another room holds its location. */
  function ToggleDecision(rows: Table, roomId: int, target: OperationalStatus): (r: Result<CatalogRow>)
    ensures r.Ok? ==> Live(rows, roomId) && r.value == rows[roomId].value.(operationalStatus := target)
    ensures r.Ok? ==> rows[roomId].value.operationalStatus != target
    ensures !Live(rows, roomId) ==> r == Err(NotFound(roomId))
    ensures Live(rows, roomId) && rows[roomId].value.operationalStatus == target ==>
      r == Err(Conflict(if target == Enabled then "Room is already enabled" else "Room is already disabled"))
    ensures (Live(rows, roomId) && rows[roomId].value.operationalStatus != target
             && LocationTaken(rows, rows[roomId].value.profile.roomLocation, Some(roomId)))
      ==> r == Err(Conflict(LocationExists))
    ensures r.Ok? <==> (Live(rows, roomId) && rows[roomId].value.operationalStatus != target
                        && !LocationTaken(rows, rows[roomId].value.profile.roomLocation, Some(roomId)))
  {
    if !Live(rows, roomId) then Err(NotFound(roomId))
    else
      var row := rows[roomId].value;
      if row.operationalStatus == target then
        Err(Conflict(if target == Enabled then "Room is already enabled" else "Room is already disabled"))
      else if LocationTaken(rows, row.profile.roomLocation, Some(roomId)) then Err(Conflict(LocationExists))
      else Ok(row.(operationalStatus := target))
  }

  /** The event a successful toggle publishes. */
  function StatusEvent(roomId: nat, target: OperationalStatus): CatalogEvent {
    StatusChanged(RoomOperationalStatusChanged(roomId, StatusName(target)))
  }

  /** The shared body of `enableRoom` and `disableRoom`. */
  method SetStatus(repo: CatalogRepository, log: EventLog, roomId: int, target: OperationalStatus) returns (r: Result<RoomView>)
    modifies repo, log
    ensures var d := ToggleDecision(old(repo.rows), roomId, target);
      && (r.Ok? <==> d.Ok?)
      && (d.Ok? ==> && repo.rows == old(repo.rows)[roomId := Some(d.value)]
                    && log.published == old(log.published) + [StatusEvent(roomId, target)]
                    && r.value == ToView(roomId, d.value))
      && (d.Err? ==> repo.rows == old(repo.rows) && log.published == old(log.published) && r.error == d.error)
  {
    var found := repo.FindById(roomId);
    if found.None? {
      return Err(NotFound(roomId));
    }
    var room := found.value;
    var toggled: Outcome;
    if target == Enabled {
      toggled := room.Enable();
    } else {
      toggled := room.Disable();
    }
    if toggled.Fail? {
      return Err(toggled.error);
    }
    var saved := repo.Save(room);
    if saved.Fail? {
      return Err(saved.error);
    }
    log.Publish(StatusEvent(roomId, target));
    r := Ok(ToView(roomId, room.Row()));
  }

  method EnableRoom(repo: CatalogRepository, log: EventLog, roomId: int) returns (r: Result<RoomView>)
    modifies repo, log
    ensures var d := ToggleDecision(old(repo.rows), roomId, Enabled);
      && (r.Ok? <==> d.Ok?)
      && (d.Ok? ==> && repo.rows == old(repo.rows)[roomId := Some(d.value)]
                    && log.published == old(log.published) + [StatusEvent(roomId, Enabled)]
                    && r.value == ToView(roomId, d.value))
      && (d.Err? ==> repo.rows == old(repo.rows) && log.published == old(log.published) && r.error == d.error)
  {
    r := SetStatus(repo, log, roomId, Enabled);
  }

  method DisableRoom(repo: CatalogRepository, log: EventLog, roomId: int) returns (r: Result<RoomView>)
    modifies repo, log
    ensures var d := ToggleDecision(old(repo.rows), roomId, Disabled);
      && (r.Ok? <==> d.Ok?)
      && (d.Ok? ==> && repo.rows == old(repo.rows)[roomId := Some(d.value)]
                    && log.published == old(log.published) + [StatusEvent(roomId, Disabled)]
                    && r.value == ToView(roomId, d.value))
      && (d.Err? ==> repo.rows == old(repo.rows) && log.published == old(log.published) && r.error == d.error)
  {
    r := SetStatus(repo, log, roomId, Disabled);
  }

  // ---------------------------------------------------------------------------------
  // Properties of the service

  /** A location already stored is refused at save with the conflict, once the other
      fields are valid. */
  lemma DuplicateLocationIsRefused(rows: Table, name: Option<string>, location: Option<string>, roomType: Option<RoomType>, i: int)
    requires Live(rows, i) && location.Some? && rows[i].value.profile.roomLocation.value == location.value
    requires MatchesLocationPattern(location.value) && name.Some? && !IsBlank(name.value) && roomType.Some?
    ensures AddDecision(rows, name, location, roomType) == Err(Conflict(LocationExists))
  {
    assert rows[i].value.profile.roomLocation == RoomLocation(location.value);
  }

  /** With the table invariant, toggling is refused only for an unknown id or a room
      already in the target status: the unique column never interferes. */
  lemma ToggleRefusedOnlyForUnknownOrNoOp(rows: Table, roomId: int, target: OperationalStatus)
    requires UniqueLocations(rows)
    ensures ToggleDecision(rows, roomId, target).Err? <==>
      !Live(rows, roomId) || rows[roomId].value.operationalStatus == target
  {
  }

  /** Disabling an enabled room and enabling it again gives back the same table. */
  lemma DisableThenEnableRestores(rows: Table, roomId: int)
    requires UniqueLocations(rows) && Live(rows, roomId) && rows[roomId].value.operationalStatus == Enabled
    ensures var d := ToggleDecision(rows, roomId, Disabled);
      && d.Ok?
      && var after := rows[roomId := Some(d.value)];
         var e := ToggleDecision(after, roomId, Enabled);
         e.Ok? && after[roomId := Some(e.value)] == rows
  {
    ToggleRefusedOnlyForUnknownOrNoOp(rows, roomId, Disabled);
    var d := ToggleDecision(rows, roomId, Disabled);
    var after := rows[roomId := Some(d.value)];
    assert UniqueLocations(after) by {
      forall i, j | Live(after, i) && Live(after, j) && after[i].value.profile.roomLocation == after[j].value.profile.roomLocation
        ensures i == j
      {
        assert Live(rows, i) && Live(rows, j);
      }
    }
    ToggleRefusedOnlyForUnknownOrNoOp(after, roomId, Enabled);
  }

  /** Every successful catalog operation keeps the table invariant. */
  lemma OperationsKeepCatalogInvariant(rows: Table, name: Option<string>, location: Option<string>, roomType: Option<RoomType>, roomId: int, target: OperationalStatus)
    requires CatalogInvariant(rows)
    ensures var d := AddDecision(rows, name, location, roomType);
      d.Ok? ==> CatalogInvariant(rows + [Some(d.value)])
    ensures RemoveDecision(rows, roomId).Pass? ==> CatalogInvariant(rows[roomId := None])
    ensures var d := ToggleDecision(rows, roomId, target);
      d.Ok? ==> CatalogInvariant(rows[roomId := Some(d.value)])
  {
    AddKeepsCatalogInvariant(rows, name, location, roomType);
    if RemoveDecision(rows, roomId).Pass? {
      var after := rows[roomId := None];
      forall i | Live(after, i) ensures ValidProfile(after[i].value.profile) && Live(rows, i) { }
    }
    ToggleKeepsCatalogInvariant(rows, roomId, target);
  }

  lemma AddKeepsCatalogInvariant(rows: Table, name: Option<string>, location: Option<string>, roomType: Option<RoomType>)
    requires CatalogInvariant(rows)
    ensures var d := AddDecision(rows, name, location, roomType);
      d.Ok? ==> CatalogInvariant(rows + [Some(d.value)])
  {
    var a := AddDecision(rows, name, location, roomType);
    if a.Ok? {
      StoreKeepsLocationsUnique(rows, None, a.value);
      var after := rows + [Some(a.value)];
      forall i | Live(after, i) ensures ValidProfile(after[i].value.profile) {
        if i < |rows| { assert Live(rows, i); }
      }
    }
  }

  lemma ToggleKeepsCatalogInvariant(rows: Table, roomId: int, target: OperationalStatus)
    requires CatalogInvariant(rows)
    ensures var d := ToggleDecision(rows, roomId, target);
      d.Ok? ==> CatalogInvariant(rows[roomId := Some(d.value)])
  {
    var t := ToggleDecision(rows, roomId, target);
    if t.Ok? {
      StoreKeepsLocationsUnique(rows, Some(roomId), t.value);
      var after := rows[roomId := Some(t.value)];
      forall i | Live(after, i) ensures ValidProfile(after[i].value.profile) {
        assert Live(rows, i);
      }
    }
  }
}
