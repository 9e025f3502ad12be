/** The reservation context's local copy of the room catalog
    (reservation/rooms/domain/Room.java, reservation/rooms/application/RoomManagement.java).
    Rooms are rows of a table keyed by the catalog's room id; a `Room` object is an entity
    loaded from its row, changed in place and written back by `Save`. */
module ReservationRooms {
  import opened Outcomes
  import opened Text
  import opened CatalogEvents

  /** Unlike the catalog's, this location is only required to be non-blank. */
  datatype RoomLocation = RoomLocation(value: string)

  /** The room type is a free-form string here. */
  datatype RoomProfile = RoomProfile(name: string, roomLocation: RoomLocation, roomType: string)

  /** What the record constructors of `RoomLocation` and `RoomProfile` accept. */
  predicate ValidProfile(p: RoomProfile) {
    !IsBlank(p.name) && !IsBlank(p.roomLocation.value) && !IsBlank(p.roomType)
  }

  /** A status the entity accepts: neither null nor blank. Any such string is stored. */
  predicate ValidStatus(status: string) {
    !IsBlank(status)
  }

  /** `new RoomLocation(value)`. */
  function NewRoomLocation(value: string): (r: Result<RoomLocation>)
    ensures r.Ok? <==> !IsBlank(value)
    ensures r.Ok? ==> r.value.value == value
    ensures r.Err? ==> r.error.BadRequest?
  {
    if IsBlank(value) then Err(BadRequest("roomLocation value is required"))
    else Ok(RoomLocation(value))
  }

  /** `new RoomProfile(name, new RoomLocation(location), type)`: the location is built
      first, as an argument, so its error wins over the name's. */
  function NewRoomProfile(name: string, location: string, roomType: string): (r: Result<RoomProfile>)
    ensures r.Ok? <==> !IsBlank(name) && !IsBlank(location) && !IsBlank(roomType)
    ensures r.Ok? ==> ValidProfile(r.value) && r.value == RoomProfile(name, RoomLocation(location), roomType)
    ensures r.Err? ==> r.error.BadRequest?
    ensures IsBlank(location) ==> r == Err(BadRequest("roomLocation value is required"))
  {
    var loc :- NewRoomLocation(location);
    if IsBlank(name) then Err(BadRequest("name is required"))
    else if IsBlank(roomType) then Err(BadRequest("roomType is required"))
    else Ok(RoomProfile(name, loc, roomType))
  }

  /** `isEnabled`: "ENABLED" ignoring case. */
  predicate IsEnabled(status: string) { EqualsIgnoreCase("ENABLED", status) }

  /** `isDisabled`: "DISABLED" ignoring case. */
  predicate IsDisabled(status: string) { EqualsIgnoreCase("DISABLED", status) }

  /** No status is both enabled and disabled, and a status other than the two names is
      neither, so such a room does not count as disabled when a booking is created. */
  lemma EnabledAndDisabledExclusive(status: string)
    ensures !(IsEnabled(status) && IsDisabled(status))
    ensures IsEnabled("enabled") && IsDisabled("Disabled")
    ensures !IsEnabled("MAINTENANCE") && !IsDisabled("MAINTENANCE")
  {
    assert CharEqualsIgnoreCase("DISABLED"[1], "Disabled"[1]);
  }

  /** One row of the `reservation_room` table. */
  datatype RoomRow = RoomRow(profile: RoomProfile, operationalStatus: string)

  predicate ValidRow(row: RoomRow) {
    ValidProfile(row.profile) && ValidStatus(row.operationalStatus)
  }

  class Room {
    const roomId: int
    var profile: RoomProfile
    var operationalStatus: string

    ghost predicate Valid()
      reads this
    {
      ValidRow(RoomRow(profile, operationalStatus))
    }

    function Row(): RoomRow
      reads this
    {
      RoomRow(profile, operationalStatus)
    }

    /** The entity constructor once its checks have passed (see `NewRoom`). */
    constructor Of(roomId: int, row: RoomRow)
      ensures this.roomId == roomId && Row() == row
    {
      this.roomId := roomId;
      profile := row.profile;
      operationalStatus := row.operationalStatus;
    }

    /** `update(profile, operationalStatus)`: every check precedes the assignments, so
        a rejected update leaves the room as it was; the id never changes. */
    method Update(newProfile: RoomProfile, newStatus: string) returns (o: Outcome)
      modifies this
      ensures o.Pass? <==> ValidStatus(newStatus)
      ensures o.Fail? ==> o.error == BadRequest("operationalStatus is required")
      ensures Row() == if o.Pass? then RoomRow(newProfile, newStatus) else old(Row())
      ensures o.Pass? && ValidProfile(newProfile) ==> Valid()
    {
      if IsBlank(newStatus) {
        return Fail(BadRequest("operationalStatus is required"));
      }
      profile := newProfile;
      operationalStatus := newStatus;
      o := Pass;
    }
  }

  /** `new Room(roomId, profile, operationalStatus)`: the profile is never null here
      (it was built just before), so only the status can be refused. */
  method NewRoom(roomId: int, profile: RoomProfile, status: string) returns (r: Result<Room>)
    ensures r.Ok? <==> ValidStatus(status)
    ensures r.Ok? ==> fresh(r.value) && r.value.roomId == roomId && r.value.Row() == RoomRow(profile, status)
    ensures r.Ok? && ValidProfile(profile) ==> r.value.Valid()
    ensures r.Err? ==> r.error == BadRequest("operationalStatus is required")
  {
    if IsBlank(status) {
      return Err(BadRequest("operationalStatus is required"));
    }
    var room := new Room.Of(roomId, RoomRow(profile, status));
    r := Ok(room);
  }

  /** The projection's repository: the rows keyed by room id. */
  class RoomRepository {
    var rows: map<int, RoomRow>

    constructor ()
      ensures rows == map[]
    {
      rows := map[];
    }

    /** `findById`: a fresh entity loaded from the row, or none. */
    method FindById(roomId: int) returns (r: Option<Room>)
      ensures r.Some? <==> roomId in rows
      ensures r.Some? ==> fresh(r.value) && r.value.roomId == roomId && r.value.Row() == rows[roomId]
    {
      if roomId in rows {
        var room := new Room.Of(roomId, rows[roomId]);
        return Some(room);
      }
      return None;
    }

    method Save(room: Room)
      modifies this
      ensures rows == old(rows)[room.roomId := room.Row()]
    {
      rows := rows[room.roomId := room.Row()];
    }

    /** `deleteById`: deleting an absent id changes nothing. */
    method DeleteById(roomId: int)
      modifies this
      ensures rows == old(rows) - {roomId}
    {
      rows := rows - {roomId};
    }
  }

  /** What applying a RoomAddedToCatalog does to the table: an upsert of the event's
      profile and status under its id, or an error with the table untouched. */
  function RoomAddedEffect(rows: map<int, RoomRow>, e: RoomAddedToCatalog): Result<map<int, RoomRow>>
  {
    var profile :- NewRoomProfile(e.name, e.roomLocation, e.roomType);
    if IsBlank(e.operationalStatus) then Err(BadRequest("operationalStatus is required"))
    else Ok(rows[e.roomId := RoomRow(profile, e.operationalStatus)])
  }

  /** What applying a RoomOperationalStatusChanged does: set the status of a known room,
      keeping its profile; an unknown id changes nothing. */
  function StatusChangedEffect(rows: map<int, RoomRow>, e: RoomOperationalStatusChanged): Result<map<int, RoomRow>>
  {
    if e.roomId !in rows then Ok(rows)
    else if IsBlank(e.operationalStatus) then Err(BadRequest("operationalStatus is required"))
    else Ok(rows[e.roomId := rows[e.roomId].(operationalStatus := e.operationalStatus)])
  }

  /** `on(RoomAddedToCatalog)`: build the profile, then update the existing room in
      place or create a new one, then save it. */
  method OnRoomAdded(repo: RoomRepository, e: RoomAddedToCatalog) returns (o: Outcome)
    modifies repo
    ensures var effect := RoomAddedEffect(old(repo.rows), e);
      && (o.Pass? <==> effect.Ok?)
      && repo.rows == (if effect.Ok? then effect.value else old(repo.rows))
      && (o.Fail? ==> o.error == effect.error)
  {
    var profile := NewRoomProfile(e.name, e.roomLocation, e.roomType);
    if profile.Err? {
      return Fail(profile.error);
    }
    var existing := repo.FindById(e.roomId);
    var room: Room;
    if existing.Some? {
      room := existing.value;
      var updated := room.Update(profile.value, e.operationalStatus);
      if updated.Fail? {
        return updated;
      }
    } else {
      var created := NewRoom(e.roomId, profile.value, e.operationalStatus);
      if created.Err? {
        return Fail(created.error);
      }
      room := created.value;
    }
    repo.Save(room);
    o := Pass;
  }

  /** `on(RoomOperationalStatusChanged)`. */
  method OnStatusChanged(repo: RoomRepository, e: RoomOperationalStatusChanged) returns (o: Outcome)
    modifies repo
    ensures var effect := StatusChangedEffect(old(repo.rows), e);
      && (o.Pass? <==> effect.Ok?)
      && repo.rows == (if effect.Ok? then effect.value else old(repo.rows))
      && (o.Fail? ==> o.error == effect.error)
  {
    var found := repo.FindById(e.roomId);
    if found.Some? {
      var room := found.value;
      var updated := room.Update(room.profile, e.operationalStatus);
      if updated.Fail? {
        return updated;
      }
      repo.Save(room);
    }
    o := Pass;
  }

  /** `on(RoomRemovedFromCatalog)`. */
  method OnRoomRemoved(repo: RoomRepository, e: RoomRemovedFromCatalog)
    modifies repo
    ensures repo.rows == old(repo.rows) - {e.roomId}
    ensures forall id :: id in old(repo.rows) && id != e.roomId ==> id in repo.rows && repo.rows[id] == old(repo.rows)[id]
  {
    repo.DeleteById(e.roomId);
  }

  /** Adding a room: a new id gets the event's profile and status; an existing id is
      overwritten in place with no second entry; every other room is untouched. */
  lemma RoomAddedUpserts(rows: map<int, RoomRow>, e: RoomAddedToCatalog)
    requires RoomAddedEffect(rows, e).Ok?
    ensures var after := RoomAddedEffect(rows, e).value;
      && after.Keys == rows.Keys + {e.roomId}
      && after[e.roomId] == RoomRow(RoomProfile(e.name, RoomLocation(e.roomLocation), e.roomType), e.operationalStatus)
      && ValidRow(after[e.roomId])
      && (forall id :: id in rows && id != e.roomId ==> after[id] == rows[id])
  {
  }

  /** An event with a blank field is refused and the table is left as it was. */
  lemma RoomAddedRejectsBlankFields(rows: map<int, RoomRow>, e: RoomAddedToCatalog)
    ensures RoomAddedEffect(rows, e).Err? <==>
      IsBlank(e.name) || IsBlank(e.roomLocation) || IsBlank(e.roomType) || IsBlank(e.operationalStatus)
    ensures RoomAddedEffect(rows, e).Err? ==> RoomAddedEffect(rows, e).error.BadRequest?
  {
  }

  /** Delivering the same RoomAddedToCatalog twice leaves the same table as delivering
      it once. */
  lemma RoomAddedIdempotent(rows: map<int, RoomRow>, e: RoomAddedToCatalog)
    ensures var once := RoomAddedEffect(rows, e);
      once.Ok? ==> RoomAddedEffect(once.value, e) == once
  {
    var once := RoomAddedEffect(rows, e);
    if once.Ok? {
      var row := once.value[e.roomId];
      assert once.value[e.roomId := row] == once.value;
    }
  }

  /** A status change keeps the profile and every other room, and is refused only for
      a known room with a blank status. */
  lemma StatusChangedKeepsProfile(rows: map<int, RoomRow>, e: RoomOperationalStatusChanged)
    ensures var r := StatusChangedEffect(rows, e);
      && (r.Err? <==> e.roomId in rows && IsBlank(e.operationalStatus))
      && (r.Ok? ==> r.value.Keys == rows.Keys)
      && (r.Ok? && e.roomId in rows ==> r.value[e.roomId] == RoomRow(rows[e.roomId].profile, e.operationalStatus))
      && (r.Ok? ==> forall id :: id in rows && id != e.roomId ==> r.value[id] == rows[id])
  {
  }

  /** Every handler keeps the table's invariant: each stored row has a valid profile
      and a non-blank status. */
  lemma HandlersPreserveValidRows(rows: map<int, RoomRow>, a: RoomAddedToCatalog, c: RoomOperationalStatusChanged)
    requires forall id :: id in rows ==> ValidRow(rows[id])
    ensures var r := RoomAddedEffect(rows, a); r.Ok? ==> forall id :: id in r.value ==> ValidRow(r.value[id])
    ensures var r := StatusChangedEffect(rows, c); r.Ok? ==> forall id :: id in r.value ==> ValidRow(r.value[id])
  {
  }
}
