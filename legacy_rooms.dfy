/** The earlier room registry (rooms/Room.java, rooms/RoomManagement.java,
    rooms/RoomRepository.java), kept beside the catalog. A room is ACTIVE while it is in
    use and INACTIVE while it can be booked; a new room starts ACTIVE. Its
    `RoomLocation` record has the catalog's checks and pattern word for word, so the
    catalog's `RoomLocation` is used. Room ids are row positions; a deleted room leaves
    an empty row. */
module LegacyRooms {
  import opened Outcomes
  import opened Text
  import opened LocationPattern
  import Catalog

  datatype RoomStatus = Active | Inactive

  /** One row of the `rooms` table. */
  datatype RoomRow = RoomRow(name: string, location: Catalog.RoomLocation, status: RoomStatus)

  class Room {
    var id: Option<nat>
    const name: string
    const location: Catalog.RoomLocation
    var status: RoomStatus

    function Row(): RoomRow
      reads this
    {
      RoomRow(name, location, status)
    }

    constructor Of(id: Option<nat>, row: RoomRow)
      ensures this.id == id && Row() == row
    {
      this.id := id;
      name := row.name;
      location := row.location;
      status := row.status;
    }

    /** `isActive`; exactly one of it and `isInactive` holds. */
    predicate IsActive()
      reads this
      ensures IsActive() <==> !IsInactive()
    {
      status == Active
    }

    predicate IsInactive()
      reads this
    {
      status == Inactive
    }

    /** `setActive`: refused for an active room; either way the room ends up active,
        and name and location cannot change. */
    method SetActive() returns (o: Outcome)
      modifies this`status
      ensures o.Pass? <==> old(status) == Inactive
      ensures o.Fail? ==> o.error == Conflict("Room is already active")
      ensures status == Active
    {
      if IsActive() {
        return Fail(Conflict("Room is already active"));
      }
      status := Active;
      o := Pass;
    }

    /** `setInactive`: the mirror image of `setActive`. */
    method SetInactive() returns (o: Outcome)
      modifies this`status
      ensures o.Pass? <==> old(status) == Active
      ensures o.Fail? ==> o.error == Conflict("Room is already inactive")
      ensures status == Inactive
    {
      if IsInactive() {
        return Fail(Conflict("Room is already inactive"));
      }
      status := Inactive;
      o := Pass;
    }
  }

  /** `new Room(name, location)`: the name is checked before the location, and a new
      room is ACTIVE. */
  method NewRoom(name: Option<string>, location: Option<Catalog.RoomLocation>) returns (r: Result<Room>)
    ensures r.Ok? <==> name.Some? && !IsBlank(name.value) && location.Some?
    ensures r.Ok? ==> fresh(r.value) && r.value.id.None? && r.value.Row() == RoomRow(name.value, location.value, Active)
    ensures r.Err? ==> r.error == BadRequest(if name.None? || IsBlank(name.value) then "Room name is required" else "Room location is required")
  {
    if name.None? || IsBlank(name.value) {
      return Err(BadRequest("Room name is required"));
    }
    if location.None? {
      return Err(BadRequest("Room location is required"));
    }
    var room := new Room.Of(None, RoomRow(name.value, location.value, Active));
    r := Ok(room);
  }

  // ---------------------------------------------------------------------------------
  // The table and its queries

  type Table = seq<Option<RoomRow>>

  predicate Live(rows: Table, id: int) {
    0 <= id < |rows| && rows[id].Some?
  }

  /** `existsByRoomLocation` over the first `n` rows. */
  function ExistsAtLocationUpTo(rows: Table, n: nat, value: string): (b: bool)
    requires n <= |rows|
    ensures b <==> exists i :: 0 <= i < n && Live(rows, i) && rows[i].value.location.value == value
  {
    if n == 0 then false
    else (ExistsAtLocationUpTo(rows, n - 1, value)
      || (rows[n - 1].Some? && rows[n - 1].value.location.value == value))
  }

  function ExistsAtLocation(rows: Table, value: string): bool {
    ExistsAtLocationUpTo(rows, |rows|, value)
  }

  /** No two stored rooms share a location (the unique `room_location` column). */
  ghost predicate UniqueLocations(rows: Table) {
    forall i, j :: Live(rows, i) && Live(rows, j) && rows[i].value.location == rows[j].value.location ==> i == j
  }

  /** The ids of the stored rooms among the first `n` with the given status, or of all
      of them, in id order. */
  function IdsWithStatusUpTo(rows: Table, n: nat, status: Option<RoomStatus>): (ids: seq<nat>)
    requires n <= |rows|
    ensures forall k :: 0 <= k < |ids| ==> ids[k] < n && Live(rows, ids[k]) && (status.Some? ==> rows[ids[k]].value.status == status.value)
    ensures forall i :: 0 <= i < n && Live(rows, i) && (status.Some? ==> rows[i].value.status == status.value) ==> i in ids
    ensures StrictlyIncreasing(ids)
  {
    if n == 0 then []
    else
      var init := IdsWithStatusUpTo(rows, n - 1, status);
      if rows[n - 1].Some? && (status.Some? ==> rows[n - 1].value.status == status.value) then init + [n - 1] else init
  }

  /** What `RoomMapper.toDTO` keeps of a room. */
  datatype RoomView = RoomView(id: nat, name: string, roomLocation: string, status: RoomStatus)

  function ToView(id: nat, row: RoomRow): RoomView {
    RoomView(id, row.name, row.location.value, row.status)
  }

  function ViewsOf(rows: Table, status: Option<RoomStatus>): (views: seq<RoomView>)
    ensures forall k :: 0 <= k < |views| ==> Live(rows, views[k].id) && views[k] == ToView(views[k].id, rows[views[k].id].value)
    ensures forall k :: 0 <= k < |views| ==> status.Some? ==> views[k].status == status.value
    ensures forall i :: Live(rows, i) && (status.Some? ==> rows[i].value.status == status.value) ==>
      exists k :: 0 <= k < |views| && views[k] == ToView(i, rows[i].value)
    ensures forall j, k :: 0 <= j < k < |views| ==> views[j].id < views[k].id
  {
    var ids := IdsWithStatusUpTo(rows, |rows|, status);
    var views := seq(|ids|, k requires 0 <= k < |ids| => ToView(ids[k], rows[ids[k]].value));
    forall i | Live(rows, i) && (status.Some? ==> rows[i].value.status == status.value)
      ensures exists k :: 0 <= k < |views| && views[k] == ToView(i, rows[i].value)
    {
      var k :| 0 <= k < |ids| && ids[k] == i;
      assert views[k] == ToView(i, rows[i].value);
    }
    views
  }

  /** `listAllRooms`: every stored room once, in id order. */
  function ListAllRooms(rows: Table): (views: seq<RoomView>)
    ensures forall k :: 0 <= k < |views| ==> Live(rows, views[k].id) && views[k] == ToView(views[k].id, rows[views[k].id].value)
    ensures forall i :: Live(rows, i) ==> exists k :: 0 <= k < |views| && views[k] == ToView(i, rows[i].value)
    ensures forall j, k :: 0 <= j < k < |views| ==> views[j].id < views[k].id
  {
    ViewsOf(rows, None)
  }

  /** `listRoomByStatus`: exactly the rooms with that status. */
  function ListRoomByStatus(rows: Table, status: RoomStatus): (views: seq<RoomView>)
    ensures forall k :: 0 <= k < |views| ==> views[k].status == status && Live(rows, views[k].id)
    ensures forall k :: 0 <= k < |views| ==> Live(rows, views[k].id) && views[k] == ToView(views[k].id, rows[views[k].id].value)
    ensures forall j, k :: 0 <= j < k < |views| ==> views[j].id < views[k].id
    ensures forall i :: Live(rows, i) && rows[i].value.status == status ==>
      exists k :: 0 <= k < |views| && views[k] == ToView(i, rows[i].value)
  {
    ViewsOf(rows, Some(status))
  }

  /** The two status lists split the registry: every stored room is in exactly one
      of them. */
  lemma StatusListsPartitionRooms(rows: Table, i: int)
    requires Live(rows, i)
    ensures var view := ToView(i, rows[i].value);
      (view in ListRoomByStatus(rows, Active)) != (view in ListRoomByStatus(rows, Inactive))
  {
    var view := ToView(i, rows[i].value);
    var active, inactive := ListRoomByStatus(rows, Active), ListRoomByStatus(rows, Inactive);
    if rows[i].value.status == Active {
      var k :| 0 <= k < |active| && active[k] == view;
      assert view !in inactive;
    } else {
      var k :| 0 <= k < |inactive| && inactive[k] == view;
      assert view !in active;
    }
  }

  class RoomRepository {
    var rows: Table

    constructor ()
      ensures rows == []
    {
      rows := [];
    }

    /** `findById`: a fresh entity loaded from the row, or none. */
    method FindById(id: int) returns (r: Option<Room>)
      ensures r.Some? <==> Live(rows, id)
      ensures r.Some? ==> fresh(r.value) && r.value.id == Some(id) && r.value.Row() == rows[id].value
    {
      if 0 <= id < |rows| && rows[id].Some? {
        var room := new Room.Of(Some(id), rows[id].value);
        return Some(room);
      }
      return None;
    }

    /** `save` of a new entity: inserted under the next id, which it receives. */
    method Insert(room: Room)
      requires room.id.None?
      modifies this, room`id
      ensures rows == old(rows) + [Some(room.Row())] && room.id == Some(old(|rows|))
    {
      room.id := Some(|rows|);
      rows := rows + [Some(room.Row())];
    }

    /** Writing back a loaded entity, as the end of the transaction does for a managed
        entity that was changed. */
    method Update(room: Room)
      requires room.id.Some? && Live(rows, room.id.value)
      modifies this
      ensures rows == old(rows)[room.id.value := Some(room.Row())]
    {
      rows := rows[room.id.value := Some(room.Row())];
    }

    /** `delete` of a loaded entity: its row is emptied. */
    method Delete(room: Room)
      requires room.id.Some? && Live(rows, room.id.value)
      modifies this
      ensures rows == old(rows)[room.id.value := None]
    {
      rows := rows[room.id.value := None];
    }
  }

  // ---------------------------------------------------------------------------------
  // The service

  /** The location the three parts stand for: BUILDING-LEVEL-ROOMCODE. */
  function JoinedLocation(building: string, level: string, roomCode: string): string {
    building + "-" + level + "-" + roomCode
  }

  function NotFound(roomId: int): Error {
    BadRequest("Room not found with id: " + NumberText(roomId))
  }

  /** `addRoom` up to the save: the existence check comes first, then the location,
      then the room's own checks; a new room is ACTIVE. */
  function AddDecision(rows: Table, name: Option<string>, building: string, level: string, roomCode: string): (r: Result<RoomRow>)
    ensures var value := JoinedLocation(building, level, roomCode);
      r.Ok? <==> !ExistsAtLocation(rows, value) && MatchesLocationPattern(value) && name.Some? && !IsBlank(name.value)
    ensures r.Ok? ==> r.value == RoomRow(name.value, Catalog.RoomLocation(JoinedLocation(building, level, roomCode)), Active)
    ensures ExistsAtLocation(rows, JoinedLocation(building, level, roomCode)) ==>
      r == Err(BadRequest("Room already exists at location: " + JoinedLocation(building, level, roomCode)))
  {
    var value := JoinedLocation(building, level, roomCode);
    if ExistsAtLocation(rows, value) then Err(BadRequest("Room already exists at location: " + value))
    else
      var location :- Catalog.NewRoomLocation(Some(value));
      if name.None? || IsBlank(name.value) then Err(BadRequest("Room name is required"))
      else Ok(RoomRow(name.value, location, Active))
  }

  /** `addRoom`: a refused room stores nothing; an accepted one is appended. */
  method AddRoom(repo: RoomRepository, name: Option<string>, building: string, level: string, roomCode: string) returns (r: Result<RoomView>)
    modifies repo
    ensures var d := AddDecision(old(repo.rows), name, building, level, roomCode);
      && (r.Ok? <==> d.Ok?)
      && (d.Ok? ==> repo.rows == old(repo.rows) + [Some(d.value)] && r.value == ToView(|old(repo.rows)|, d.value))
      && (d.Err? ==> repo.rows == old(repo.rows) && r.error == d.error)
  {
    var value := JoinedLocation(building, level, roomCode);
    if ExistsAtLocation(repo.rows, value) {
      return Err(BadRequest("Room already exists at location: " + value));
    }
    var location := Catalog.NewRoomLocation(Some(value));
    if location.Err? {
      return Err(location.error);
    }
    var created := NewRoom(name, Some(location.value));
    if created.Err? {
      return Err(created.error);
    }
    var room := created.value;
    repo.Insert(room);
    r := Ok(ToView(room.id.value, room.Row()));
  }

  /** `removeRoom`: an unknown id, then an active room, is refused. */
  function RemoveDecision(rows: Table, roomId: int): (o: Outcome)
    ensures o.Pass? <==> Live(rows, roomId) && rows[roomId].value.status == Inactive
    ensures !Live(rows, roomId) ==> o == Fail(NotFound(roomId))
    ensures Live(rows, roomId) && o.Fail? ==> o == Fail(Conflict("Cannot remove an active room"))
  {
    if !Live(rows, roomId) then Fail(NotFound(roomId))
    else if rows[roomId].value.status == Active then Fail(Conflict("Cannot remove an active room"))
    else
      assert rows[roomId].value.status == Inactive;
      Pass
  }

  method RemoveRoom(repo: RoomRepository, roomId: int) returns (o: Outcome)
    modifies repo
    ensures o == RemoveDecision(old(repo.rows), roomId)
    ensures repo.rows == if o.Pass? then old(repo.rows)[roomId := None] else old(repo.rows)
  {
    var found := repo.FindById(roomId);
    if found.None? {
      return Fail(NotFound(roomId));
    }
    var room := found.value;
    if room.IsActive() {
      return Fail(Conflict("Cannot remove an active room"));
    }
    repo.Delete(room);
    o := Pass;
  }

  /** `activateRoom` (target Active) and `deactivateRoom` (target Inactive): an unknown
      id, then a room already in the target status, is refused. */
  function ToggleDecision(rows: Table, roomId: int, target: RoomStatus): (r: Result<RoomRow>)
    ensures r.Ok? <==> Live(rows, roomId) && rows[roomId].value.status != target
    ensures r.Ok? ==> r.value == rows[roomId].value.(status := target)
    ensures !Live(rows, roomId) ==> r == Err(NotFound(roomId))
    ensures Live(rows, roomId) && r.Err? ==>
      r == Err(Conflict(if target == Active then "Room is already active" else "Room is already inactive"))
  {
    if !Live(rows, roomId) then Err(NotFound(roomId))
    else if rows[roomId].value.status == target then
      Err(Conflict(if target == Active then "Room is already active" else "Room is already inactive"))
    else Ok(rows[roomId].value.(status := target))
  }

  /** The shared body of `activateRoom` and `deactivateRoom`. There is no explicit
      save: the changed entity is written back when the transaction ends. */
  method SetStatus(repo: RoomRepository, roomId: int, target: RoomStatus) returns (r: Result<RoomView>)
    modifies repo
    ensures var d := ToggleDecision(old(repo.rows), roomId, target);
      && (r.Ok? <==> d.Ok?)
      && (d.Ok? ==> repo.rows == old(repo.rows)[roomId := Some(d.value)] && r.value == ToView(roomId, d.value))
      && (d.Err? ==> repo.rows == old(repo.rows) && r.error == d.error)
  {
    var found := repo.FindById(roomId);
    if found.None? {
      return Err(NotFound(roomId));
    }
    var room := found.value;
    var toggled: Outcome;
    if target == Active {
      toggled := room.SetActive();
    } else {
      toggled := room.SetInactive();
    }
    if toggled.Fail? {
      return Err(toggled.error);
    }
    repo.Update(room);
    r := Ok(ToView(roomId, room.Row()));
  }

  method ActivateRoom(repo: RoomRepository, roomId: int) returns (r: Result<RoomView>)
    modifies repo
    ensures var d := ToggleDecision(old(repo.rows), roomId, Active);
      && (r.Ok? <==> d.Ok?)
      && (d.Ok? ==> repo.rows == old(repo.rows)[roomId := Some(d.value)] && r.value == ToView(roomId, d.value))
      && (d.Err? ==> repo.rows == old(repo.rows) && r.error == d.error)
  {
    r := SetStatus(repo, roomId, Active);
  }

  method DeactivateRoom(repo: RoomRepository, roomId: int) returns (r: Result<RoomView>)
    modifies repo
    ensures var d := ToggleDecision(old(repo.rows), roomId, Inactive);
      && (r.Ok? <==> d.Ok?)
      && (d.Ok? ==> repo.rows == old(repo.rows)[roomId := Some(d.value)] && r.value == ToView(roomId, d.value))
      && (d.Err? ==> repo.rows == old(repo.rows) && r.error == d.error)
  {
    r := SetStatus(repo, roomId, Inactive);
  }

  // ---------------------------------------------------------------------------------
  // Properties of the service

  /** A location already in the registry is refused before anything else is checked. */
  lemma ExistingLocationIsRefused(rows: Table, name: Option<string>, building: string, level: string, roomCode: string, i: int)
    requires Live(rows, i) && rows[i].value.location.value == JoinedLocation(building, level, roomCode)
    ensures AddDecision(rows, name, building, level, roomCode).Err?
  {
  }

  /** Because `addRoom` checks the location first and nothing else changes a location,
      every operation keeps locations unique. */
  lemma OperationsKeepLocationsUnique(rows: Table, name: Option<string>, building: string, level: string, roomCode: string, roomId: int, target: RoomStatus)
    requires UniqueLocations(rows)
    ensures var d := AddDecision(rows, name, building, level, roomCode);
      d.Ok? ==> UniqueLocations(rows + [Some(d.value)])
    ensures RemoveDecision(rows, roomId).Pass? ==> UniqueLocations(rows[roomId := None])
    ensures var d := ToggleDecision(rows, roomId, target);
      d.Ok? ==> UniqueLocations(rows[roomId := Some(d.value)])
  {
    var a := AddDecision(rows, name, building, level, roomCode);
    if a.Ok? {
      var after := rows + [Some(a.value)];
      forall i, j | Live(after, i) && Live(after, j) && after[i].value.location == after[j].value.location
        ensures i == j
      {
        if i < |rows| && j < |rows| {
          assert Live(rows, i) && Live(rows, j);
        }
      }
    }
    if RemoveDecision(rows, roomId).Pass? {
      var after := rows[roomId := None];
      forall i, j | Live(after, i) && Live(after, j) && after[i].value.location == after[j].value.location
        ensures i == j
      {
        assert Live(rows, i) && Live(rows, j);
      }
    }
    var t := ToggleDecision(rows, roomId, target);
    if t.Ok? {
      var after := rows[roomId := Some(t.value)];
      forall i, j | Live(after, i) && Live(after, j) && after[i].value.location == after[j].value.location
        ensures i == j
      {
        assert Live(rows, i) && Live(rows, j);
      }
    }
  }

  /** Deactivating an active room and activating it again gives back the same table. */
  lemma DeactivateThenActivateRestores(rows: Table, roomId: int)
    requires Live(rows, roomId) && rows[roomId].value.status == Active
    ensures var d := ToggleDecision(rows, roomId, Inactive);
      && d.Ok?
      && var after := rows[roomId := Some(d.value)];
         var e := ToggleDecision(after, roomId, Active);
         e.Ok? && after[roomId := Some(e.value)] == rows
  {
  }
}
