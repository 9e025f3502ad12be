/** How the catalog and the reservation context's copy of it stay in step: the
    reservation table is meant to hold, under each live catalog id, the room's profile
    with its type and status as enum names. Each catalog operation publishes one event
    (catalog/application/CatalogManagement.java), and the matching handler
    (reservation/rooms/application/RoomManagement.java) carries the copy along. */
module CatalogProjection {
  import opened Outcomes
  import opened Text
  import opened LocationPattern
  import opened CatalogEvents
  import opened Catalog
  import Rooms = ReservationRooms

  /** The reservation row a catalog row should appear as. */
  function ProjectedRow(row: CatalogRow): Rooms.RoomRow {
    Rooms.RoomRow(
      Rooms.RoomProfile(row.profile.name, Rooms.RoomLocation(row.profile.roomLocation.value), RoomTypeName(row.profile.roomType)),
      StatusName(row.operationalStatus))
  }

  /** The reservation table that mirrors a catalog table: one row per live room. */
  function Projection(rows: Table): (p: map<int, Rooms.RoomRow>)
    ensures forall id :: id in p <==> Live(rows, id)
    ensures forall id :: id in p ==> Live(rows, id) && p[id] == ProjectedRow(rows[id].value)
  {
    map id | 0 <= id < |rows| && rows[id].Some? :: ProjectedRow(rows[id].value)
  }

  /** A catalog room with a valid profile passes every check of the reservation side. */
  lemma ProjectedRowIsValid(row: CatalogRow)
    requires ValidProfile(row.profile)
    ensures Rooms.ValidRow(ProjectedRow(row))
  {
    BlankLocationNeverMatches(row.profile.roomLocation.value);
    EnumNamesIdentifyConstants(row.profile.roomType, row.profile.roomType, row.operationalStatus, row.operationalStatus);
  }

  /** The reservation side reads the projected status as the catalog meant it: a
      room counts as disabled there exactly when it is disabled in the catalog. */
  lemma ProjectedStatusAgrees(s: OperationalStatus)
    ensures Rooms.IsDisabled(StatusName(s)) <==> s == Disabled
    ensures Rooms.IsEnabled(StatusName(s)) <==> s == Enabled
  {
    if s == Enabled {
      assert !CharEqualsIgnoreCase("DISABLED"[0], StatusName(s)[0]);
    } else {
      assert !CharEqualsIgnoreCase("ENABLED"[0], StatusName(s)[0]);
    }
  }

  /** `addRoom` followed by the handler of its RoomAddedToCatalog keeps the copy in
      step. */
  lemma AddRoomKeepsProjection(rows: Table, name: Option<string>, location: Option<string>, roomType: Option<RoomType>)
    requires AddDecision(rows, name, location, roomType).Ok?
    ensures var row := AddDecision(rows, name, location, roomType).value;
      Rooms.RoomAddedEffect(Projection(rows), AddedEvent(|rows|, row).added) == Ok(Projection(rows + [Some(row)]))
  {
    var row := AddDecision(rows, name, location, roomType).value;
    var e := AddedEvent(|rows|, row).added;
    ProjectedRowIsValid(row);
    var before := Projection(rows);
    assert Rooms.RoomAddedEffect(before, e) == Ok(before[|rows| := ProjectedRow(row)]);
    ProjectionOfAppend(rows, row);
  }

  /** Appending a row to the catalog adds exactly its projection, under its id. */
  lemma ProjectionOfAppend(rows: Table, row: CatalogRow)
    ensures Projection(rows + [Some(row)]) == Projection(rows)[|rows| := ProjectedRow(row)]
  {
    var before := Projection(rows);
    var after := Projection(rows + [Some(row)]);
    var expected := before[|rows| := ProjectedRow(row)];
    forall id | id in after ensures id in expected && after[id] == expected[id] {
      if id < |rows| {
        assert (rows + [Some(row)])[id] == rows[id];
        assert Live(rows, id);
      }
    }
    forall id | id in expected ensures id in after {
      if id < |rows| {
        assert (rows + [Some(row)])[id] == rows[id];
      }
    }
    assert after == expected;
  }

  /** `enableRoom`/`disableRoom` followed by the handler of its
      RoomOperationalStatusChanged keeps the copy in step. */
  lemma SetStatusKeepsProjection(rows: Table, roomId: int, target: OperationalStatus)
    requires ToggleDecision(rows, roomId, target).Ok?
    ensures var row := ToggleDecision(rows, roomId, target).value;
      Rooms.StatusChangedEffect(Projection(rows), StatusEvent(roomId, target).changed) == Ok(Projection(rows[roomId := Some(row)]))
  {
    var row := ToggleDecision(rows, roomId, target).value;
    var before := Projection(rows);
    var after := Projection(rows[roomId := Some(row)]);
    EnumNamesIdentifyConstants(row.profile.roomType, row.profile.roomType, target, target);
    var expected := before[roomId := before[roomId].(operationalStatus := StatusName(target))];
    forall id | id in after ensures id in expected && after[id] == expected[id] {
      assert Live(rows, id);
    }
    assert expected == after;
  }

  /** `removeRoom` followed by the handler of its RoomRemovedFromCatalog keeps the copy
      in step. */
  lemma RemoveRoomKeepsProjection(rows: Table, roomId: int)
    requires RemoveDecision(rows, roomId).Pass?
    ensures Projection(rows[roomId := None]) == Projection(rows) - {RoomRemovedFromCatalog(roomId).roomId}
  {
    var before := Projection(rows);
    var after := Projection(rows[roomId := None]);
    forall id | id in before - {roomId} ensures id in after {
      assert Live(rows[roomId := None], id);
    }
    assert after == before - {roomId};
  }
}
