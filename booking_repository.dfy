/** The booking table of the reservation context
    (reservation/booking/domain/BookingRepository.java): its JPQL overlap query and
    derived finders as functions over the stored rows, and the repository itself as
    a table of rows that loads fresh entities and writes them back. A booking's
    generated id is the position of its row. */
module BookingStore {
  import opened Outcomes
  import opened Text
  import opened Clock
  import opened BookingDomain

  // ---------------------------------------------------------------------------------
  // Queries over the rows

  /** The where-clause of `existsOverlappingBooking`: same room, a status from the
      given set, and a stored range that starts before `endTime` and ends after
      `startTime`. */
  predicate OverlapsRequest(row: BookingRow, roomId: int, startTime: DateTime, endTime: DateTime, statuses: set<BookingStatus>) {
    && row.roomId == roomId
    && row.status in statuses
    && IsBefore(row.timeRange.startTime, endTime)
    && IsAfter(row.timeRange.endTime, startTime)
  }

  /** `existsOverlappingBooking`: `count(b) > 0` over the first `n` rows. */
  function ExistsOverlappingUpTo(rows: seq<BookingRow>, n: nat, roomId: int, startTime: DateTime, endTime: DateTime, statuses: set<BookingStatus>): (b: bool)
    requires n <= |rows|
    ensures b <==> exists i :: 0 <= i < n && OverlapsRequest(rows[i], roomId, startTime, endTime, statuses)
  {
    if n == 0 then false
    else (ExistsOverlappingUpTo(rows, n - 1, roomId, startTime, endTime, statuses)
      || OverlapsRequest(rows[n - 1], roomId, startTime, endTime, statuses))
  }

  function ExistsOverlappingBooking(rows: seq<BookingRow>, roomId: int, startTime: DateTime, endTime: DateTime, statuses: set<BookingStatus>): bool {
    ExistsOverlappingUpTo(rows, |rows|, roomId, startTime, endTime, statuses)
  }

  /** A stored booking that only touches the requested range, ending at its start or
      starting at its end, never counts. */
  lemma TouchingRangesNeverOverlap(row: BookingRow, roomId: int, startTime: DateTime, endTime: DateTime, statuses: set<BookingStatus>)
    requires row.timeRange.endTime == startTime || row.timeRange.startTime == endTime
    ensures !OverlapsRequest(row, roomId, startTime, endTime, statuses)
  {
  }

  /** With `blockingStatuses` passed, a finished booking never counts, and the query
      is the domain's `overlaps` between the stored range and the requested one. */
  lemma BlockingQueryIsOverlaps(row: BookingRow, roomId: int, range: TimeRange)
    ensures OverlapsRequest(row, roomId, range.startTime, range.endTime, BlockingStatuses())
      <==> row.roomId == roomId && !IsTerminal(row.status) && Overlaps(row.timeRange, range)
  {
  }

  /** The derived finders of the repository. */
  datatype Finder =
    | StatusAndStartAtMost(status: BookingStatus, startTime: DateTime)  // findByStatusAndTimeRangeStartTimeLessThanEqual
    | StatusAndEndAtMost(status: BookingStatus, endTime: DateTime)      // findByStatusAndTimeRangeEndTimeLessThanEqual
    | RoomIs(roomId: int)                                                // findByRoomId
    | Everything                                                         // findAll

  predicate Selects(q: Finder, row: BookingRow) {
    match q
    case StatusAndStartAtMost(status, t) => row.status == status && !IsAfter(row.timeRange.startTime, t)
    case StatusAndEndAtMost(status, t) => row.status == status && !IsAfter(row.timeRange.endTime, t)
    case RoomIs(roomId) => row.roomId == roomId
    case Everything => true
  }

  /** The ids of the rows among the first `n` that a finder returns, in table order:
      exactly the selected ones, each once. */
  function FoundIdsUpTo(rows: seq<BookingRow>, n: nat, q: Finder): (ids: seq<nat>)
    requires n <= |rows|
    ensures forall k :: 0 <= k < |ids| ==> ids[k] < n && Selects(q, rows[ids[k]])
    ensures forall i :: 0 <= i < n && Selects(q, rows[i]) ==> i in ids
    ensures StrictlyIncreasing(ids)
  {
    if n == 0 then []
    else
      var init := FoundIdsUpTo(rows, n - 1, q);
      if Selects(q, rows[n - 1]) then
        AppendAboveKeepsIncreasing(init, n - 1);
        init + [n - 1]
      else init
  }

  function FoundIds(rows: seq<BookingRow>, q: Finder): seq<nat> {
    FoundIdsUpTo(rows, |rows|, q)
  }

  /** `findAll` returns every row once, in order. */
  lemma {:induction false} FindAllIsEveryId(rows: seq<BookingRow>, n: nat)
    requires n <= |rows|
    ensures |FoundIdsUpTo(rows, n, Everything)| == n
    ensures forall k :: 0 <= k < n ==> FoundIdsUpTo(rows, n, Everything)[k] == k
  {
    if n > 0 {
      var init := FoundIdsUpTo(rows, n - 1, Everything);
      FindAllIsEveryId(rows, n - 1);
      assert Selects(Everything, rows[n - 1]);
      assert FoundIdsUpTo(rows, n, Everything) == init + [n - 1];
      assert forall k :: 0 <= k < n - 1 ==> (init + [n - 1])[k] == init[k];
    }
  }

  // ---------------------------------------------------------------------------------
  // The repository

  class BookingRepository {
    var rows: seq<BookingRow>

    constructor ()
      ensures rows == []
    {
      rows := [];
    }

    /** `findById`: a fresh entity loaded from the row, or none. */
    method FindById(id: int) returns (r: Option<Booking>)
      ensures r.Some? <==> 0 <= id < |rows|
      ensures r.Some? ==> fresh(r.value) && r.value.id == Some(id) && r.value.Row() == rows[id]
    {
      if 0 <= id < |rows| {
        var b := new Booking.Of(Some(id), rows[id]);
        return Some(b);
      }
      return None;
    }

    /** A derived finder: one fresh, distinct entity per selected row, in table order. */
    method Find(q: Finder) returns (found: seq<Booking>)
      ensures |found| == |FoundIds(rows, q)|
      ensures forall k :: 0 <= k < |found| ==>
        fresh(found[k]) && found[k].id == Some(FoundIds(rows, q)[k]) && found[k].Row() == rows[FoundIds(rows, q)[k]]
      ensures forall j, k :: 0 <= j < k < |found| ==> found[j] != found[k]
    {
      var ids := FoundIds(rows, q);
      found := [];
      var k := 0;
      while k < |ids|
        invariant 0 <= k <= |ids| && |found| == k
        invariant forall j :: 0 <= j < k ==>
          fresh(found[j]) && found[j].id == Some(ids[j]) && found[j].Row() == rows[ids[j]]
        invariant forall i, j :: 0 <= i < j < k ==> found[i] != found[j]
      {
        var b := new Booking.Of(Some(ids[k]), rows[ids[k]]);
        found := found + [b];
        k := k + 1;
      }
    }

    /** `save`: an entity without an id (or with one no row has) is inserted under the
        next id, which it receives; an entity with a stored id overwrites that row. */
    method Save(b: Booking)
      modifies this, b`id
      ensures if old(b.id).Some? && old(b.id).value < old(|rows|)
        then rows == old(rows)[old(b.id).value := b.Row()] && b.id == old(b.id)
        else rows == old(rows) + [b.Row()] && b.id == Some(old(|rows|))
    {
      if b.id.Some? && b.id.value < |rows| {
        rows := rows[b.id.value := b.Row()];
      } else {
        b.id := Some(|rows|);
        rows := rows + [b.Row()];
      }
    }

    /** `saveAll` of entities loaded from this table: each one's row is overwritten and
        every other row is kept. */
    method SaveAll(bs: seq<Booking>)
      requires forall k :: 0 <= k < |bs| ==> bs[k].id.Some? && bs[k].id.value < |rows|
      requires forall j, k :: 0 <= j < k < |bs| ==> bs[j].id != bs[k].id
      modifies this
      ensures |rows| == old(|rows|)
      ensures forall k :: 0 <= k < |bs| ==> rows[bs[k].id.value] == bs[k].Row()
      ensures forall i :: 0 <= i < |rows| && (forall k :: 0 <= k < |bs| ==> bs[k].id != Some(i)) ==> rows[i] == old(rows)[i]
    {
      var k := 0;
      while k < |bs|
        invariant 0 <= k <= |bs| && |rows| == old(|rows|)
        invariant forall j :: 0 <= j < k ==> rows[bs[j].id.value] == bs[j].Row()
        invariant forall i :: 0 <= i < |rows| && (forall j :: 0 <= j < k ==> bs[j].id != Some(i)) ==> rows[i] == old(rows)[i]
      {
        rows := rows[bs[k].id.value := bs[k].Row()];
        k := k + 1;
      }
    }
  }
}
