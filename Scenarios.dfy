/** Client runs of a record, derived from the contracts of its operations alone. */
module Scenarios {
  import opened Arith
  import opened Geo
  import opened Rows
  import opened Records

  /**
   * A record started at 1000 ms takes a fix at 1000 ms and another at
   * 1100 ms. The first fix leaves distance and speed at 0; the second adds
   * its step, but only 100 ms have passed, so the speed divides by zero
   * whole seconds.
   */
  method TwoFixesWithinOneSecond(a: Loc, b: Loc, dist: Metric, idA: int, idB: int, recordId: int)
    returns (distance1: real, speed1: Speed, count1: nat, distance2: real, speed2: Speed, count2: nat)
    requires idA != 0 && idB != 0
    ensures distance1 == 0.0 && speed1 == Finite(0.0) && count1 == 1
    ensures distance2 == dist(a, b) && count2 == 2
    ensures speed2 == if dist(a, b) > 0.0 then PosInfinity else NaN
  {
    var record := new Record("cycling", 1000, dist);
    var ok := record.AddWaypoint(a, 1000, idA, recordId, 1);
    distance1, speed1, count1 := record.distance, record.avarageSpeed, record.WaypointsCount();
    ok := record.AddWaypoint(b, 1100, idB, recordId, 1);
    distance2, speed2, count2 := record.distance, record.avarageSpeed, record.WaypointsCount();
  }

  /** The same run with the second fix 100 s after the start: a finite speed in metres per second. */
  method TwoFixesHundredSecondsApart(a: Loc, b: Loc, dist: Metric, idA: int, idB: int, recordId: int)
    returns (distance: real, speed: Speed)
    requires idA != 0 && idB != 0
    ensures distance == dist(a, b)
    ensures speed == Finite(dist(a, b) / 100.0)
  {
    var record := new Record("cycling", 1000, dist);
    var ok := record.AddWaypoint(a, 1000, idA, recordId, 1);
    ok := record.AddWaypoint(b, 101000, idB, recordId, 1);
    assert TruncDiv(101000 - 1000, MillisPerSecond) == 100;
    distance, speed := record.distance, record.avarageSpeed;
  }

  /**
   * A record created at 0 ms takes a fix at 0 ms and another at 2000 ms. The
   * first waypoint is filed under record id 0, because the record row is
   * inserted only afterwards; the second carries the id the insert assigned.
   */
  method TwoFixesOfNewRecord(a: Loc, b: Loc, dist: Metric, idA: int, idB: int, recordId: int)
    returns (record: Record)
    requires idA != 0 && idB != 0
    ensures fresh(record) && record.Valid() && record.saved && record.recordId == recordId
    ensures record.waypoints == [Waypoint(0, idA, a), Waypoint(recordId, idB, b)]
  {
    record := new Record("walking", 0, dist);
    var ok := record.AddWaypoint(a, 0, idA, recordId, 1);
    ok := record.AddWaypoint(b, 2000, idB, recordId, 1);
  }

  /**
   * Deleting the record of `TwoFixesOfNewRecord` by its id cascades to the
   * second waypoint only: the first, filed under id 0, stays in the store.
   */
  method FirstWaypointOfUnsavedRecord(a: Loc, b: Loc, dist: Metric, idA: int, idB: int, recordId: int)
    returns (firstOwner: int, secondOwner: int, survivors: seq<Waypoint>)
    requires idA != 0 && idB != 0 && recordId != 0
    ensures firstOwner == 0 && secondOwner == recordId
    ensures multiset(survivors) == multiset{Waypoint(0, idA, a)}
  {
    var record := TwoFixesOfNewRecord(a, b, dist, idA, idB, recordId);
    var filed := record.waypoints;
    firstOwner, secondOwner := filed[0].recordId, filed[1].recordId;
    var row := record.Values();
    assert Matching([row], recordId) == [row];
    var deleted := Record.DeleteById(Store([row], filed), recordId);
    survivors := deleted.1.waypoints;
    assert multiset(filed) == multiset{Waypoint(0, idA, a)} + multiset{Waypoint(recordId, idB, b)};
  }

  /**
   * A saved record whose row and waypoints are in the store loads back with
   * the same columns. Its waypoints are those filed under its id, in time
   * order: any waypoint of the in-memory list filed under another id (such as
   * id 0) is not loaded.
   */
  method ReloadAfterSave(record: Record) returns (loaded: Record)
    requires record.Valid() && record.saved
    ensures loaded.Values() == record.Values()
    ensures loaded.waypoints == WaypointQuery(record.waypoints, record.recordId)
    ensures forall w :: w in loaded.waypoints <==> w in record.waypoints && w.recordId == record.recordId
  {
    var row := record.Values();
    assert Matching([row], record.recordId) == [row];
    var r := Record.QueryById(Store([row], record.waypoints), record.recordId, record.dist);
    loaded := r.value;
  }

  /**
   * The record of `TwoFixesOfNewRecord`, loaded back from the store, lacks
   * its first waypoint: it was filed under id 0.
   */
  method FirstWaypointLostOnReload(a: Loc, b: Loc, dist: Metric, idA: int, idB: int, recordId: int)
    returns (inMemory: nat, loadedCount: nat, loadedWaypoints: seq<Waypoint>)
    requires idA != 0 && idB != 0 && recordId != 0
    ensures inMemory == 2 && loadedCount == 1
    ensures multiset(loadedWaypoints) == multiset{Waypoint(recordId, idB, b)}
  {
    var record := TwoFixesOfNewRecord(a, b, dist, idA, idB, recordId);
    var filed := record.waypoints;
    inMemory := record.WaypointsCount();
    var loaded := ReloadAfterSave(record);
    loadedWaypoints := loaded.waypoints;
    assert multiset(filed) == multiset{Waypoint(0, idA, a)} + multiset{Waypoint(recordId, idB, b)};
    assert multiset(loadedWaypoints) == multiset{Waypoint(recordId, idB, b)};
    loadedCount := |loadedWaypoints|;
  }

  /** Saving twice inserts the record row once: the second save keeps the first id. */
  method SaveTwice(dist: Metric, freshA: int, freshB: int, rowsA: int, rowsB: int)
    returns (idAfterFirst: int, idAfterSecond: int)
    ensures idAfterFirst == freshA && idAfterSecond == freshA
  {
    var record := new Record("running", 0, dist);
    var n := record.UpdateDB(freshA, rowsA);
    idAfterFirst := record.recordId;
    n := record.UpdateDB(freshB, rowsB);
    idAfterSecond := record.recordId;
  }
}
