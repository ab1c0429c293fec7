/**
 * One tracking session ("record"): its metadata, the ordered list of
 * waypoints accepted into it, and the running distance and average speed.
 * The store is abstract: instance methods receive the store's replies
 * (the id a new row got, the number of rows an update or delete affected)
 * as parameters; the static queries read a Store value holding both tables.
 */
module Records {
  import opened Wrappers
  import opened Arith
  import opened Geo
  import opened Rows

  /** A record's fields as a value: its row, whether it is saved, its last location, its waypoints, and the ghost history. */
  datatype Snapshot = Snapshot(row: RecordRow, saved: bool, lastLoc: Option<Loc>, waypoints: seq<Waypoint>,
                               accepted: seq<Loc>, baseDistance: real)

  /** `s` is what `queryDB` materialises for `id` from `store`. */
  ghost predicate IsLoaded(s: Snapshot, store: Store, id: int)
  {
    && |Matching(store.records, id)| == 1
    && s.row == Matching(store.records, id)[0]
    && s.saved && s.lastLoc == None && s.accepted == [] && s.baseDistance == s.row.distance
    && s.waypoints == WaypointQuery(store.waypoints, id)
  }

  /** Each of `states` is what `queryDB` materialises for the id at the same position among the first `n` of `ids`. */
  ghost predicate EachLoaded(states: seq<Snapshot>, store: Store, ids: seq<int>, n: nat)
  {
    |states| == n <= |ids| && forall k :: 0 <= k < n ==> IsLoaded(states[k], store, ids[k])
  }

  /** A load that succeeds for the next id extends a run of successful loads. */
  lemma EachLoadedAppend(states: seq<Snapshot>, s: Snapshot, store: Store, ids: seq<int>, n: nat)
    requires EachLoaded(states, store, ids, n) && n < |ids| && IsLoaded(s, store, ids[n])
    ensures EachLoaded(states + [s], store, ids, n + 1)
  {
    var extended := states + [s];
    forall k | 0 <= k < n + 1 ensures IsLoaded(extended[k], store, ids[k]) {
      if k < n {
        assert extended[k] == states[k];
      } else {
        assert extended[k] == s;
      }
    }
  }

  /** The exceptions the record's operations raise. */
  datatype Failure = IndexOutOfBounds | IllegalArgument

  class Record {
    /** Whether the record row exists in the store (`recordUrl != null`). */
    var saved: bool
    var recordId: int
    const profile: string
    var startTime: int
    var endTime: int
    var avarageSpeed: Speed
    var distance: real
    var waypoints: seq<Waypoint>
    var comment: string
    var lastLoc: Option<Loc>
    /** The platform's `Location.distanceTo`. */
    const dist: Metric

    /** Every location accepted since the record was created or loaded, in order. */
    ghost var accepted: seq<Loc>
    /** The distance the record held when it was created or loaded. */
    ghost var baseDistance: real

    /**
     * The record's invariant: an unsaved record has id 0 and so has every
     * waypoint it holds; `lastLoc` is the last accepted location; the
     * distance grew by exactly the path through the accepted locations; and
     * once two locations were accepted the speed is the distance per whole
     * elapsed second.
     */
    ghost predicate Valid()
      reads this
    {
      && (!saved ==> recordId == 0 && forall k :: 0 <= k < |waypoints| ==> waypoints[k].recordId == 0)
      && lastLoc == (if accepted == [] then None else Some(accepted[|accepted| - 1]))
      && distance == baseDistance + PathLength(accepted, dist)
      && (|accepted| >= 2 ==> avarageSpeed == AverageSpeed(distance, startTime, endTime))
    }

    /** The record-table row `updateDB` writes: the metadata columns under the record's id. */
    function Values(): RecordRow
      reads this
    {
      RecordRow(recordId, profile, startTime, endTime, distance, avarageSpeed, comment)
    }

    /** The record's fields as one value. */
    ghost function State(): Snapshot
      reads this
    {
      Snapshot(Values(), saved, lastLoc, waypoints, accepted, baseDistance)
    }

    /**
     * The record is what `queryDB` materialises for `id` from `store`: the
     * columns of the one matching row, saved, no last location, and the
     * waypoints filed under the id in time order.
     */
    ghost predicate LoadedFrom(store: Store, id: int)
      reads this
      ensures LoadedFrom(store, id) ==> Valid()
    {
      IsLoaded(State(), store, id)
    }

    /** A new record starting at `time`; nothing is written to the store yet. */
    constructor (profile: string, time: int, dist: Metric)
      ensures Valid()
      ensures this.profile == profile && this.dist == dist
      ensures startTime == time && endTime == time
      ensures distance == 0.0 && avarageSpeed == Finite(0.0) && comment == ""
      ensures waypoints == [] && recordId == 0 && lastLoc == None && !saved
      ensures accepted == [] && baseDistance == 0.0
    {
      this.profile := profile;
      this.dist := dist;
      saved := false;
      recordId := 0;
      startTime := time;
      endTime := time;
      avarageSpeed := Finite(0.0);
      distance := 0.0;
      waypoints := [];
      comment := "";
      lastLoc := None;
      accepted := [];
      baseDistance := 0.0;
    }

    /**
     * The record `queryDB` materialises from a stored row and its waypoints:
     * saved, with no last location. (The Java code constructs a fresh record
     * and overwrites its fields; the clock reading it takes is discarded.)
     */
    constructor Restore(row: RecordRow, waypoints: seq<Waypoint>, dist: Metric)
      ensures Valid()
      ensures Values() == row && saved && lastLoc == None && this.waypoints == waypoints && this.dist == dist
    {
      profile := row.profile;
      this.dist := dist;
      saved := true;
      recordId := row.id;
      startTime := row.startTime;
      endTime := row.endTime;
      avarageSpeed := row.avarageSpeed;
      distance := row.distance;
      this.waypoints := waypoints;
      comment := row.comment;
      lastLoc := None;
      accepted := [];
      baseDistance := row.distance;
    }

    /**
     * Files `location` as a waypoint under the current record id and, if the
     * store accepted it (`insertedId != 0`), appends it and updates the
     * aggregates, then saves the metadata. `now` is the clock reading;
     * `freshId` is the id the store gives the record row should this call
     * insert it; `updatedRows` is the store's reply to the metadata update.
     */
    method AddWaypoint(location: Loc, now: int, insertedId: int, freshId: int, updatedRows: int)
      returns (ok: bool)
      requires Valid()
      modifies this`waypoints, this`endTime, this`distance, this`avarageSpeed, this`lastLoc, this`accepted
      modifies this`saved, this`recordId
      ensures Valid()
      ensures insertedId == 0 ==> !ok && unchanged(this)
      ensures insertedId != 0 ==> ok == (updatedRows == 1)
      ensures insertedId != 0 ==> waypoints == old(waypoints) + [Waypoint(old(recordId), insertedId, location)]
      ensures insertedId != 0 ==> endTime == now && lastLoc == Some(location) && accepted == old(accepted) + [location]
      ensures insertedId != 0 ==>
        distance == if old(lastLoc).None? then old(distance) else old(distance) + dist(old(lastLoc).value, location)
      ensures insertedId != 0 ==>
        avarageSpeed == if old(lastLoc).None? then old(avarageSpeed) else AverageSpeed(distance, startTime, now)
      ensures insertedId != 0 ==> saved && recordId == if old(saved) then old(recordId) else freshId
      ensures distance >= old(distance)
    {
      var waypoint := Waypoint(recordId, insertedId, location);
      if insertedId != 0 {
        waypoints := waypoints + [waypoint];
        endTime := now;
        if lastLoc.Some? {
          PathLengthExtend(accepted, location, dist);
          distance := distance + dist(lastLoc.value, location);
          avarageSpeed := AverageSpeed(distance, startTime, endTime);
        }
        lastLoc := Some(location);
        accepted := accepted + [location];
        var n := UpdateDB(freshId, updatedRows);
        ok := n == 1;
      } else {
        ok := false;
      }
    }

    /** `getWaypointsCount`: the length of the in-memory list. */
    function WaypointsCount(): (n: nat)
      reads this
      ensures n == |waypoints|
    {
      |waypoints|
    }

    /** `getWaypoint`: the waypoint at `index`, or the exception `ArrayList.get` raises. */
    function GetWaypoint(index: int): (r: Result<Waypoint, Failure>)
      reads this
      ensures r.Ok? <==> 0 <= index < |waypoints|
      ensures r.Ok? ==> r.value == waypoints[index]
      ensures r.Err? ==> r.error == IndexOutOfBounds
    {
      if 0 <= index < |waypoints| then Ok(waypoints[index]) else Err(IndexOutOfBounds)
    }

    /**
     * Asks the store to delete the waypoint at `index` (by its own record id
     * and waypoint id); `deletedRows` is the store's reply. The entry leaves
     * the list only when exactly one row was deleted. The aggregates are
     * left as they are.
     */
    method DeleteWaypoint(index: int, deletedRows: int) returns (r: Result<bool, Failure>)
      requires Valid()
      modifies this`waypoints
      ensures Valid()
      ensures !(0 <= index < |old(waypoints)|) ==> r == Err(IndexOutOfBounds) && waypoints == old(waypoints)
      ensures 0 <= index < |old(waypoints)| ==> r == Ok(deletedRows == 1)
      ensures 0 <= index < |old(waypoints)| ==>
        waypoints == if deletedRows == 1 then RemoveAt(old(waypoints), index) else old(waypoints)
    {
      if !(0 <= index < |waypoints|) {
        return Err(IndexOutOfBounds);
      }
      if deletedRows == 1 {
        waypoints := RemoveAt(waypoints, index);
        r := Ok(true);
      } else {
        r := Ok(false);
      }
    }

    /** `insertDB`: inserts the record row; the store's reply assigns the record id. */
    method InsertDB(freshId: int)
      requires Valid()
      modifies this`saved, this`recordId
      ensures Valid()
      ensures saved && recordId == freshId
    {
      saved := true;
      recordId := freshId;
    }

    /**
     * `updateDB`: writes `Values()` to the record row, inserting the row
     * first when the record is unsaved; returns the store's count of
     * updated rows.
     */
    method UpdateDB(freshId: int, updatedRows: int) returns (n: int)
      requires Valid()
      modifies this`saved, this`recordId
      ensures Valid()
      ensures saved
      ensures recordId == if old(saved) then old(recordId) else freshId
      ensures n == updatedRows
    {
      if !saved {
        InsertDB(freshId);
      }
      n := updatedRows;
    }

    /**
     * `queryDB(recordId)`: loads the one record row with this id and its
     * waypoints in time order; fails unless exactly one row matches.
     */
    static method QueryById(store: Store, id: int, dist: Metric) returns (r: Result<Record, Failure>)
      ensures r.Err? <==> |Matching(store.records, id)| != 1
      ensures r.Err? ==> r.error == IllegalArgument
      ensures r.Ok? ==> fresh(r.value) && r.value.dist == dist && r.value.LoadedFrom(store, id)
    {
      var rows := Matching(store.records, id);
      if |rows| != 1 {
        return Err(IllegalArgument);
      }
      var row := rows[0];
      var record := new Record.Restore(row, WaypointQuery(store.waypoints, id), dist);
      r := Ok(record);
    }

    /**
     * `queryDB(selection, ...)`: loads one record per id the store's cursor
     * yields, in cursor order; a failing load fails the whole query.
     */
    static method Query(store: Store, ids: seq<int>, dist: Metric) returns (r: Result<seq<Record>, Failure>)
      ensures r.Err? <==> exists k :: 0 <= k < |ids| && |Matching(store.records, ids[k])| != 1
      ensures r.Err? ==> r.error == IllegalArgument
      ensures r.Ok? ==> |r.value| == |ids|
      ensures r.Ok? ==> forall k :: 0 <= k < |ids| ==>
        fresh(r.value[k]) && r.value[k].dist == dist && r.value[k].LoadedFrom(store, ids[k])
    {
      var records: seq<Record> := [];
      ghost var states: seq<Snapshot> := [];
      var i := 0;
      while i < |ids|
        invariant 0 <= i <= |ids|
        invariant |records| == i && |states| == i
        invariant forall k :: 0 <= k < i ==> fresh(records[k]) && records[k].dist == dist && records[k].State() == states[k]
        invariant EachLoaded(states, store, ids, i)
      {
        var loaded := QueryById(store, ids[i], dist);
        if loaded.Err? {
          return Err(IllegalArgument);
        }
        EachLoadedAppend(states, loaded.value.State(), store, ids, i);
        records := records + [loaded.value];
        states := states + [loaded.value.State()];
        i := i + 1;
      }
      r := Ok(records);
    }

    /**
     * `deleteDB(recordId)`: deletes the record rows with this id and, only
     * when exactly one was deleted, every waypoint filed under the id.
     */
    static function DeleteById(store: Store, id: int): (r: (bool, Store))
      ensures r.0 <==> |Matching(store.records, id)| == 1
      ensures forall row :: multiset(r.1.records)[row] == if row.id == id then 0 else multiset(store.records)[row]
      ensures r.0 ==> forall w :: multiset(r.1.waypoints)[w] == if w.recordId == id then 0 else multiset(store.waypoints)[w]
      ensures !r.0 ==> r.1.waypoints == store.waypoints
      ensures Matching(r.1.records, id) == []
    {
      var deleted := |Matching(store.records, id)|;
      var records := Filter(store.records, (row: RecordRow) => row.id != id);
      NoneMatching(records, id);
      if deleted == 1 then (true, Store(records, Filter(store.waypoints, (w: Waypoint) => w.recordId != id)))
      else (false, Store(records, store.waypoints))
    }
  }
}
