/** Rows of the two store tables, and the queries over them that the record relies on. */
module Rows {
  import opened Arith
  import opened Geo

  /** A stored position sample: the record it was filed under, the id the store gave it, and the fix. */
  datatype Waypoint = Waypoint(recordId: int, waypointId: int, location: Loc)

  /** A row of the record table: the columns `updateDB` writes, keyed by `id`. */
  datatype RecordRow = RecordRow(id: int, profile: string, startTime: int, endTime: int,
                                 distance: real, avarageSpeed: Speed, comment: string)

  /** The content of the store: the record table and the waypoint table, in cursor order. */
  datatype Store = Store(records: seq<RecordRow>, waypoints: seq<Waypoint>)

  /** The elements of `s` that `keep` accepts, in their order in `s`. */
  function Filter<T(!new)>(s: seq<T>, keep: T -> bool): (r: seq<T>)
    ensures forall x :: multiset(r)[x] == if keep(x) then multiset(s)[x] else 0
    ensures forall x :: x in r <==> x in s && keep(x)
    ensures |r| <= |s|
  {
    if s == [] then []
    else
      assert s == [s[0]] + s[1..];
      (if keep(s[0]) then [s[0]] else []) + Filter(s[1..], keep)
  }

  /** The record rows a query by `id` matches, in table order, each as often as the table holds it. */
  function Matching(rows: seq<RecordRow>, id: int): (r: seq<RecordRow>)
    ensures forall row :: multiset(r)[row] == if row.id == id then multiset(rows)[row] else 0
    ensures forall row :: row in r <==> row in rows && row.id == id
  {
    Filter(rows, (row: RecordRow) => row.id == id)
  }

  /** A table without a row for `id` answers a query by `id` with no rows. */
  lemma NoneMatching(rows: seq<RecordRow>, id: int)
    requires forall row :: row in rows ==> row.id != id
    ensures Matching(rows, id) == []
  {
  }

  /** Every sample of `ws` is no later than the ones after it. */
  ghost predicate SortedByTime(ws: seq<Waypoint>)
  {
    forall i, j :: 0 <= i < j < |ws| ==> ws[i].location.time <= ws[j].location.time
  }

  /** Inserts `w` into a time-sorted list, ahead of the samples with the same time. */
  function InsertByTime(w: Waypoint, ws: seq<Waypoint>): (r: seq<Waypoint>)
    requires SortedByTime(ws)
    ensures SortedByTime(r)
    ensures multiset(r) == multiset(ws) + multiset{w}
  {
    if ws == [] then [w]
    else if w.location.time <= ws[0].location.time then [w] + ws
    else
      var rest := InsertByTime(w, ws[1..]);
      assert ws == [ws[0]] + ws[1..];
      NoEarlierThan(ws[0], w, ws[1..], rest);
      [ws[0]] + rest
  }

  /**
   * A sorted list made of `w` and the samples of `ws`, none of them earlier
   * than `x`, stays sorted with `x` in front.
   */
  lemma NoEarlierThan(x: Waypoint, w: Waypoint, ws: seq<Waypoint>, rest: seq<Waypoint>)
    requires x.location.time <= w.location.time
    requires forall j :: 0 <= j < |ws| ==> x.location.time <= ws[j].location.time
    requires SortedByTime(rest) && multiset(rest) == multiset(ws) + multiset{w}
    ensures SortedByTime([x] + rest)
  {
    forall j | 0 <= j < |rest| ensures x.location.time <= rest[j].location.time {
      assert rest[j] in multiset(rest);
      if rest[j] != w {
        assert rest[j] in multiset(ws);
        var m :| 0 <= m < |ws| && ws[m] == rest[j];
      }
    }
  }

  /**
   * `Waypoint.queryDB(recordId, sort by time)`: the samples filed under `id`,
   * in ascending time; samples with equal times keep their table order.
   */
  function WaypointQuery(ws: seq<Waypoint>, id: int): (r: seq<Waypoint>)
    ensures SortedByTime(r)
    ensures forall w :: multiset(r)[w] == if w.recordId == id then multiset(ws)[w] else 0
    ensures forall k :: 0 <= k < |r| ==> r[k].recordId == id
  {
    if ws == [] then []
    else
      var rest := WaypointQuery(ws[1..], id);
      assert ws == [ws[0]] + ws[1..];
      if ws[0].recordId == id then
        var r := InsertByTime(ws[0], rest);
        assert forall k :: 0 <= k < |r| ==> r[k].recordId == id by {
          forall k | 0 <= k < |r| ensures r[k].recordId == id {
            assert r[k] in multiset(r);
          }
        }
        r
      else rest
  }

  /** `s` without its element at `i`; the others keep their relative order. */
  function RemoveAt<T>(s: seq<T>, i: nat): (r: seq<T>)
    requires i < |s|
    ensures |r| == |s| - 1
    ensures forall k :: 0 <= k < i ==> r[k] == s[k]
    ensures forall k :: i <= k < |r| ==> r[k] == s[k + 1]
    ensures multiset(r) + multiset{s[i]} == multiset(s)
  {
    assert s == s[..i] + [s[i]] + s[i + 1..];
    s[..i] + s[i + 1..]
  }
}
