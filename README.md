# Sport-Tracker record model

A Dafny model of `Record`, the tracking-session class of the Sport-Tracker
Android application. A record is one session: a profile label, a start and
end time in epoch milliseconds, the distance covered, the average speed, a
comment, and the ordered list of waypoints (position samples) accepted into
it. The record mirrors itself to a content provider (the store) with two
tables, records and waypoints.

The model is imperative where the source is. `Records.Record` is a class
with the source's fields. Its methods change them as the Java methods do,
and each method states the new state in terms of the old one. The store is
abstract:

- The instance methods take the store's replies as parameters: the id a
  waypoint insert returns (0 when no row was written), the id a record
  insert assigns, and the row counts an update or a delete reports.
- The static queries and the static delete read a `Rows.Store` value. It
  holds both tables as sequences of rows, so a table may hold 0, 1 or 2
  rows for one id.

The clock is the `now` parameter. `Location.distanceTo` is the
uninterpreted function `dist`, a constant of each record, whose results are
non-negative. Distances and speeds are reals.

The object invariant `Record.Valid()` carries the properties that hold
across calls:

- An unsaved record has id 0, and so has every waypoint it holds.
- `lastLoc` is the last location accepted.
- The distance equals its value at creation or load (0 for a new record)
  plus the sum of the distances between consecutive accepted locations
  (`Geo.PathLength`).
- Once two locations were accepted, the average speed is
  `distance / ((endTime - startTime) / 1000)`. The inner division is Java's
  truncating `long` division, and the outer one is Java's `float` division.
  Less than one whole second gives +Infinity, or NaN when the distance is 0.

Two behaviours of the code are reproduced, not corrected:

- `addWaypoint` builds the waypoint with the current `recordId` before
  `updateDB` inserts the record row. The first waypoint of an unsaved record
  is therefore filed under record id 0. Deleting the record later does not
  cascade to it (`Scenarios.FirstWaypointOfUnsavedRecord`), and loading the
  record back by its id does not return it
  (`Scenarios.FirstWaypointLostOnReload`).
- `deleteWaypoint` does not recompute the distance or the speed.

Timestamps are epoch milliseconds, and the elapsed time is truncated to
whole seconds by `long` division before the `float` division. A second fix
100 ms after the start therefore divides by zero and gives +Infinity, or NaN
when the step is 0 (`Scenarios.TwoFixesWithinOneSecond`); a finite speed
needs at least 1000 ms (`Scenarios.TwoFixesHundredSecondsApart`). The code
has no fallback for a zero elapsed time. Its first waypoint leaves the speed
at its initial 0 without dividing.

## Model

| member | source | states |
|---|---|---|
| Records.Record.constructor | src/org/sport/tracker/utils/Record.java:29-40 | a new record has start and end at `time`, distance 0, speed 0, empty comment, no waypoints, id 0, no last location, is unsaved, and satisfies the invariant |
| Records.Record.AddWaypoint | src/org/sport/tracker/utils/Record.java:42-53 | a waypoint insert reply of 0 returns false and changes nothing. Otherwise: the waypoint, filed under the id the record had before the call, is appended after the unchanged earlier entries; `endTime` becomes `now`; `lastLoc` becomes the location. The first location leaves distance and speed unchanged, and a later one adds exactly `dist(lastLoc, location)` and sets the speed to `AverageSpeed`. The record is saved, with the fresh id only if it was unsaved. The result is true iff the update reports exactly 1 row. Distance never decreases. The invariant is kept, so distance stays the path length of the accepted locations |
| Records.Record.WaypointsCount | src/org/sport/tracker/utils/Record.java:55-57 | the count is the length of the in-memory list; the store is not consulted |
| Records.Record.GetWaypoint | src/org/sport/tracker/utils/Record.java:59-61 | an index inside the list yields the entry at that position; any other index yields the out-of-bounds error |
| Records.Record.DeleteWaypoint | src/org/sport/tracker/utils/Record.java:63-67 | an index outside the list raises the out-of-bounds error and leaves the list alone. Otherwise the result is whether the store reported exactly 1 deleted row: then exactly that entry leaves the list and the others keep their order; any other reply leaves the list unchanged. No other field can change |
| Records.Record.InsertDB | src/org/sport/tracker/utils/Record.java:69-77 | the record becomes saved and takes the id the store assigned; the invariant holds |
| Records.Record.UpdateDB | src/org/sport/tracker/utils/Record.java:79-90 | an unsaved record is inserted first and takes the fresh id. A saved record keeps its id, so a second save does not insert again. The result is the store's row count. Only `saved` and `recordId` can change |
| Records.Record.Restore | src/org/sport/tracker/utils/Record.java:110-119 | a loaded record holds exactly the stored row's columns and the given waypoints, is saved, has no last location, and satisfies the invariant |
| Records.Record.QueryById | src/org/sport/tracker/utils/Record.java:92-122 | fails with the illegal-argument error iff the number of rows matching the id is not exactly 1. Otherwise it returns a fresh record that satisfies the invariant, reproduces the matched row's id, profile, start, end, distance, speed and comment, has no last location, and holds the waypoints filed under the id in time order |
| Records.Record.Query | src/org/sport/tracker/utils/Record.java:124-145 | fails iff some id on the cursor does not match exactly one row. Otherwise it returns one loaded record per cursor id, in cursor order, each as `QueryById` describes; no ids give the empty list |
| Records.Record.DeleteById | src/org/sport/tracker/utils/Record.java:147-157 | reports success iff exactly 1 record row matched the id. Every row with the id is removed and the other rows are kept with their multiplicities. Only on success are the waypoints filed under the id removed, with the others kept exactly. On failure the waypoint table is untouched. Afterwards no row matches the id |
| Arith.TruncDiv | src/org/sport/tracker/utils/Record.java:48 | the `long` quotient with the fraction dropped toward zero: nonnegative and bounded by the dividend for a nonnegative dividend, nonpositive and bounded for a negative dividend |
| Arith.FloatQuotient | src/org/sport/tracker/utils/Record.java:48 | the `float` quotient is finite iff the divisor is nonzero, and then times the divisor gives the dividend. A zero divisor gives +Infinity for a positive dividend, -Infinity for a negative one and NaN for zero |
| Arith.AverageSpeed | src/org/sport/tracker/utils/Record.java:48 | the speed is finite iff at least one whole second separates the two times, and then times the whole seconds gives the distance. A positive distance covered in under one second gives +Infinity |
| Geo.PathLength | src/org/sport/tracker/utils/Record.java:46-47 | the sum of consecutive-pair distances is non-negative and is 0 for fewer than two samples |
| Geo.PathLengthExtend | src/org/sport/tracker/utils/Record.java:46-47 | appending a sample adds exactly the distance from the previous last sample |
| Rows.Matching | src/org/sport/tracker/utils/Record.java:94-97 | the rows a query by id returns are exactly the table's rows carrying that id, each as often as the table holds it, so the number of matches is the number of such rows |
| Rows.WaypointQuery | src/org/sport/tracker/utils/Record.java:118-119 | the waypoints loaded for a record are sorted by time, all carry the record's id, and are exactly the table's waypoints with that id, with their multiplicities |
| Rows.RemoveAt | src/org/sport/tracker/utils/Record.java:64-66 | removing one entry shortens the list by one, keeps the entries before and after it in order, and removes exactly that element from the multiset |
| Scenarios.TwoFixesWithinOneSecond | src/org/sport/tracker/utils/Record.java:42-53 | two fixes at 1000 ms and 1100 ms on a record started at 1000 ms. After the first: distance 0, speed 0, count 1. After the second: distance `dist(a, b)`, count 2, and speed +Infinity, or NaN when the step is 0 |
| Scenarios.TwoFixesHundredSecondsApart | src/org/sport/tracker/utils/Record.java:42-53 | two fixes 100 s apart give distance `dist(a, b)` and speed `dist(a, b) / 100` |
| Scenarios.TwoFixesOfNewRecord | src/org/sport/tracker/utils/Record.java:42-53 | a new record that takes two accepted fixes is saved under the fresh id; its first waypoint is filed under id 0 and its second under the fresh id |
| Scenarios.FirstWaypointOfUnsavedRecord | src/org/sport/tracker/utils/Record.java:147-157 | after two fixes on a new record, the first waypoint carries record id 0 and the second the assigned id. Deleting the record by that id leaves exactly the first waypoint in the waypoint table |
| Scenarios.ReloadAfterSave | src/org/sport/tracker/utils/Record.java:79-122 | a saved record whose row (`Values()`) and waypoints are in the store loads back by its id with exactly the same columns, and with the waypoints filed under its id in time order; a waypoint filed under any other id is not loaded |
| Scenarios.FirstWaypointLostOnReload | src/org/sport/tracker/utils/Record.java:92-122 | a new record with two fixes holds 2 waypoints in memory, but loaded back from the store it holds 1: exactly the second waypoint |
| Scenarios.SaveTwice | src/org/sport/tracker/utils/Record.java:79-90 | two saves of a new record leave it with the id of the first insert |

## Left out

- The Android `Context`, `ContentResolver`, `Cursor`, `ContentValues` and `Uri` are left out. The store is either replies passed as parameters or a `Store` value of table rows. Column lookups and cursor closing have no counterpart.
- Parsing the record id out of the inserted row's `Uri` is left out; the store's reply is the fresh id.
- A failed record insert is left out. In the code, `resolver.insert` returning `null` makes `insertDB` throw a `NullPointerException`. The model assumes the insert always yields an id.
- `Location.distanceTo` is left out; it is a foreign geodesic computation, and the model takes it as the uninterpreted non-negative function `dist`.
- `float` rounding is not modelled; distance and speed are exact reals. The IEEE 754 outcomes of dividing by zero are modelled.
- `new Date().getTime()` is not modelled; the clock is the `now` parameter. In the loading path the constructor's clock reading is overwritten at once, so `Restore` takes the stored start time directly.
- The `Waypoint` class, `RecordProvider` and the database helper constants are not part of this model. Several assumptions follow:
  - A waypoint is a value `(recordId, waypointId, location)`, and the sample time is the location's timestamp.
  - The id a successful waypoint insert returns becomes the waypoint's id.
  - A query sorted by time is modelled as a stable sort by sample time.
  - Deleting a record by id removes every row that carries the id, and the reported count is the number of such rows.
- Records.Record.DeleteWaypoint: `ArrayList.remove(Object)` removes the first element equal to the waypoint object. Waypoint objects are distinct, so the model removes the entry at the index.
- The `selection` and `sortOrder` of the multi-record `queryDB` are not modelled: the ids the cursor yields are an arbitrary list passed to `Records.Record.Query`, not tied to the record table's content.
- Integer widths are not modelled: `long` timestamps and ids are unbounded `int`, and Java `int` indices are unbounded as well.
- A loaded record's stored speed is kept as the given `Speed`. How SQLite stores NaN is not modelled.
- The public fields that callers may assign directly (such as `comment`) are not modelled as operations.
