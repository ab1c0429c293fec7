/** Position samples and the distance accumulated along a path of them. */
module Geo {

  /** A position fix as the platform reports it; `time` is its epoch timestamp in milliseconds. */
  datatype Loc = Loc(latitude: real, longitude: real, time: int)

  /** A length in metres; never negative. */
  type Metres = r: real | 0.0 <= r

  /** `Location.distanceTo`: the platform's geodesic distance, left uninterpreted. */
  type Metric = (Loc, Loc) -> Metres

  /** The sum of the distances between consecutive samples of `path`. */
  function PathLength(path: seq<Loc>, dist: Metric): (r: real)
    ensures r >= 0.0
    ensures |path| < 2 ==> r == 0.0
    decreases |path|
  {
    if |path| < 2 then 0.0 else dist(path[0], path[1]) + PathLength(path[1..], dist)
  }

  /** Extending a path by one sample adds exactly the step from its last sample. */
  lemma {:induction false} PathLengthExtend(path: seq<Loc>, x: Loc, dist: Metric)
    requires path != []
    ensures PathLength(path + [x], dist) == PathLength(path, dist) + dist(path[|path| - 1], x)
    decreases |path|
  {
    var p := path + [x];
    if |path| == 1 {
      assert p[1..] == [x];
    } else {
      assert p[1..] == path[1..] + [x];
      PathLengthExtend(path[1..], x, dist);
    }
  }
}
