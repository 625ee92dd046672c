/**
 * The waypoint, obstacle and bounds logic of `PathPlanningModule`
 * (js/advanced-features.js): a waypoint list and a no-fly-zone list that grow by `push`
 * and shrink by `splice`, straight-line intermediate points, and the simplified conflict
 * check that only looks at a route's start and end points.
 *
 * `Date.now()` ids and ISO creation stamps are parameters (`id`, `now`). Coordinates
 * are exact reals.
 */
module PathPlanning {
  import Js

  datatype LatLng = LatLng(lat: real, lng: real)

  datatype Waypoint = Waypoint(id: int, lat: real, lng: real, altitude: real, name: string, timestamp: int)

  /** An axis-aligned box in latitude and longitude. */
  datatype Bounds = Bounds(north: real, south: real, east: real, west: real)

  datatype Obstacle = Obstacle(id: int, bounds: Bounds, kind: string, description: string, created: int)

  /** The part of a route the conflict check reads. */
  datatype Route = Route(startPoint: LatLng, endPoint: LatLng)

  datatype IntermediatePoint = IntermediatePoint(lat: real, lng: real, altitude: real, order: nat)

  /** The number of segments `getIntermediateWaypoints` splits a route into. */
  const Steps: nat := 5

  const DefaultAltitude: real := 100.0

  /** The name `addWaypoint` gives when none (or the empty string) is passed: "路径点" followed by the new length. */
  function DefaultName(count: nat): string
  {
    "路径点" + Js.NatToString(count + 1)
  }

  /** Distinct list lengths give distinct default names. */
  lemma DefaultNameInjective(m: nat, n: nat)
    ensures DefaultName(m) == DefaultName(n) ==> m == n
  {
    if DefaultName(m) == DefaultName(n) {
      assert DefaultName(m)[3..] == Js.NatToString(m + 1);
      assert DefaultName(n)[3..] == Js.NatToString(n + 1);
      Js.NatToStringInjective(m + 1, n + 1);
    }
  }

  /** `waypoints.findIndex(wp => wp.id === waypointId)`. */
  function IndexOfId(waypoints: seq<Waypoint>, waypointId: int): (i: int)
    ensures -1 <= i < |waypoints|
    ensures i == -1 <==> forall k :: 0 <= k < |waypoints| ==> waypoints[k].id != waypointId
    ensures 0 <= i ==> waypoints[i].id == waypointId && forall k :: 0 <= k < i ==> waypoints[k].id != waypointId
  {
    if waypoints == [] then -1
    else if waypoints[0].id == waypointId then 0
    else
      var j := IndexOfId(waypoints[1..], waypointId);
      if j < 0 then -1 else j + 1
  }

  /** `pointInBounds(point, bounds)`: inclusive on all four sides. */
  predicate PointInBounds(point: LatLng, bounds: Bounds)
  {
    point.lat >= bounds.south && point.lat <= bounds.north &&
    point.lng >= bounds.west && point.lng <= bounds.east
  }

  /**
   * The bounds are closed: all four corners of a non-empty box are inside it, a point
   * beyond any side is outside, and a box whose south lies above its north (or whose west
   * lies east of its east) contains nothing.
   */
  lemma PointInBoundsSpec(point: LatLng, b: Bounds)
    ensures b.south <= b.north && b.west <= b.east ==>
      && PointInBounds(LatLng(b.north, b.east), b) && PointInBounds(LatLng(b.north, b.west), b)
      && PointInBounds(LatLng(b.south, b.east), b) && PointInBounds(LatLng(b.south, b.west), b)
    ensures point.lat > b.north || point.lat < b.south || point.lng > b.east || point.lng < b.west ==> !PointInBounds(point, b)
    ensures b.south > b.north || b.west > b.east ==> !PointInBounds(point, b)
  {
  }

  /** `routeIntersectsObstacle(route, obstacle)`: the start or the end point lies in the obstacle's bounds. */
  predicate RouteIntersectsObstacle(route: Route, obstacle: Obstacle)
  {
    PointInBounds(route.startPoint, obstacle.bounds) || PointInBounds(route.endPoint, obstacle.bounds)
  }

  /** The obstacles of `obstacles` that conflict with `route`, in their list order. */
  function Conflicting(obstacles: seq<Obstacle>, route: Route): (r: seq<Obstacle>)
  {
    if obstacles == [] then []
    else
      var earlier := Conflicting(obstacles[..|obstacles| - 1], route);
      var o := obstacles[|obstacles| - 1];
      if RouteIntersectsObstacle(route, o) then earlier + [o] else earlier
  }

  /** The positions in `obstacles` of the conflict list's entries. */
  function ConflictPositions(obstacles: seq<Obstacle>, route: Route): seq<nat>
  {
    if obstacles == [] then []
    else
      var earlier := ConflictPositions(obstacles[..|obstacles| - 1], route);
      if RouteIntersectsObstacle(route, obstacles[|obstacles| - 1]) then earlier + [|obstacles| - 1] else earlier
  }

  /** `sub` is `s` with some elements left out and the rest in order, `pick` saying where each came from. */
  ghost predicate Picks<T>(pick: seq<nat>, sub: seq<T>, s: seq<T>)
  {
    && |pick| == |sub|
    && (forall k :: 0 <= k < |pick| ==> pick[k] < |s| && s[pick[k]] == sub[k])
    && (forall j, k :: 0 <= j < k < |pick| ==> pick[j] < pick[k])
  }

  /** The conflict list holds exactly the obstacles that contain the route's start or end point. */
  lemma {:induction false} ConflictingMembers(obstacles: seq<Obstacle>, route: Route)
    ensures forall o :: o in Conflicting(obstacles, route) <==> o in obstacles && RouteIntersectsObstacle(route, o)
  {
    if obstacles != [] {
      var p := obstacles[..|obstacles| - 1];
      assert obstacles == p + [obstacles[|obstacles| - 1]];
      ConflictingMembers(p, route);
    }
  }

  /** Each conflicting obstacle occurs in the conflict list as often as in the obstacle list; the others not at all. */
  lemma {:induction false} ConflictingCounts(obstacles: seq<Obstacle>, route: Route)
    ensures forall o ::
      multiset(Conflicting(obstacles, route))[o] == (if RouteIntersectsObstacle(route, o) then multiset(obstacles)[o] else 0)
  {
    if obstacles != [] {
      var p := obstacles[..|obstacles| - 1];
      assert obstacles == p + [obstacles[|obstacles| - 1]];
      ConflictingCounts(p, route);
    }
  }

  /** The conflict list keeps the obstacle list's order. */
  lemma {:induction false} ConflictingOrder(obstacles: seq<Obstacle>, route: Route)
    ensures Picks(ConflictPositions(obstacles, route), Conflicting(obstacles, route), obstacles)
  {
    if obstacles != [] {
      var p := obstacles[..|obstacles| - 1];
      ConflictingOrder(p, route);
      var pick := ConflictPositions(p, route);
      var r := Conflicting(obstacles, route);
      if RouteIntersectsObstacle(route, obstacles[|obstacles| - 1]) {
        var pick' := pick + [|p|];
        assert forall k :: 0 <= k < |pick| ==> pick'[k] == pick[k] && r[k] == Conflicting(p, route)[k];
        assert forall k :: 0 <= k < |pick'| ==> pick'[k] < |obstacles| && obstacles[pick'[k]] == r[k];
      } else {
        assert forall k :: 0 <= k < |pick| ==> pick[k] < |obstacles| && obstacles[pick[k]] == r[k];
      }
    }
  }

  /** A non-negative length scaled by a ratio in `0..1` stays between 0 and the length. */
  lemma ScaleBetween(d: real, ratio: real)
    requires 0.0 <= d && 0.0 <= ratio <= 1.0
    ensures 0.0 <= d * ratio <= d
  {
    assert d * ratio + d * (1.0 - ratio) == d;
    assert d * (1.0 - ratio) >= 0.0;
  }

  /** The point at `ratio` of the way from `a` to `b`, as `getIntermediateWaypoints` computes it. */
  function Lerp(a: real, b: real, ratio: real): real
  {
    a + (b - a) * ratio
  }

  /** Moving from `a` towards a larger `b` by a ratio in `0..1` moves by at most the distance. */
  lemma StepUp(a: real, b: real, ratio: real)
    requires a <= b && 0.0 <= ratio <= 1.0
    ensures 0.0 <= (b - a) * ratio <= b - a
  {
    ScaleBetween(b - a, ratio);
  }

  /** The same towards a smaller `b`. */
  lemma StepDown(a: real, b: real, ratio: real)
    requires b <= a && 0.0 <= ratio <= 1.0
    ensures b - a <= (b - a) * ratio <= 0.0
  {
    ScaleBetween(a - b, ratio);
    assert (b - a) * ratio == -((a - b) * ratio);
  }

  /** A ratio in `0..1` gives a value between the two ends, whichever is larger. */
  lemma LerpBetween(a: real, b: real, ratio: real)
    requires 0.0 <= ratio <= 1.0
    ensures a <= b ==> a <= Lerp(a, b, ratio) <= b
    ensures b <= a ==> b <= Lerp(a, b, ratio) <= a
  {
    if a <= b {
      StepUp(a, b, ratio);
    }
    if b <= a {
      StepDown(a, b, ratio);
    }
  }

  /** The `i`-th intermediate point, for `1 <= i < 5`. */
  function IntermediateAt(startPoint: LatLng, endPoint: LatLng, i: nat): IntermediatePoint
  {
    var ratio := i as real / Steps as real;
    IntermediatePoint(Lerp(startPoint.lat, endPoint.lat, ratio), Lerp(startPoint.lng, endPoint.lng, ratio), DefaultAltitude, i)
  }

  /** Whether `x` lies between `a` and `b`, in either order. */
  predicate Between(a: real, b: real, x: real)
  {
    (a <= x <= b) || (b <= x <= a)
  }

  class PathPlanningModule {
    var waypoints: seq<Waypoint>
    var obstacles: seq<Obstacle>

    constructor ()
      ensures waypoints == [] && obstacles == []
    {
      waypoints := [];
      obstacles := [];
    }

    /**
     * `addWaypoint(lat, lng, altitude, name)` with id and timestamp `id` and `now`. An empty
     * name is replaced by the default name for the new list position.
     */
    method AddWaypoint(lat: real, lng: real, id: int, now: int, altitude: real := DefaultAltitude, name: string := "")
      returns (waypoint: Waypoint)
      modifies this
      ensures waypoint == Waypoint(id, lat, lng, altitude, if name == "" then DefaultName(|old(waypoints)|) else name, now)
      ensures waypoints == old(waypoints) + [waypoint]
      ensures obstacles == old(obstacles)
    {
      waypoint := Waypoint(id, lat, lng, altitude, if name == "" then DefaultName(|waypoints|) else name, now);
      waypoints := waypoints + [waypoint];
    }

    /**
     * `removeWaypoint(waypointId)`: removes the first waypoint with that id and reports
     * whether there was one; the list is unchanged otherwise.
     */
    method RemoveWaypoint(waypointId: int) returns (removed: bool)
      modifies this
      ensures removed <==> exists k :: 0 <= k < |old(waypoints)| && old(waypoints)[k].id == waypointId
      ensures !removed ==> waypoints == old(waypoints)
      ensures removed ==> waypoints == Js.RemoveAt(old(waypoints), IndexOfId(old(waypoints), waypointId))
      ensures obstacles == old(obstacles)
    {
      var index := IndexOfId(waypoints, waypointId);
      if index > -1 {
        waypoints := Js.RemoveAt(waypoints, index);
        return true;
      }
      return false;
    }

    /** `addObstacle(bounds, type, description)` with id and creation stamp `id` and `now`. */
    method AddObstacle(bounds: Bounds, id: int, now: int, kind: string := "no-fly-zone", description: string := "")
      returns (obstacle: Obstacle)
      modifies this
      ensures obstacle == Obstacle(id, bounds, kind, description, now)
      ensures obstacles == old(obstacles) + [obstacle]
      ensures waypoints == old(waypoints)
    {
      obstacle := Obstacle(id, bounds, kind, description, now);
      obstacles := obstacles + [obstacle];
    }

    /** `checkRouteConflicts(route)`: the obstacles, in list order, whose bounds contain the route's start or end point. */
    method CheckRouteConflicts(route: Route) returns (conflicts: seq<Obstacle>)
      ensures conflicts == Conflicting(obstacles, route)
      ensures forall o :: o in conflicts <==> o in obstacles && RouteIntersectsObstacle(route, o)
    {
      conflicts := [];
      var i := 0;
      while i < |obstacles|
        invariant 0 <= i <= |obstacles|
        invariant conflicts == Conflicting(obstacles[..i], route)
      {
        assert obstacles[..i + 1][..i] == obstacles[..i];
        if RouteIntersectsObstacle(route, obstacles[i]) {
          conflicts := conflicts + [obstacles[i]];
        }
        i := i + 1;
      }
      assert obstacles[..i] == obstacles;
      ConflictingMembers(obstacles, route);
    }

    /**
     * `getIntermediateWaypoints(startPoint, endPoint)`: exactly four points at 1/5 .. 4/5 of
     * the straight line, numbered 1 to 4, each at the default altitude and between the two
     * ends in both coordinates.
     */
    static method GetIntermediateWaypoints(startPoint: LatLng, endPoint: LatLng) returns (points: seq<IntermediatePoint>)
      ensures |points| == Steps - 1
      ensures forall k :: 0 <= k < |points| ==> points[k] == IntermediateAt(startPoint, endPoint, k + 1)
      ensures forall k :: 0 <= k < |points| ==>
        && points[k].order == k + 1
        && points[k].altitude == DefaultAltitude
        && Between(startPoint.lat, endPoint.lat, points[k].lat)
        && Between(startPoint.lng, endPoint.lng, points[k].lng)
    {
      points := [];
      var i := 1;
      while i < Steps
        invariant 1 <= i <= Steps
        invariant |points| == i - 1
        invariant forall k :: 0 <= k < |points| ==> points[k] == IntermediateAt(startPoint, endPoint, k + 1)
        invariant forall k :: 0 <= k < |points| ==>
          Between(startPoint.lat, endPoint.lat, points[k].lat) && Between(startPoint.lng, endPoint.lng, points[k].lng)
      {
        var ratio := i as real / Steps as real;
        LerpBetween(startPoint.lat, endPoint.lat, ratio);
        LerpBetween(startPoint.lng, endPoint.lng, ratio);
        var lat := Lerp(startPoint.lat, endPoint.lat, ratio);
        var lng := Lerp(startPoint.lng, endPoint.lng, ratio);
        points := points + [IntermediatePoint(lat, lng, DefaultAltitude, i)];
        i := i + 1;
      }
    }
  }
}
