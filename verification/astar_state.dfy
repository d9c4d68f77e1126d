/**
 * The open/closed bookkeeping of the A* search: an immutable state value and
 * one pure transition function per public operation.
 */
module AStar {
  import opened Nullable
  import opened Locations
  import opened Waypoints

  /** The map being navigated; the state only stores it and hands it back. */
  type Map2D(==)

  /** The exception the constructor throws. */
  datatype Error = NullPointer(message: string)

  /**
   * `closed` holds an `Option` because closing a location that is not open
   * stores `null` in the closed HashMap.
   */
  datatype AStarState = AStarState(
    grid: Map2D,
    open: map<Location, Waypoint>,
    closed: map<Location, Option<Waypoint>>)

  /** Every open waypoint is stored under its own location. */
  ghost predicate WellKeyed(s: AStarState) {
    forall k :: k in s.open ==> s.open[k].location == k
  }

  /** No location is both open and closed. */
  ghost predicate Disjoint(s: AStarState) {
    s.open.Keys !! s.closed.Keys
  }

  /** `new AStarState(map)`: throws on a null map, otherwise both collections start empty. */
  function NewState(m: Option<Map2D>): (r: Result<AStarState, Error>)
    ensures r.Failure? <==> m.None?
    ensures r.Failure? ==> r.error == NullPointer("map cannot be null")
    ensures r.Success? ==> GetMap(r.value) == m.value
    ensures r.Success? ==> NumOpenWaypoints(r.value) == 0 && |r.value.closed| == 0
    ensures r.Success? ==> forall loc :: !IsLocationClosed(r.value, loc)
  {
    if m.None? then Failure(NullPointer("map cannot be null"))
    else Success(AStarState(m.value, map[], map[]))
  }

  /** `getMap()`. */
  function GetMap(s: AStarState): Map2D {
    s.grid
  }

  /**
   * The scan order lists each open location exactly once (it stands for the
   * iteration over the HashMap's key set).
   */
  ghost predicate IsScanOrder(order: seq<Location>, open: map<Location, Waypoint>) {
    && (forall k :: k in order <==> k in open)
    && (forall i, j :: 0 <= i < j < |order| ==> order[i] != order[j])
  }

  /**
   * Index `i` of `order` holds a minimum total cost, and every earlier index
   * holds a strictly larger one: the waypoint a strict-`<` scan keeps.
   */
  ghost predicate FirstMinAt(open: map<Location, Waypoint>, order: seq<Location>, i: int)
    requires forall j :: 0 <= j < |order| ==> order[j] in open
  {
    && 0 <= i < |order|
    && (forall j :: 0 <= j < |order| ==> open[order[i]].totalCost <= open[order[j]].totalCost)
    && (forall j :: 0 <= j < i ==> open[order[i]].totalCost < open[order[j]].totalCost)
  }

  /**
   * The scan loop of `getMinOpenWaypoint` over the keys in `order`, as a
   * fold from the left: the position of the waypoint kept as `best`.
   */
  function ScanIndex(open: map<Location, Waypoint>, order: seq<Location>): (i: nat)
    requires |order| > 0
    requires forall j :: 0 <= j < |order| ==> order[j] in open
    ensures FirstMinAt(open, order, i)
  {
    var n := |order| - 1;
    if n == 0 then 0
    else
      var prefix := order[..n];
      var p := ScanIndex(open, prefix);
      assert forall j :: 0 <= j < n ==> prefix[j] == order[j];
      if open[order[n]].totalCost < open[order[p]].totalCost then n else p
  }

  /**
   * `getMinOpenWaypoint()`: null on an empty open set, otherwise the first
   * waypoint in scan order whose total cost is minimal.
   */
  function GetMinOpenWaypoint(s: AStarState, order: seq<Location>): (r: Option<Waypoint>)
    requires IsScanOrder(order, s.open)
    ensures r.None? <==> |s.open| == 0
    ensures r.Some? ==> r.value in s.open.Values
    ensures r.Some? ==> forall k :: k in s.open ==> r.value.totalCost <= s.open[k].totalCost
    ensures r.Some? ==> exists i :: FirstMinAt(s.open, order, i) && r.value == s.open[order[i]]
  {
    if NumOpenWaypoints(s) == 0 then None
    else
      assert |order| > 0 by {
        assert s.open.Keys != {};
        var k :| k in s.open;
        assert k in order;
      }
      var i := ScanIndex(s.open, order);
      var best := s.open[order[i]];
      assert forall k :: k in s.open ==> best.totalCost <= s.open[k].totalCost by {
        forall k | k in s.open
          ensures best.totalCost <= s.open[k].totalCost
        {
          var j :| 0 <= j < |order| && order[j] == k;
        }
      }
      Some(best)
  }

  /**
   * `addOpenWaypoint(newWP)`: inserts at a new location; at an open location,
   * replaces only a waypoint with a strictly higher previous cost. The flag
   * is the method's boolean result.
   */
  function AddOpenWaypoint(s: AStarState, newWP: Waypoint): (r: (AStarState, bool))
    ensures r.0.grid == s.grid && r.0.closed == s.closed
    ensures r.0.open.Keys == s.open.Keys + {newWP.location}
    ensures forall k :: k in s.open && k != newWP.location ==> r.0.open[k] == s.open[k]
    ensures r.1 <==> newWP.location !in s.open || newWP.previousCost < s.open[newWP.location].previousCost
    ensures r.1 ==> r.0.open[newWP.location] == newWP
    ensures !r.1 ==> r.0 == s
    ensures newWP.location !in s.open ==> |r.0.open| == |s.open| + 1
    ensures newWP.location in s.open ==> |r.0.open| == |s.open|
  {
    var location := newWP.location;
    if location in s.open then
      var current := s.open[location];
      if newWP.previousCost < current.previousCost then
        (s.(open := s.open[location := newWP]), true)
      else
        (s, false)
    else
      (s.(open := s.open[location := newWP]), true)
  }

  /** `numOpenWaypoints()`: `HashMap.size()`, which reports at most `Integer.MAX_VALUE`. */
  function NumOpenWaypoints(s: AStarState): (n: int32)
    ensures n == 0 <==> |s.open| == 0
    ensures 0 <= n as int <= |s.open|
    ensures |s.open| <= INT_MAX ==> n as int == |s.open|
  {
    if |s.open| <= INT_MAX then |s.open| as int32 else INT_MAX as int32
  }

  /**
   * `closeWaypoint(loc)`: removes `loc` from open and records under `loc` in
   * closed whatever the removal returned (`null` when `loc` was not open).
   */
  function CloseWaypoint(s: AStarState, loc: Location): (r: AStarState)
    ensures r.grid == s.grid
    ensures r.open.Keys == s.open.Keys - {loc}
    ensures forall k :: k in r.open ==> r.open[k] == s.open[k]
    ensures r.closed.Keys == s.closed.Keys + {loc}
    ensures r.closed[loc] == (if loc in s.open then Some(s.open[loc]) else None)
    ensures forall k :: k in s.closed && k != loc ==> r.closed[k] == s.closed[k]
    ensures IsLocationClosed(r, loc)
  {
    var waypoint := if loc in s.open then Some(s.open[loc]) else None;
    s.(open := s.open - {loc}, closed := s.closed[loc := waypoint])
  }

  /** `isLocationClosed(loc)`: a key of the closed map, even when its stored waypoint is null. */
  predicate IsLocationClosed(s: AStarState, loc: Location) {
    loc in s.closed
  }
}
