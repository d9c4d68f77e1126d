/**
 * Properties of whole sequences of state operations, as the search driver
 * issues them one iteration after another.
 */
module AStarRuns {
  import opened Nullable
  import opened Locations
  import opened Waypoints
  import opened AStar

  /** A state-changing call the driver can make. */
  datatype Op = AddOp(wp: Waypoint) | CloseOp(loc: Location)

  function Step(s: AStarState, op: Op): AStarState {
    match op
    case AddOp(wp) => AddOpenWaypoint(s, wp).0
    case CloseOp(loc) => CloseWaypoint(s, loc)
  }

  function Run(s: AStarState, ops: seq<Op>): AStarState
    decreases |ops|
  {
    if |ops| == 0 then s else Run(Step(s, ops[0]), ops[1..])
  }

  /** Offering each waypoint of `wps` in turn to `addOpenWaypoint`. */
  function AddAll(s: AStarState, wps: seq<Waypoint>): AStarState
    decreases |wps|
  {
    if |wps| == 0 then s else AddAll(AddOpenWaypoint(s, wps[0]).0, wps[1..])
  }

  /** The distinct locations of `wps`. */
  function LocationsOf(wps: seq<Waypoint>): set<Location>
    decreases |wps|
  {
    if |wps| == 0 then {} else {wps[0].location} + LocationsOf(wps[1..])
  }

  /** The driver never offers a location that is closed at the time of the offer. */
  ghost predicate SkipsClosed(s: AStarState, ops: seq<Op>)
    decreases |ops|
  {
    |ops| == 0 ||
    ((ops[0].AddOp? ==> !IsLocationClosed(s, ops[0].wp.location)) && SkipsClosed(Step(s, ops[0]), ops[1..]))
  }

  /** Adding waypoints opens exactly their locations and leaves closed alone. */
  lemma {:induction false} AddAllOpensTheirLocations(s: AStarState, wps: seq<Waypoint>)
    ensures AddAll(s, wps).open.Keys == s.open.Keys + LocationsOf(wps)
    ensures AddAll(s, wps).closed == s.closed
    decreases |wps|
  {
    if |wps| > 0 {
      var s' := AddOpenWaypoint(s, wps[0]).0;
      AddAllOpensTheirLocations(s', wps[1..]);
    }
  }

  /** From a fresh state, the open-set size is the number of distinct locations offered. */
  lemma OpenCountIsDistinctLocations(m: Map2D, wps: seq<Waypoint>)
    requires |LocationsOf(wps)| <= INT_MAX
    ensures NewState(Some(m)).Success?
    ensures NumOpenWaypoints(AddAll(NewState(Some(m)).value, wps)) as int == |LocationsOf(wps)|
    ensures forall loc :: !IsLocationClosed(AddAll(NewState(Some(m)).value, wps), loc)
  {
    AddAllOpensTheirLocations(NewState(Some(m)).value, wps);
  }

  /** Every operation keeps each open waypoint under its own location. */
  lemma StepKeepsWellKeyed(s: AStarState, op: Op)
    requires WellKeyed(s)
    ensures WellKeyed(Step(s, op))
  {
  }

  lemma {:induction false} RunKeepsWellKeyed(s: AStarState, ops: seq<Op>)
    requires WellKeyed(s)
    ensures WellKeyed(Run(s, ops))
    decreases |ops|
  {
    if |ops| > 0 {
      StepKeepsWellKeyed(s, ops[0]);
      RunKeepsWellKeyed(Step(s, ops[0]), ops[1..]);
    }
  }

  /** No operation removes a closed location: the closed domain only grows. */
  lemma {:induction false} ClosedOnlyGrows(s: AStarState, ops: seq<Op>)
    ensures s.closed.Keys <= Run(s, ops).closed.Keys
    ensures forall loc :: IsLocationClosed(s, loc) ==> IsLocationClosed(Run(s, ops), loc)
    decreases |ops|
  {
    if |ops| > 0 {
      ClosedOnlyGrows(Step(s, ops[0]), ops[1..]);
    }
  }

  /** Closing keeps open and closed disjoint; so does adding a location that is not closed. */
  lemma StepKeepsDisjoint(s: AStarState, op: Op)
    requires Disjoint(s)
    requires op.AddOp? ==> !IsLocationClosed(s, op.wp.location)
    ensures Disjoint(Step(s, op))
  {
  }

  /** Open and closed stay disjoint for any run of a driver that skips closed locations. */
  lemma {:induction false} RunKeepsDisjoint(s: AStarState, ops: seq<Op>)
    requires Disjoint(s)
    requires SkipsClosed(s, ops)
    ensures Disjoint(Run(s, ops))
    decreases |ops|
  {
    if |ops| > 0 {
      StepKeepsDisjoint(s, ops[0]);
      RunKeepsDisjoint(Step(s, ops[0]), ops[1..]);
    }
  }

  /** `addOpenWaypoint` does not look at closed: offering a closed location makes it both open and closed. */
  lemma AddIgnoresClosed(s: AStarState, wp: Waypoint)
    requires IsLocationClosed(s, wp.location)
    requires wp.location !in s.open
    ensures AddOpenWaypoint(s, wp).1
    ensures !Disjoint(AddOpenWaypoint(s, wp).0)
  {
    assert wp.location in AddOpenWaypoint(s, wp).0.open.Keys * AddOpenWaypoint(s, wp).0.closed.Keys;
  }

  /** An accepted waypoint is visible to the next minimum selection. */
  lemma AcceptedWaypointBoundsMin(s: AStarState, wp: Waypoint, order: seq<Location>)
    requires AddOpenWaypoint(s, wp).1
    requires IsScanOrder(order, AddOpenWaypoint(s, wp).0.open)
    ensures GetMinOpenWaypoint(AddOpenWaypoint(s, wp).0, order).Some?
    ensures GetMinOpenWaypoint(AddOpenWaypoint(s, wp).0, order).value.totalCost <= wp.totalCost
  {
    var s' := AddOpenWaypoint(s, wp).0;
    assert wp.location in s'.open;
  }

  /** Whatever the scan order, the selected waypoint has the same total cost. */
  lemma MinCostIndependentOfOrder(s: AStarState, order1: seq<Location>, order2: seq<Location>)
    requires IsScanOrder(order1, s.open) && IsScanOrder(order2, s.open)
    ensures GetMinOpenWaypoint(s, order1).None? <==> GetMinOpenWaypoint(s, order2).None?
    ensures GetMinOpenWaypoint(s, order1).Some? ==>
      GetMinOpenWaypoint(s, order1).value.totalCost == GetMinOpenWaypoint(s, order2).value.totalCost
  {
    var r1 := GetMinOpenWaypoint(s, order1);
    var r2 := GetMinOpenWaypoint(s, order2);
    if r1.Some? {
      var k1 :| k1 in s.open && s.open[k1] == r1.value;
      var k2 :| k2 in s.open && s.open[k2] == r2.value;
    }
  }

  /** With pairwise distinct total costs the tie-break never matters: every scan order selects the same waypoint. */
  lemma MinUniqueWithoutTies(s: AStarState, order1: seq<Location>, order2: seq<Location>)
    requires IsScanOrder(order1, s.open) && IsScanOrder(order2, s.open)
    requires forall a, b :: a in s.open && b in s.open && a != b ==> s.open[a].totalCost != s.open[b].totalCost
    ensures GetMinOpenWaypoint(s, order1) == GetMinOpenWaypoint(s, order2)
  {
    var r1 := GetMinOpenWaypoint(s, order1);
    var r2 := GetMinOpenWaypoint(s, order2);
    if r1.Some? {
      MinCostIndependentOfOrder(s, order1, order2);
      var k1 :| k1 in s.open && s.open[k1] == r1.value;
      var k2 :| k2 in s.open && s.open[k2] == r2.value;
    }
  }

  /** A closed location is never the next one selected. */
  lemma ClosedLocationNotSelected(s: AStarState, loc: Location, order: seq<Location>)
    requires WellKeyed(s)
    requires IsScanOrder(order, CloseWaypoint(s, loc).open)
    ensures GetMinOpenWaypoint(CloseWaypoint(s, loc), order).Some? ==>
      GetMinOpenWaypoint(CloseWaypoint(s, loc), order).value.location != loc
  {
    var s' := CloseWaypoint(s, loc);
    var r := GetMinOpenWaypoint(s', order);
    if r.Some? {
      var k :| k in s'.open && s'.open[k] == r.value;
    }
  }

  /** A short run: discover two locations, improve one, reject a worse offer, then close the other. */
  lemma ExampleRun(m: Map2D)
    ensures NewState(Some(m)).Success?
    ensures
      var s0 := NewState(Some(m)).value;
      var (s1, b1) := AddOpenWaypoint(s0, Waypoint(NewLocation(0, 0), 0.0, 0.0));
      var (s2, b2) := AddOpenWaypoint(s1, Waypoint(NewLocation(1, 0), 5.0, 5.0));
      var (s3, b3) := AddOpenWaypoint(s2, Waypoint(NewLocation(1, 0), 3.0, 3.0));
      var (s4, b4) := AddOpenWaypoint(s3, Waypoint(NewLocation(1, 0), 10.0, 10.0));
      var s5 := CloseWaypoint(s4, NewLocation(0, 0));
      && b1 && NumOpenWaypoints(s1) == 1
      && b2 && NumOpenWaypoints(s2) == 2
      && b3 && NumOpenWaypoints(s3) == 2
      && !b4 && NumOpenWaypoints(s4) == 2 && s4.open[NewLocation(1, 0)].previousCost == 3.0
      && NumOpenWaypoints(s5) == 1 && |s5.closed| == 1 && IsLocationClosed(s5, NewLocation(0, 0))
  {
    var s0 := NewState(Some(m)).value;
    var (s1, b1) := AddOpenWaypoint(s0, Waypoint(NewLocation(0, 0), 0.0, 0.0));
    var (s2, b2) := AddOpenWaypoint(s1, Waypoint(NewLocation(1, 0), 5.0, 5.0));
    assert NewLocation(0, 0) != NewLocation(1, 0);
    var (s3, b3) := AddOpenWaypoint(s2, Waypoint(NewLocation(1, 0), 3.0, 3.0));
    var (s4, b4) := AddOpenWaypoint(s3, Waypoint(NewLocation(1, 0), 10.0, 10.0));
    var s5 := CloseWaypoint(s4, NewLocation(0, 0));
    assert s5.open.Keys == {NewLocation(1, 0)};
    assert s5.closed.Keys == {NewLocation(0, 0)};
  }
}
