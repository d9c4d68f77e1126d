# A* search state, modelled in Dafny

This project models the bookkeeping core of a Java A* pathfinder over a 2D grid:

- `Location`, an integer grid coordinate with value equality and a 32-bit hash code;
- `AStarState`, which holds the map being navigated and two collections keyed by `Location`:
  - the *open* waypoints: candidates not yet expanded;
  - the *closed* waypoints: locations already expanded.

The state offers five operations:

- selecting the open waypoint of least total cost;
- offering a waypoint to the open set (the relaxation rule);
- counting the open waypoints;
- moving a location from open to closed;
- asking whether a location is closed.

Files:

- `wrappers.dfy`, module `Nullable`: `Option` (a nullable reference) and `Result` (a call that may throw).
- `location.dfy`, module `Locations`: Java `int` as `int32`, `Location`, `equals` over an abstract `Object`, and `hashCode` with explicit wrap-around (`Wrap32`).
- `waypoint.dfy`, module `Waypoints`: the accessors of a waypoint that the state reads (location, previous cost, total cost).
- `astar_state.dfy`, module `AStar`: the state as an immutable datatype, with one pure function per Java method. Closed is a `map<Location, Option<Waypoint>>`, because closing a location that is not open stores `null`.
- `astar_runs.dfy`, module `AStarRuns`: lemmas about sequences of operations as the search driver issues them.

The Java `HashMap`s become Dafny maps. `EqualsIsCoordinatewise` shows that `Location.equals` is exactly Dafny's value equality on `Location`, so, as long as no key's coordinates are changed after insertion, a Dafny map keyed by `Location` finds the same entries as the `HashMap`. `HashConsistentWithEquals` shows that the hash code agrees with `equals`.

The scan order of `getMinOpenWaypoint` is the `HashMap`'s key iteration order, which is not modelled. It is a parameter `order`, and the only requirement is that it lists exactly the open locations. The result is the first minimum in that order, because the Java loop replaces its best candidate only on a strictly smaller cost. `MinCostIndependentOfOrder` and `MinUniqueWithoutTies` show what does not depend on the order.

`getMap` and `isLocationClosed` are the plain functions `GetMap` and `IsLocationClosed`. Their behaviour is stated in the contracts of `NewState` and `CloseWaypoint` and in the lemma `ClosedOnlyGrows`.

Two behaviours of the Java code that the model keeps:

- The constructor throws `NullPointerException("map cannot be null")` on a null map (src/AStarState.java:36-37).
- `closeWaypoint` on a location that is not open stores `null` under it (src/AStarState.java:139-140): `HashMap.remove` returns `null`, and `put` records it in closed. From then on the location counts as closed (src/AStarState.java:150). When the location was already closed, its stored waypoint is overwritten with `null`.

## Model

| member | source | states |
|---|---|---|
| Locations.NewLocation | src/Location.java:15-19 | the two-argument constructor stores exactly the given x and y |
| Locations.DefaultLocation | src/Location.java:22-25 | the no-argument constructor is the location (0, 0) |
| Locations.Equals | src/Location.java:29-42 | `equals` holds exactly when the argument is a Location with both coordinates equal, i.e. the same Location value; it is false for null and for any object that is not a Location |
| Locations.EqualsReflexive | src/Location.java:29-42 | every location equals itself |
| Locations.EqualsSymmetric | src/Location.java:29-42 | a equals b exactly when b equals a |
| Locations.EqualsTransitive | src/Location.java:29-42 | a equals b and b equals c imply a equals c |
| Locations.EqualsNull | src/Location.java:31-41 | `equals(null)` is false |
| Locations.EqualsIsCoordinatewise | src/Location.java:29-42 | `equals` is coordinate-wise comparison and coincides with value equality of Locations |
| Locations.Wrap32 | src/Location.java:46-48 | Java int arithmetic: the result is in int range and congruent to the exact value modulo 2^32 |
| Locations.HashCode | src/Location.java:45-50 | the hash code is the int congruent to 37*(37*13 + x) + y modulo 2^32, although each step wraps separately |
| Locations.WrapIdentity | src/Location.java:46-48 | a value already in int range is not changed by wrapping |
| Locations.HashCodeSmall | src/Location.java:45-50 | for coordinates within one million of zero no overflow occurs and the hash is exactly 37*(37*13 + x) + y |
| Locations.HashCodeWraps | src/Location.java:45-50 | at (INT_MAX, INT_MAX) the computation overflows and the hash is 17759 |
| Locations.HashConsistentWithEquals | src/Location.java:29-50 | equal locations have equal hash codes |
| Locations.HashCollision | src/Location.java:29-50 | (0, 37) and (1, 0) have the same hash code but are not equal, so keys are told apart by `equals` |
| AStar.NewState | src/AStarState.java:35-47 | construction fails with a NullPointerException exactly when the map is null; on success `getMap` returns that map and both collections are empty |
| AStar.ScanIndex | src/AStarState.java:60-79 | the strict-`<` scan keeps a position whose total cost is minimal over the whole order and strictly below every earlier position |
| AStar.GetMinOpenWaypoint | src/AStarState.java:54-81 | null exactly when open is empty; otherwise a stored open waypoint whose total cost is at most every open waypoint's, namely the first such in scan order |
| AStar.AddOpenWaypoint | src/AStarState.java:93-122 | a new location is inserted (true, size + 1); an open location is replaced only by a strictly smaller previous cost (true, same size); otherwise false and the state is unchanged; closed, the map and all other open entries are untouched |
| AStar.NumOpenWaypoints | src/AStarState.java:128-131 | the open-set size as a Java int: zero exactly when open is empty, and exact up to Integer.MAX_VALUE |
| AStar.CloseWaypoint | src/AStarState.java:137-151 | the location leaves open and becomes closed, carrying the open waypoint or null if it was not open; every other entry of both collections is unchanged |
| AStarRuns.AddAllOpensTheirLocations | src/AStarState.java:93-122 | after a sequence of offers, the open locations are the earlier ones plus those offered, and closed is unchanged |
| AStarRuns.OpenCountIsDistinctLocations | src/AStarState.java:35-131 | from a fresh state, the open count after a sequence of offers is the number of distinct locations offered and nothing is closed |
| AStarRuns.StepKeepsWellKeyed | src/AStarState.java:93-141 | each operation keeps every open waypoint stored under its own location |
| AStarRuns.RunKeepsWellKeyed | src/AStarState.java:93-141 | any sequence of operations keeps every open waypoint stored under its own location |
| AStarRuns.ClosedOnlyGrows | src/AStarState.java:93-151 | no operation removes a closed location: once `isLocationClosed` is true it stays true |
| AStarRuns.StepKeepsDisjoint | src/AStarState.java:93-141 | closing keeps open and closed disjoint, and so does offering a location that is not closed |
| AStarRuns.RunKeepsDisjoint | src/AStarState.java:93-141 | open and closed stay disjoint for a driver that never offers a closed location |
| AStarRuns.AddIgnoresClosed | src/AStarState.java:93-122 | offering a closed location that is not open is accepted, leaving it both open and closed |
| AStarRuns.AcceptedWaypointBoundsMin | src/AStarState.java:54-122 | after an accepted offer, the next selected waypoint costs at most the offered total cost |
| AStarRuns.MinCostIndependentOfOrder | src/AStarState.java:54-81 | every scan order selects a waypoint of the same total cost |
| AStarRuns.MinUniqueWithoutTies | src/AStarState.java:54-81 | when no two open waypoints share a total cost, every scan order selects the same waypoint |
| AStarRuns.ClosedLocationNotSelected | src/AStarState.java:54-141 | a location just closed is never the next one selected |
| AStarRuns.ExampleRun | src/AStarState.java:93-151 | a concrete run: two discoveries, an improvement, a rejected worse offer, then a close, with the expected results and sizes |

## Left out

- Waypoint internals (heuristic cost, predecessor link, construction): the class is not part of this model. Only the three accessors the state reads are kept.
- Map2D internals: the class is not part of this model. It is an uninterpreted type, and a null reference is `None`.
- Float costs: costs are real numbers. NaN and rounding are not modelled.
- AStar.GetMinOpenWaypoint: the `Float.MAX_VALUE` starting value of the scan is not modelled. The scan starts with no candidate, so the first key always becomes the best so far. The Java loop would instead return null if every open total cost were at least `Float.MAX_VALUE` or NaN.
- HashMap iteration order: it is the abstract parameter `order`, not Java's bucket order.
- Location mutability and subclasses: `xCoord` and `yCoord` are public non-final fields and the class is not final (src/Location.java:8-11, 31). The model treats Location as a final, immutable value. Mutating a key after it was put into a HashMap, and `equals` holding for a subclass instance with equal coordinates, are not modelled.
- Null Waypoint and Location arguments: the search driver never passes them, so they are not modelled. In Java, `addOpenWaypoint(null)` throws `NullPointerException` at `getLocation()` (src/AStarState.java:95). A waypoint whose location is null is stored under the HashMap's null key (src/AStarState.java:120). `closeWaypoint(null)` puts `(null, null)` into closed, after which `isLocationClosed(null)` is true (src/AStarState.java:139-140, 150).
- Mutation and aliasing: each operation returns a new state value instead of updating fields in place.
- The outer search loop, heuristics, path reconstruction and threading: none of them belong to these classes.
