/**
 * The part of a waypoint the search state reads: where it is, the cost of the
 * path that reached it, and the estimated total cost through it.
 */
module Waypoints {
  import opened Locations

  datatype Waypoint = Waypoint(location: Location, previousCost: real, totalCost: real)
}
