/**
 * The `TransportNetwork` object: a table of stations and a table of lines
 * that its methods update in place. Each method is proved to compute the
 * function of `TransitGraph` that specifies it.
 */
module TransportNetworks {

  import opened Wrappers
  import opened TransitGraph
  import opened TransitProperties

  class TransportNetwork {
    var stations: map<Id, GraphNode>
    var lines: map<Id, LineInternal>
    /** The order in which the lines were added: the order the line table is walked in. */
    var lineOrder: seq<Id>
    /** The number of route objects allocated so far; the next one gets this serial. */
    var routeCount: nat

    function Value(): Network
      reads this
    {
      Network(stations, lines, lineOrder, routeCount)
    }

    ghost predicate Valid()
      reads this
    {
      TransitGraph.Valid(Value())
    }

    /** The default constructor: no stations, no lines. */
    constructor ()
      ensures Value() == EmptyNetwork && Valid()
    {
      stations, lines, lineOrder, routeCount := map[], map[], [], 0;
    }

    /** The copy constructor (and the move constructor, which is the same here). */
    constructor Copy(other: TransportNetwork)
      ensures Value() == other.Value()
    {
      stations, lines, lineOrder, routeCount := other.stations, other.lines, other.lineOrder, other.routeCount;
    }

    /** Copy and move assignment. */
    method Assign(other: TransportNetwork)
      modifies this
      ensures Value() == old(other.Value())
    {
      stations, lines, lineOrder, routeCount := other.stations, other.lines, other.lineOrder, other.routeCount;
    }

    method AddStation(station: Station) returns (ok: bool)
      requires Valid()
      modifies this
      ensures Outcome(ok, Value()) == StationAdded(old(Value()), station)
      ensures Valid()
    {
      if station.id in stations {
        return false;
      }
      stations := stations[station.id := GraphNode(station.id, station.name, 0, [])];
      StationAddedValid(old(Value()), station);
      return true;
    }

    method AddLine(line: Line) returns (ok: bool)
      requires Valid()
      requires line.id !in lines ==> RoutesHaveStops(line.routes)
      modifies this
      ensures Outcome(ok, Value()) == LineAdded(old(Value()), line)
      ensures Valid()
    {
      if line.id in lines {
        return false;
      }
      var li := LineInternal(line.id, line.name, map[], []);
      ghost var start := li;
      var i := 0;
      while i < |line.routes|
        invariant i <= |line.routes|
        invariant RoutesAdded(old(Value()), start, line.routes) == RoutesAdded(Value(), li, line.routes[i..])
        decreases |line.routes| - i
      {
        assert line.routes[i..][1..] == line.routes[i + 1..];
        var added;
        added, li := AddRouteToLine(li, line.routes[i]);
        if !added {
          LineAddedValid(old(Value()), line);
          return false;
        }
        i := i + 1;
      }
      lines := lines[line.id := li];
      lineOrder := lineOrder + [line.id];
      LineAddedValid(old(Value()), line);
      return true;
    }

    /**
     * Allocates the route object, resolves every stop to a station, then
     * appends one edge per consecutive pair of stops.
     */
    method AddRouteToLine(li: LineInternal, route: Route) returns (added: bool, line: LineInternal)
      requires route.id !in li.routes ==> route.stops != []
      modifies this
      ensures RouteOutcome(added, Value(), line) == RouteAdded(old(Value()), li, route)
    {
      if route.id in li.routes {
        return false, li;
      }
      var key := RouteKey(routeCount, route.id);
      routeCount := routeCount + 1;
      var stops := route.stops;
      var k := 0;
      while k < |stops|
        invariant k <= |stops|
        invariant forall m :: 0 <= m < k ==> stops[m] in stations
      {
        if stops[k] !in stations {
          return false, li;
        }
        k := k + 1;
      }
      var idx := 0;
      while idx < |stops| - 1
        invariant idx <= |stops| - 1
        invariant stations == AddEdges(old(stations), key, stops[..idx + 1])
        invariant stations.Keys == old(stations).Keys
        invariant lines == old(lines) && lineOrder == old(lineOrder) && routeCount == key.serial + 1
      {
        assert stops[..idx + 2][..idx + 1] == stops[..idx + 1];
        var node := stations[stops[idx]];
        stations := stations[stops[idx] := node.(edges := node.edges + [GraphEdge(key, stops[idx + 1], 0)])];
        idx := idx + 1;
      }
      assert stops[..idx + 1] == stops;
      added := true;
      line := li.(routes := li.routes[route.id := RouteInternal(key, route.name, li.id, stops)],
                  routeOrder := li.routeOrder + [route.id]);
    }

    method RecordPassengerEvent(event: PassengerEvent) returns (ok: bool)
      requires Valid()
      modifies this
      ensures Outcome(ok, Value()) == EventRecorded(old(Value()), event)
      ensures Valid()
    {
      if event.stationId !in stations {
        return false;
      }
      var node := stations[event.stationId];
      match event.kind {
        case In =>
          stations := stations[event.stationId := node.(passengerCount := node.passengerCount + 1)];
        case Out =>
          stations := stations[event.stationId := node.(passengerCount := node.passengerCount - 1)];
      }
      EventRecordedValid(old(Value()), event);
      return true;
    }

    /** The count of an unknown station is `None`, where the source throws. */
    method GetPassengerCount(id: Id) returns (count: Option<int>)
      ensures count == PassengerCount(Value(), id)
    {
      if id !in stations {
        return None;
      }
      return Some(stations[id].passengerCount);
    }

    method GetRoutesServingStation(s: Id) returns (serving: seq<Id>)
      requires Valid()
      ensures serving == RoutesServing(Value(), s)
    {
      if s !in stations {
        return [];
      }
      var fromEdges := RouteIdsOfEdges(stations[s].edges);
      var ending := RoutesEndingIn(Value(), s);
      serving := fromEdges + ending;
    }

    /** The first loop of `GetRoutesServingStation`: the route id of each edge. */
    static method RouteIdsOfEdges(edges: seq<GraphEdge>) returns (ids: seq<Id>)
      ensures ids == EdgeRouteIds(edges)
    {
      ids := [];
      var e := 0;
      while e < |edges|
        invariant e <= |edges|
        invariant ids == EdgeRouteIds(edges[..e])
      {
        ids := ids + [edges[e].route.id];
        e := e + 1;
      }
      assert edges[..e] == edges;
    }

    /** The second loop of `GetRoutesServingStation`: over the lines, then over their routes. */
    static method RoutesEndingIn(n: Network, s: Id) returns (ids: seq<Id>)
      requires TransitGraph.Valid(n)
      ensures ids == LinesEnding(n, n.lineOrder, s)
    {
      ids := [];
      var l := 0;
      while l < |n.lineOrder|
        invariant l <= |n.lineOrder|
        invariant ids == LinesEnding(n, n.lineOrder[..l], s)
      {
        var li := n.lines[n.lineOrder[l]];
        assert TransitGraph.LineValid(li, n.stations);
        var found := RoutesEndingAt(li, s);
        assert n.lineOrder[..l + 1][..l] == n.lineOrder[..l];
        ids := ids + found;
        l := l + 1;
      }
      assert n.lineOrder[..l] == n.lineOrder;
    }

    /** The inner loop over the routes of one line. */
    static method RoutesEndingAt(li: LineInternal, s: Id) returns (found: seq<Id>)
      requires forall i :: 0 <= i < |li.routeOrder| ==>
        li.routeOrder[i] in li.routes && li.routes[li.routeOrder[i]].stops != []
      ensures found == RoutesEnding(li, li.routeOrder, s)
    {
      found := [];
      var r := 0;
      while r < |li.routeOrder|
        invariant r <= |li.routeOrder|
        invariant found == RoutesEnding(li, li.routeOrder[..r], s)
      {
        var stops := li.routes[li.routeOrder[r]].stops;
        assert li.routeOrder[..r + 1][..r] == li.routeOrder[..r];
        if stops[|stops| - 1] == s {
          found := found + [li.routeOrder[r]];
        }
        r := r + 1;
      }
      assert li.routeOrder[..r] == li.routeOrder;
    }

    method SetTravelTime(a: Id, b: Id, t: TravelTime) returns (found: bool)
      requires Valid()
      modifies this
      ensures Outcome(found, Value()) == TravelTimeSet(old(Value()), a, b, t)
      ensures Valid()
    {
      if a !in stations || b !in stations {
        return false;
      }
      var foundAB := SetEdgeTimes(a, b, t);
      var foundBA := SetEdgeTimes(b, a, t);
      found := foundAB || foundBA;
      TravelTimeSetValid(old(Value()), a, b, t);
    }

    /** The lambda of `SetTravelTime`: every edge from `from` to `to` gets time `t`. */
    method SetEdgeTimes(from: Id, to: Id, t: TravelTime) returns (found: bool)
      requires from in stations
      modifies this
      ensures stations == TimesSet(old(stations), from, to, t)
      ensures found == HasEdgeTo(old(stations)[from].edges, to)
      ensures lines == old(lines) && lineOrder == old(lineOrder) && routeCount == old(routeCount)
    {
      var original := stations[from].edges;
      var edges := original;
      found := false;
      var i := 0;
      while i < |edges|
        invariant i <= |edges| == |original|
        invariant forall m :: 0 <= m < i ==>
          edges[m] == if original[m].next == to then original[m].(travelTime := t) else original[m]
        invariant forall m :: i <= m < |edges| ==> edges[m] == original[m]
        invariant found <==> exists m :: 0 <= m < i && original[m].next == to
      {
        if edges[i].next == to {
          edges := edges[i := edges[i].(travelTime := t)];
          found := true;
        }
        i := i + 1;
      }
      assert edges == EdgeTimesSet(original, to, t);
      stations := stations[from := stations[from].(edges := edges)];
    }

    method GetTravelTime(a: Id, b: Id) returns (time: TravelTime)
      ensures time == TravelTimeBetween(Value(), a, b)
    {
      if a !in stations || b !in stations {
        return 0;
      }
      var forward := FirstEdgeToIn(stations[a].edges, b);
      if forward.Some? {
        return forward.value.travelTime;
      }
      var backward := FirstEdgeToIn(stations[b].edges, a);
      if backward.Some? {
        return backward.value.travelTime;
      }
      return 0;
    }

    /** The loops of `GetTravelTime(a, b)`: the first edge to `to`. */
    static method FirstEdgeToIn(edges: seq<GraphEdge>, to: Id) returns (r: Option<GraphEdge>)
      ensures r == FirstEdgeTo(edges, to)
    {
      var i := 0;
      while i < |edges|
        invariant i <= |edges|
        invariant FirstEdgeTo(edges[i..], to) == FirstEdgeTo(edges, to)
      {
        if edges[i].next == to {
          return Some(edges[i]);
        }
        assert edges[i..][1..] == edges[i + 1..];
        i := i + 1;
      }
      return None;
    }

    /** `GetTravelTime(line, route, a, b)`. */
    method GetRouteTravelTime(lineId: Id, routeId: Id, a: Id, b: Id) returns (time: TravelTime)
      requires Valid()
      ensures time == RouteTravelTime(Value(), lineId, routeId, a, b)
    {
      if a !in stations || b !in stations || lineId !in lines || routeId !in lines[lineId].routes {
        return 0;
      }
      var route := lines[lineId].routes[routeId];
      time := SumAlongRoute(stations, route.key, route.stops, a, b);
      assert Value().lines[lineId].routes[routeId] == route;
    }
  }

  /**
   * The loop of `GetTravelTime(line, route, a, b)`: walk the stops, start
   * adding at `a`, stop at `b`, add the time of the route's first edge out
   * of each stop, wrapping around at 32 bits.
   */
  method SumAlongRoute(stations: map<Id, GraphNode>, key: RouteKey, stops: seq<Id>, a: Id, b: Id)
    returns (time: TravelTime)
    requires StopsKnown(stops, stations)
    ensures time == RouteSum(stations, key, stops, a, b)
  {
    var foundA := false;
    time := 0;
    ghost var i: nat := 0;
    ghost var total: nat := 0;
    var m := 0;
    while m < |stops|
      invariant Walked(stations, key, stops, a, b, m, foundA, i, total, time)
      decreases |stops| - m
    {
      var done, answer;
      done, answer, foundA, i, total, time := WalkStop(stations, key, stops, a, b, m, foundA, i, total, time);
      if done {
        return answer;
      }
      m := m + 1;
    }
    WalkedToEnd(stations, key, stops, a, b, foundA, i, total, time);
    return 0;
  }

  /**
   * One turn of that loop, at stop `m`: either the walk ends here with its
   * answer (at `b`, or at a stop with no edge of the route), or it goes on
   * to the next stop.
   */
  method WalkStop(
    stations: map<Id, GraphNode>, key: RouteKey, stops: seq<Id>, a: Id, b: Id,
    m: nat, foundA: bool, ghost i: nat, ghost total: nat, time: TravelTime)
    returns (done: bool, answer: TravelTime, foundA': bool, ghost i': nat, ghost total': nat, time': TravelTime)
    requires StopsKnown(stops, stations) && m < |stops|
    requires Walked(stations, key, stops, a, b, m, foundA, i, total, time)
    ensures done ==> answer == RouteSum(stations, key, stops, a, b)
    ensures !done ==> Walked(stations, key, stops, a, b, m + 1, foundA', i', total', time')
  {
    done, answer, foundA', i', total', time' := false, 0, foundA, i, total, time;
    if stops[m] == a {
      foundA' := true;
    }
    if stops[m] == b {
      WalkedReachesB(stations, key, stops, a, b, m, foundA, i, total, time);
      return true, time, foundA', i', total', time';
    }
    if foundA' {
      if !foundA {
        i' := m;
      }
      var e := FirstRouteEdge(stations[stops[m]].edges, key);
      if e.None? {
        WalkedGap(stations, key, stops, a, b, m, foundA, i, total, time);
        return true, 0, foundA', i', total', time';
      }
      WalkedAdds(stations, key, stops, a, b, m, foundA, i, total, time, e.value);
      total' := total + e.value.travelTime;
      time' := (time + e.value.travelTime) % TravelTimeModulus;
    } else {
      WalkedSkips(stations, key, stops, a, b, m, i, total, time);
    }
  }
}
