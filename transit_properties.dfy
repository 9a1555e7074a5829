/**
 * What the operations of `TransportNetwork` promise, stated over the
 * functions of `TransitGraph`: which calls succeed, what each one changes
 * and leaves alone, and the invariant `Valid` that all of them keep.
 */
module TransitProperties {

  import opened Wrappers
  import opened TransitGraph

  // ---------------------------------------------------------------------
  // The invariant

  lemma ListsAppend(order: seq<Id>, keys: set<Id>, k: Id)
    requires Lists(order, keys) && k !in keys
    ensures Lists(order + [k], keys + {k})
  {
  }

  /** Appending an edge changes no station but `from`, and keeps the table's keys. */
  lemma AddEdgesKeys(stations: map<Id, GraphNode>, key: RouteKey, stops: seq<Id>)
    ensures AddEdges(stations, key, stops).Keys == stations.Keys
    decreases |stops|
  {
    if |stops| >= 2 {
      AddEdgesKeys(stations, key, stops[..|stops| - 1]);
    }
  }

  /** Routes stopping at known stations still do so in a table with the same stations. */
  lemma LineValidSameStations(li: LineInternal, before: map<Id, GraphNode>, after: map<Id, GraphNode>)
    requires LineValid(li, before) && before.Keys == after.Keys
    ensures LineValid(li, after)
  {
    forall r | r in li.routes
      ensures StopsKnown(li.routes[r].stops, after)
    {
      assert StopsKnown(li.routes[r].stops, before);
    }
  }

  lemma NetworkValidSameStations(n: Network, after: map<Id, GraphNode>)
    requires Valid(n) && n.stations.Keys == after.Keys
    ensures Valid(n.(stations := after))
  {
    forall l | l in n.lines
      ensures LineValid(n.lines[l], after)
    {
      LineValidSameStations(n.lines[l], n.stations, after);
    }
  }

  lemma StationAddedValid(n: Network, station: Station)
    requires Valid(n)
    ensures Valid(StationAdded(n, station).net)
  {
    var after := StationAdded(n, station).net;
    forall l | l in n.lines
      ensures LineValid(n.lines[l], after.stations)
    {
      var li := n.lines[l];
      forall r | r in li.routes
        ensures StopsKnown(li.routes[r].stops, after.stations)
      {
        assert StopsKnown(li.routes[r].stops, n.stations);
      }
    }
  }

  /** One route added to a line keeps the network and the line valid, and keeps the line table. */
  lemma RouteAddedValid(n: Network, li: LineInternal, route: Route)
    requires Valid(n) && LineValid(li, n.stations)
    requires route.id !in li.routes ==> route.stops != []
    ensures var o := RouteAdded(n, li, route);
      && Valid(o.net) && LineValid(o.line, o.net.stations)
      && o.net.lines == n.lines && o.net.lineOrder == n.lineOrder
      && o.net.stations.Keys == n.stations.Keys && o.line.id == li.id
  {
    if route.id !in li.routes && StopsKnown(route.stops, n.stations) {
      var o := RouteAdded(n, li, route);
      var key := RouteKey(n.routeCount, route.id);
      AddEdgesKeys(n.stations, key, route.stops);
      NetworkValidSameStations(n, o.net.stations);
      LineValidSameStations(li, n.stations, o.net.stations);
      ListsAppend(li.routeOrder, li.routes.Keys, route.id);
      assert StopsKnown(route.stops, o.net.stations);
    }
  }

  lemma {:induction false} RoutesAddedValid(n: Network, li: LineInternal, routes: seq<Route>)
    requires Valid(n) && LineValid(li, n.stations) && RoutesHaveStops(routes)
    ensures var o := RoutesAdded(n, li, routes);
      && Valid(o.net) && LineValid(o.line, o.net.stations)
      && o.net.lines == n.lines && o.net.lineOrder == n.lineOrder
      && o.net.stations.Keys == n.stations.Keys && o.line.id == li.id
    decreases |routes|
  {
    if routes != [] {
      RouteAddedValid(n, li, routes[0]);
      var o := RouteAdded(n, li, routes[0]);
      if o.ok {
        assert RoutesHaveStops(routes[1..]) by {
          assert forall i :: 0 <= i < |routes[1..]| ==> routes[1..][i] == routes[i + 1];
        }
        RoutesAddedValid(o.net, o.line, routes[1..]);
      }
    }
  }

  lemma LineAddedValid(n: Network, line: Line)
    requires Valid(n)
    requires line.id !in n.lines ==> RoutesHaveStops(line.routes)
    ensures Valid(LineAdded(n, line).net)
  {
    if line.id !in n.lines {
      var start := LineInternal(line.id, line.name, map[], []);
      RoutesAddedValid(n, start, line.routes);
      var o := RoutesAdded(n, start, line.routes);
      if o.ok {
        ListsAppend(n.lineOrder, n.lines.Keys, line.id);
      }
    }
  }

  lemma EventRecordedValid(n: Network, event: PassengerEvent)
    requires Valid(n)
    ensures Valid(EventRecorded(n, event).net)
  {
    NetworkValidSameStations(n, EventRecorded(n, event).net.stations);
  }

  lemma TravelTimeSetValid(n: Network, a: Id, b: Id, t: TravelTime)
    requires Valid(n)
    ensures Valid(TravelTimeSet(n, a, b, t).net)
  {
    NetworkValidSameStations(n, TravelTimeSet(n, a, b, t).net.stations);
  }

  // ---------------------------------------------------------------------
  // Stations

  /**
   * Adding a station succeeds exactly when its id is new; it then adds one
   * station with no passengers and no edges and changes nothing else.
   */
  lemma StationAddedEffect(n: Network, station: Station)
    ensures StationAdded(n, station).ok <==> station.id !in n.stations
    ensures var after := StationAdded(n, station).net;
      && after.lines == n.lines
      && after.stations.Keys == n.stations.Keys + {station.id}
      && (forall s :: s in n.stations ==> after.stations[s] == n.stations[s])
    ensures StationAdded(n, station).ok ==>
      var node := StationAdded(n, station).net.stations[station.id];
      && PassengerCount(StationAdded(n, station).net, station.id) == Some(0)
      && node.edges == [] && node.name == station.name
  {
  }

  // ---------------------------------------------------------------------
  // Edges of a route

  /** Adding a route's edges appends to each station exactly the edges that start there, in order. */
  lemma {:induction false} AddEdgesEffect(stations: map<Id, GraphNode>, key: RouteKey, stops: seq<Id>, s: Id)
    requires s in stations
    ensures AddEdges(stations, key, stops).Keys == stations.Keys
    ensures AddEdges(stations, key, stops)[s] ==
      stations[s].(edges := stations[s].edges + EdgesFrom(s, key, stops))
    decreases |stops|
  {
    AddEdgesKeys(stations, key, stops);
    if |stops| >= 2 {
      AddEdgesEffect(stations, key, stops[..|stops| - 1], s);
    }
  }

  /**
   * The edges a route adds at station `s` are exactly the edges, of time 0
   * and tagged with the route, from `s` to the stop after each of its
   * visits to `s`.
   */
  lemma {:induction false} EdgesFromPairs(s: Id, key: RouteKey, stops: seq<Id>, e: GraphEdge)
    ensures e in EdgesFrom(s, key, stops) <==>
      exists i :: 0 <= i < |stops| - 1 && stops[i] == s && e == GraphEdge(key, stops[i + 1], 0)
    decreases |stops|
  {
    if |stops| >= 2 {
      var init := stops[..|stops| - 1];
      EdgesFromPairs(s, key, init, e);
      if e in EdgesFrom(s, key, init) {
        var i :| 0 <= i < |init| - 1 && init[i] == s && e == GraphEdge(key, init[i + 1], 0);
        assert stops[i] == s && stops[i + 1] == init[i + 1];
      }
      if exists i :: 0 <= i < |stops| - 1 && stops[i] == s && e == GraphEdge(key, stops[i + 1], 0) {
        var i :| 0 <= i < |stops| - 1 && stops[i] == s && e == GraphEdge(key, stops[i + 1], 0);
        if i < |stops| - 2 {
          assert init[i] == s && init[i + 1] == stops[i + 1];
        }
      }
    }
  }

  // ---------------------------------------------------------------------
  // Routes and lines

  /**
   * Adding a route to a line succeeds exactly when its id is new in the
   * line and all its stops are stations; it never touches the line table.
   * On success the route is filed with its stops and a fresh route object,
   * and each station gains the route's edges that start there; on failure
   * the stations and the line are unchanged.
   */
  lemma RouteAddedEffect(n: Network, li: LineInternal, route: Route)
    requires route.id !in li.routes ==> route.stops != []
    ensures var o := RouteAdded(n, li, route);
      && (o.ok <==> route.id !in li.routes && StopsKnown(route.stops, n.stations))
      && o.net.lines == n.lines && o.net.lineOrder == n.lineOrder
      && o.net.stations.Keys == n.stations.Keys
    ensures var o := RouteAdded(n, li, route);
      o.ok ==>
        && o.line.routes == li.routes[route.id := RouteInternal(RouteKey(n.routeCount, route.id), route.name, li.id, route.stops)]
        && forall s :: s in n.stations ==>
             o.net.stations[s].edges == n.stations[s].edges + EdgesFrom(s, RouteKey(n.routeCount, route.id), route.stops)
    ensures var o := RouteAdded(n, li, route);
      !o.ok ==> o.net.stations == n.stations && o.line == li
  {
    var key := RouteKey(n.routeCount, route.id);
    AddEdgesKeys(n.stations, key, route.stops);
    forall s | s in n.stations
      ensures AddEdges(n.stations, key, route.stops)[s].edges == n.stations[s].edges + EdgesFrom(s, key, route.stops)
    {
      AddEdgesEffect(n.stations, key, route.stops, s);
    }
  }

  /** The ids of a list of routes. */
  function RouteIds(routes: seq<Route>): set<Id> {
    set i | 0 <= i < |routes| :: routes[i].id
  }

  /** No two routes of the list share an id. */
  predicate DistinctIds(routes: seq<Route>) {
    forall i, j :: 0 <= i < j < |routes| ==> routes[i].id != routes[j].id
  }

  /** Every stop of every route is a station. */
  predicate AllStopsKnown(routes: seq<Route>, stations: map<Id, GraphNode>) {
    forall i :: 0 <= i < |routes| ==> StopsKnown(routes[i].stops, stations)
  }

  /** The ids and the distinctness of a list of routes, split at its first route. */
  lemma RoutesCons(routes: seq<Route>)
    requires routes != []
    ensures RouteIds(routes) == {routes[0].id} + RouteIds(routes[1..])
    ensures DistinctIds(routes) <==> DistinctIds(routes[1..]) && routes[0].id !in RouteIds(routes[1..])
  {
    var rest := routes[1..];
    forall x | x in RouteIds(routes)
      ensures x in {routes[0].id} + RouteIds(rest)
    {
      var i :| 0 <= i < |routes| && routes[i].id == x;
      if i > 0 {
        assert rest[i - 1].id == x;
      }
    }
    forall x | x in RouteIds(rest)
      ensures x in RouteIds(routes)
    {
      var i :| 0 <= i < |rest| && rest[i].id == x;
      assert routes[i + 1].id == x;
    }
    if DistinctIds(rest) && routes[0].id !in RouteIds(rest) {
      forall i, j | 0 <= i < j < |routes|
        ensures routes[i].id != routes[j].id
      {
        if i > 0 {
          assert routes[i] == rest[i - 1] && routes[j] == rest[j - 1];
        } else {
          assert routes[j] == rest[j - 1];
        }
      }
    }
    if DistinctIds(routes) {
      forall i, j | 0 <= i < j < |rest|
        ensures rest[i].id != rest[j].id
      {
        assert rest[i] == routes[i + 1] && rest[j] == routes[j + 1];
      }
    }
  }

  /** The routes can all be added to a line holding `known` ids, over the given stations. */
  predicate Acceptable(known: set<Id>, routes: seq<Route>, stations: map<Id, GraphNode>) {
    && DistinctIds(routes)
    && RouteIds(routes) !! known
    && AllStopsKnown(routes, stations)
  }

  /** A list of routes is acceptable when its first route is and the rest is, after it. */
  lemma AcceptableCons(known: set<Id>, routes: seq<Route>, stations: map<Id, GraphNode>, later: map<Id, GraphNode>)
    requires routes != []
    requires later.Keys == stations.Keys
    ensures Acceptable(known, routes, stations) <==>
      && routes[0].id !in known
      && StopsKnown(routes[0].stops, stations)
      && Acceptable(known + {routes[0].id}, routes[1..], later)
  {
    RoutesCons(routes);
    assert AllStopsKnown(routes, stations) <==>
      StopsKnown(routes[0].stops, stations) && AllStopsKnown(routes[1..], later)
    by {
      assert forall i :: 0 < i < |routes| ==> routes[i] == routes[1..][i - 1];
    }
  }

  /**
   * The routes of a line are all added exactly when their ids are new and
   * distinct and their stops are stations. The line table is not touched
   * and no station is added.
   */
  lemma {:induction false} RoutesAddedAccepts(n: Network, li: LineInternal, routes: seq<Route>)
    requires RoutesHaveStops(routes)
    ensures var o := RoutesAdded(n, li, routes);
      && (o.ok <==> Acceptable(li.routes.Keys, routes, n.stations))
      && o.net.lines == n.lines && o.net.lineOrder == n.lineOrder
      && o.net.stations.Keys == n.stations.Keys
    decreases |routes|
  {
    if routes != [] {
      var first := RouteAdded(n, li, routes[0]);
      RouteAddedEffect(n, li, routes[0]);
      AcceptableCons(li.routes.Keys, routes, n.stations, first.net.stations);
      if first.ok {
        RouteAddedFiles(n, li, routes[0]);
        RoutesAddedAccepts(first.net, first.line, routes[1..]);
      }
    } else {
      assert RouteIds(routes) == {};
    }
  }

  /** An accepted route is filed in its line, beside the line's earlier routes. */
  lemma RouteAddedFiles(n: Network, li: LineInternal, route: Route)
    requires route.id !in li.routes ==> route.stops != []
    requires RouteAdded(n, li, route).ok
    ensures var line := RouteAdded(n, li, route).line;
      && route.id !in li.routes
      && line.routes.Keys == li.routes.Keys + {route.id}
      && (forall r :: r in li.routes ==> line.routes[r] == li.routes[r])
      && line.routes[route.id].stops == route.stops
      && line.routes[route.id].name == route.name
  {
  }

  /**
   * `after` holds the routes of `before` unchanged and, besides them,
   * each of `routes` under its own id with its own name and stops.
   */
  predicate Files(before: LineInternal, after: LineInternal, routes: seq<Route>) {
    && after.routes.Keys == before.routes.Keys + RouteIds(routes)
    && (forall r :: r in before.routes ==> after.routes[r] == before.routes[r])
    && (forall i :: 0 <= i < |routes| ==>
          routes[i].id in after.routes
          && after.routes[routes[i].id].stops == routes[i].stops
          && after.routes[routes[i].id].name == routes[i].name)
  }

  /** Filing the first route and then the others files them all. */
  lemma FilesCons(a: LineInternal, b: LineInternal, c: LineInternal, routes: seq<Route>)
    requires routes != []
    requires routes[0].id !in a.routes
    requires b.routes.Keys == a.routes.Keys + {routes[0].id}
    requires forall r :: r in a.routes ==> b.routes[r] == a.routes[r]
    requires b.routes[routes[0].id].stops == routes[0].stops
    requires b.routes[routes[0].id].name == routes[0].name
    requires Files(b, c, routes[1..])
    ensures Files(a, c, routes)
  {
    RoutesCons(routes);
    forall i | 0 < i < |routes|
      ensures routes[i].id in c.routes
      ensures c.routes[routes[i].id].stops == routes[i].stops
      ensures c.routes[routes[i].id].name == routes[i].name
    {
      assert routes[i] == routes[1..][i - 1];
    }
  }

  /**
   * Once all routes of a line are added, the line holds its earlier routes
   * unchanged and each new route under its own id, with its own name and
   * stops.
   */
  lemma {:induction false} RoutesAddedContents(n: Network, li: LineInternal, routes: seq<Route>)
    requires RoutesHaveStops(routes)
    requires RoutesAdded(n, li, routes).ok
    ensures Files(li, RoutesAdded(n, li, routes).line, routes)
    decreases |routes|
  {
    if routes != [] {
      var first := RouteAdded(n, li, routes[0]);
      assert first.ok;
      var last := RoutesAdded(first.net, first.line, routes[1..]);
      assert RoutesAdded(n, li, routes) == last;
      RouteAddedFiles(n, li, routes[0]);
      RoutesAddedContents(first.net, first.line, routes[1..]);
      FilesCons(li, first.line, last.line, routes);
    } else {
      assert RouteIds(routes) == {};
    }
  }

  /** Adding routes to a line leaves the line's own id and name alone. */
  lemma {:induction false} RoutesAddedKeepsLine(n: Network, li: LineInternal, routes: seq<Route>)
    requires RoutesHaveStops(routes)
    ensures RoutesAdded(n, li, routes).line.id == li.id
    ensures RoutesAdded(n, li, routes).line.name == li.name
    decreases |routes|
  {
    if routes != [] {
      var first := RouteAdded(n, li, routes[0]);
      if first.ok {
        RoutesAddedKeepsLine(first.net, first.line, routes[1..]);
      }
    }
  }

  /**
   * Adding a line succeeds exactly when its id is new, its route ids are
   * distinct, and all their stops are stations; it then registers the line
   * with all its routes, last in the order of lines. A refused line is not
   * registered, though a route added before the refusal keeps its edges.
   */
  lemma LineAddedEffect(n: Network, line: Line)
    requires line.id !in n.lines ==> RoutesHaveStops(line.routes)
    ensures var o := LineAdded(n, line);
      && (o.ok <==> line.id !in n.lines && Acceptable({}, line.routes, n.stations))
      && o.net.stations.Keys == n.stations.Keys
    ensures var o := LineAdded(n, line);
      o.ok ==>
        && o.net.lines.Keys == n.lines.Keys + {line.id}
        && o.net.lineOrder == n.lineOrder + [line.id]
        && (forall l :: l in n.lines ==> o.net.lines[l] == n.lines[l])
        && o.net.lines[line.id].id == line.id && o.net.lines[line.id].name == line.name
        && Files(LineInternal(line.id, line.name, map[], []), o.net.lines[line.id], line.routes)
    ensures var o := LineAdded(n, line);
      !o.ok ==> o.net.lines == n.lines && o.net.lineOrder == n.lineOrder
  {
    if line.id !in n.lines {
      var start := LineInternal(line.id, line.name, map[], []);
      var o := RoutesAdded(n, start, line.routes);
      RoutesAddedAccepts(n, start, line.routes);
      if o.ok {
        RoutesAddedContents(n, start, line.routes);
        RoutesAddedKeepsLine(n, start, line.routes);
        assert LineAdded(n, line).net.lines[line.id] == o.line;
      }
    }
  }

  // ---------------------------------------------------------------------
  // Passengers

  /**
   * Recording an event succeeds exactly when the station is known; it then
   * moves that station's count by one, up for `In` and down for `Out`, and
   * changes no other station and no line.
   */
  lemma EventRecordedEffect(n: Network, event: PassengerEvent)
    ensures EventRecorded(n, event).ok <==> event.stationId in n.stations
    ensures var after := EventRecorded(n, event).net;
      && after.lines == n.lines
      && after.stations.Keys == n.stations.Keys
      && (forall s :: s in n.stations && s != event.stationId ==> after.stations[s] == n.stations[s])
    ensures event.stationId in n.stations ==>
      var after := EventRecorded(n, event).net;
      && PassengerCount(after, event.stationId).value ==
           PassengerCount(n, event.stationId).value + (if event.kind == In then 1 else -1)
      && after.stations[event.stationId].edges == n.stations[event.stationId].edges
    ensures !EventRecorded(n, event).ok ==> EventRecorded(n, event).net == n
  {
  }

  /** A passenger getting in and then out of a station leaves the network as it was. */
  lemma InThenOutRestores(n: Network, id: Id)
    ensures EventRecorded(EventRecorded(n, PassengerEvent(id, In)).net, PassengerEvent(id, Out)).net == n
  {
    if id in n.stations {
      var after := EventRecorded(EventRecorded(n, PassengerEvent(id, In)).net, PassengerEvent(id, Out)).net;
      assert after.stations == n.stations;
    }
  }

  /** The count of a station is known exactly for the stations of the network. */
  lemma PassengerCountKnown(n: Network, id: Id)
    ensures PassengerCount(n, id).Some? <==> id in n.stations
    ensures PassengerCount(StationAdded(n, Station(id, [])).net, id).Some?
    ensures id !in n.stations ==> PassengerCount(StationAdded(n, Station(id, [])).net, id) == Some(0)
  {
  }

  // ---------------------------------------------------------------------
  // Travel times

  /** Setting times leaves the targets of the edges alone. */
  lemma EdgeTimesSetTargets(edges: seq<GraphEdge>, to: Id, t: TravelTime, x: Id)
    ensures HasEdgeTo(EdgeTimesSet(edges, to, t), x) <==> HasEdgeTo(edges, x)
  {
    var set_ := EdgeTimesSet(edges, to, t);
    if HasEdgeTo(edges, x) {
      var i :| 0 <= i < |edges| && edges[i].next == x;
      assert set_[i].next == x;
    }
    if HasEdgeTo(set_, x) {
      var i :| 0 <= i < |set_| && set_[i].next == x;
      assert edges[i].next == x;
    }
  }

  /** With no edge to `to`, setting the times changes nothing. */
  lemma EdgeTimesSetNone(edges: seq<GraphEdge>, to: Id, t: TravelTime)
    requires !HasEdgeTo(edges, to)
    ensures EdgeTimesSet(edges, to, t) == edges
  {
  }

  /** There is a first edge to `to` exactly when there is an edge to `to`. */
  lemma {:induction false} FirstEdgeToFound(edges: seq<GraphEdge>, to: Id)
    ensures FirstEdgeTo(edges, to).Some? <==> HasEdgeTo(edges, to)
    ensures FirstEdgeTo(edges, to).Some? ==> FirstEdgeTo(edges, to).value.next == to
    decreases |edges|
  {
    if edges != [] && edges[0].next != to {
      FirstEdgeToFound(edges[1..], to);
      if HasEdgeTo(edges, to) {
        var i :| 0 <= i < |edges| && edges[i].next == to;
        assert edges[1..][i - 1].next == to;
      }
      if HasEdgeTo(edges[1..], to) {
        var i :| 0 <= i < |edges[1..]| && edges[1..][i].next == to;
        assert edges[i + 1].next == to;
      }
    }
  }

  /** After setting the times of the edges to `to`, the first of them has the new time. */
  lemma {:induction false} FirstEdgeToAfterSet(edges: seq<GraphEdge>, to: Id, t: TravelTime)
    requires HasEdgeTo(edges, to)
    ensures FirstEdgeTo(EdgeTimesSet(edges, to, t), to).Some?
    ensures FirstEdgeTo(EdgeTimesSet(edges, to, t), to).value.travelTime == t
    decreases |edges|
  {
    var set_ := EdgeTimesSet(edges, to, t);
    if edges[0].next != to {
      assert set_[1..] == EdgeTimesSet(edges[1..], to, t);
      var i :| 0 <= i < |edges| && edges[i].next == to;
      assert edges[1..][i - 1].next == to;
      FirstEdgeToAfterSet(edges[1..], to, t);
    }
  }

  /**
   * `SetTravelTime` succeeds exactly when both stations are known and an
   * edge joins them in either direction. It then makes the time between
   * them, read in either order, the new time; otherwise nothing changes.
   * No other station, no counter and no line is touched.
   */
  lemma TravelTimeSetEffect(n: Network, a: Id, b: Id, t: TravelTime)
    ensures var o := TravelTimeSet(n, a, b, t);
      o.ok <==> (a in n.stations && b in n.stations &&
                 (HasEdgeTo(n.stations[a].edges, b) || HasEdgeTo(n.stations[b].edges, a)))
    ensures var o := TravelTimeSet(n, a, b, t);
      o.ok ==> TravelTimeBetween(o.net, a, b) == t && TravelTimeBetween(o.net, b, a) == t
    ensures var o := TravelTimeSet(n, a, b, t);
      !o.ok ==> o.net == n
    ensures var o := TravelTimeSet(n, a, b, t);
      && o.net.lines == n.lines
      && o.net.stations.Keys == n.stations.Keys
      && (forall s :: s in n.stations && s != a && s != b ==> o.net.stations[s] == n.stations[s])
      && (forall s :: s in n.stations ==> o.net.stations[s].passengerCount == n.stations[s].passengerCount)
  {
    if a in n.stations && b in n.stations {
      var st := n.stations;
      var afterA := TimesSet(st, a, b, t);
      var afterB := TimesSet(afterA, b, a, t);
      EdgeTimesSetTargets(st[a].edges, b, t, a);
      EdgeTimesSetTargets(st[a].edges, b, t, b);
      if a == b {
        EdgeTimesSetTargets(afterA[a].edges, a, t, a);
        if HasEdgeTo(st[a].edges, a) {
          FirstEdgeToAfterSet(afterA[a].edges, a, t);
        } else {
          EdgeTimesSetNone(st[a].edges, a, t);
          EdgeTimesSetNone(afterA[a].edges, a, t);
          assert afterB == st;
        }
      } else {
        assert afterB[a].edges == EdgeTimesSet(st[a].edges, b, t);
        assert afterB[b].edges == EdgeTimesSet(st[b].edges, a, t);
        EdgeTimesSetTargets(st[b].edges, a, t, b);
        EdgeTimesSetTargets(st[b].edges, a, t, a);
        FirstEdgeToFound(afterB[a].edges, b);
        FirstEdgeToFound(afterB[b].edges, a);
        if HasEdgeTo(st[a].edges, b) {
          FirstEdgeToAfterSet(st[a].edges, b, t);
        }
        if HasEdgeTo(st[b].edges, a) {
          FirstEdgeToAfterSet(st[b].edges, a, t);
        }
        if !HasEdgeTo(st[a].edges, b) && !HasEdgeTo(st[b].edges, a) {
          EdgeTimesSetNone(st[a].edges, b, t);
          EdgeTimesSetNone(st[b].edges, a, t);
          assert afterB == st;
        }
      }
    }
  }

  /** The time between an unknown station and any other is 0. */
  lemma TravelTimeUnknownStation(n: Network, a: Id, b: Id)
    requires a !in n.stations || b !in n.stations
    ensures TravelTimeBetween(n, a, b) == 0 && TravelTimeBetween(n, b, a) == 0
  {
  }

  /** Between two stations joined in one direction only, the time reads the same both ways. */
  lemma TravelTimeOneWay(n: Network, a: Id, b: Id)
    requires a in n.stations && b in n.stations
    requires !HasEdgeTo(n.stations[b].edges, a)
    ensures TravelTimeBetween(n, a, b) == TravelTimeBetween(n, b, a)
  {
    FirstEdgeToFound(n.stations[b].edges, a);
    FirstEdgeToFound(n.stations[a].edges, b);
  }

  // ---------------------------------------------------------------------
  // Travel time along a route

  /** A route time is 0 when `b` is not a stop of the route, or `a` is not a stop before it. */
  lemma RouteSumZero(stations: map<Id, GraphNode>, key: RouteKey, stops: seq<Id>, a: Id, b: Id)
    requires b !in stops || (exists j :: 0 <= j < |stops| && stops[j] == b && b !in stops[..j] && a !in stops[..j])
    ensures RouteSum(stations, key, stops, a, b) == 0
  {
    if b in stops {
      var j :| 0 <= j < |stops| && stops[j] == b && b !in stops[..j] && a !in stops[..j];
      IndexOfFirst(stops, b, j);
    }
  }

  /**
   * Between the first visits `i` and `j` of two stops, `i` before `j`, the
   * route time is the 32-bit path time from `i` up to `j`, or 0 when some
   * stop in between has no edge of the route.
   */
  lemma RouteSumAt(stations: map<Id, GraphNode>, key: RouteKey, stops: seq<Id>, i: nat, j: nat)
    requires i < j < |stops|
    requires stops[i] !in stops[..i] && stops[j] !in stops[..j]
    ensures PathTime(stations, key, stops[i..j]).None? ==> RouteSum(stations, key, stops, stops[i], stops[j]) == 0
    ensures PathTime(stations, key, stops[i..j]).Some? ==>
      RouteSum(stations, key, stops, stops[i], stops[j]) == PathTime(stations, key, stops[i..j]).value % TravelTimeModulus
  {
    IndexOfFirst(stops, stops[j], j);
    assert stops[..j][..i] == stops[..i];
    IndexOfFirst(stops[..j], stops[i], i);
  }

  /**
   * Between consecutive stops, each met for the first time, the route time
   * is the time of the route's edge out of the first of them.
   */
  lemma RouteSumAdjacent(stations: map<Id, GraphNode>, key: RouteKey, stops: seq<Id>, k: nat, e: GraphEdge)
    requires k + 1 < |stops| && stops[k] in stations
    requires stops[k] !in stops[..k] && stops[k + 1] !in stops[..k + 1]
    requires FirstRouteEdge(stations[stops[k]].edges, key) == Some(e)
    ensures RouteSum(stations, key, stops, stops[k], stops[k + 1]) == e.travelTime
  {
    RouteSumAt(stations, key, stops, k, k + 1);
    var path := stops[k..k + 1];
    assert path[..|path| - 1] == [] && path[|path| - 1] == stops[k];
    assert PathTime(stations, key, path) == Some(e.travelTime);
  }

  /** The time of a path is the sum of the times of its parts, and defined exactly when theirs are. */
  lemma {:induction false} PathTimeAppend(stations: map<Id, GraphNode>, key: RouteKey, p: seq<Id>, q: seq<Id>)
    ensures PathTime(stations, key, p + q).Some? <==>
      PathTime(stations, key, p).Some? && PathTime(stations, key, q).Some?
    ensures PathTime(stations, key, p + q).Some? ==>
      PathTime(stations, key, p + q).value == PathTime(stations, key, p).value + PathTime(stations, key, q).value
    decreases |q|
  {
    if q == [] {
      assert p + q == p;
    } else {
      var init := q[..|q| - 1];
      assert (p + q)[..|p + q| - 1] == p + init;
      assert (p + q)[|p + q| - 1] == q[|q| - 1];
      PathTimeAppend(stations, key, p, init);
    }
  }

  /**
   * Times along a route compose: the 32-bit time of a stretch of stops, when
   * the route has an edge out of each of them, is the 32-bit sum of the
   * 32-bit times of its two parts. With `RouteSumAt`, the time between two
   * stops is the sum of the times through any stop first visited between
   * them.
   */
  lemma PathTimeSplit(stations: map<Id, GraphNode>, key: RouteKey, stops: seq<Id>, i: nat, k: nat, j: nat)
    requires i <= k <= j <= |stops|
    requires PathTime(stations, key, stops[i..j]).Some?
    ensures PathTime(stations, key, stops[i..k]).Some? && PathTime(stations, key, stops[k..j]).Some?
    ensures PathTime(stations, key, stops[i..j]).value % TravelTimeModulus ==
      (PathTime(stations, key, stops[i..k]).value % TravelTimeModulus
       + PathTime(stations, key, stops[k..j]).value % TravelTimeModulus) % TravelTimeModulus
  {
    assert stops[i..j] == stops[i..k] + stops[k..j];
    PathTimeAppend(stations, key, stops[i..k], stops[k..j]);
    ModSum(PathTime(stations, key, stops[i..k]).value, PathTime(stations, key, stops[k..j]).value);
  }

  /** Reducing the parts of a sum modulo 2^32 does not change the reduced sum. */
  lemma ModSum(x: nat, y: nat)
    ensures (x % TravelTimeModulus + y % TravelTimeModulus) % TravelTimeModulus == (x + y) % TravelTimeModulus
  {
    ModAdd(x, y % TravelTimeModulus);
    ModAdd(y, x);
  }

  // ---------------------------------------------------------------------
  // Routes serving a station

  /** The last stop of a route is `s`. */
  predicate EndsAt(route: RouteInternal, s: Id) {
    route.stops != [] && route.stops[|route.stops| - 1] == s
  }

  /** A route id is among those of `order` ending at `s` exactly when a route of the line with that id, listed in `order`, ends at `s`. */
  lemma {:induction false} RoutesEndingMembers(li: LineInternal, order: seq<Id>, s: Id, r: Id)
    requires forall i :: 0 <= i < |order| ==> order[i] in li.routes && li.routes[order[i]].stops != []
    ensures r in RoutesEnding(li, order, s) <==> r in order && r in li.routes && EndsAt(li.routes[r], s)
    decreases |order|
  {
    if order != [] {
      var init := order[..|order| - 1];
      RoutesEndingMembers(li, init, s, r);
      assert order == init + [order[|order| - 1]];
    }
  }

  /** A route id is among those of the lines of `order` ending at `s` exactly when one of those lines has such a route. */
  lemma {:induction false} LinesEndingMembers(n: Network, order: seq<Id>, s: Id, r: Id)
    requires Valid(n)
    requires forall i :: 0 <= i < |order| ==> order[i] in n.lines
    ensures r in LinesEnding(n, order, s) <==>
      exists l :: l in order && r in n.lines[l].routes && EndsAt(n.lines[l].routes[r], s)
    decreases |order|
  {
    if order != [] {
      var init := order[..|order| - 1];
      var last := order[|order| - 1];
      var li := n.lines[last];
      assert LineValid(li, n.stations);
      LinesEndingMembers(n, init, s, r);
      RoutesEndingMembers(li, li.routeOrder, s, r);
      assert order == init + [last];
    }
  }

  /**
   * `GetRoutesServingStation` lists a route id exactly when the station is
   * known and either one of its edges belongs to a route with that id, or
   * some line has a route with that id whose last stop is the station.
   */
  lemma RoutesServingMembers(n: Network, s: Id, r: Id)
    requires Valid(n)
    ensures r in RoutesServing(n, s) <==>
      && s in n.stations
      && ((exists e :: e in n.stations[s].edges && e.route.id == r)
          || (exists l :: l in n.lines && r in n.lines[l].routes && EndsAt(n.lines[l].routes[r], s)))
  {
    if s in n.stations {
      var edges := n.stations[s].edges;
      LinesEndingMembers(n, n.lineOrder, s, r);
      if r in EdgeRouteIds(edges) {
        var i :| 0 <= i < |edges| && EdgeRouteIds(edges)[i] == r;
        assert edges[i] in edges;
      }
      if exists e :: e in edges && e.route.id == r {
        var e :| e in edges && e.route.id == r;
        var i :| 0 <= i < |edges| && edges[i] == e;
        assert EdgeRouteIds(edges)[i] == r;
      }
    }
  }
}
