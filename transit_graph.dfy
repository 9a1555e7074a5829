/**
 * The transit network as a value: stations with their passenger counters
 * and outgoing edges, lines with their routes, and one function per
 * operation of `TransportNetwork` giving its result and the new network.
 *
 * The source links its nodes with shared pointers. Station ids are unique,
 * so a pointer to a station is modelled by the station's id. Route objects
 * are compared by identity, and two routes of different lines may share an
 * id, so each route object gets a `RouteKey`: the serial number of its
 * allocation and its id.
 */
module TransitGraph {

  import opened Wrappers

  type Id = string

  /** `uint32_t` arithmetic is modulo this number. */
  const TravelTimeModulus: int := 0x1_0000_0000

  type TravelTime = t: int | 0 <= t < 0x1_0000_0000

  // ---------------------------------------------------------------------
  // The public records

  datatype Station = Station(id: Id, name: string)

  datatype Route = Route(
    id: Id, name: string, lineId: Id, startStationId: Id, endStationId: Id, stops: seq<Id>)

  datatype Line = Line(id: Id, name: string, routes: seq<Route>)

  datatype EventType = In | Out

  datatype PassengerEvent = PassengerEvent(stationId: Id, kind: EventType)

  // ---------------------------------------------------------------------
  // The internal graph

  /** The identity of one route object: its allocation serial and its id. */
  datatype RouteKey = RouteKey(serial: nat, id: Id)

  /** An edge from a station to the next stop of a route. */
  datatype GraphEdge = GraphEdge(route: RouteKey, next: Id, travelTime: TravelTime)

  datatype GraphNode = GraphNode(id: Id, name: string, passengerCount: int, edges: seq<GraphEdge>)

  datatype RouteInternal = RouteInternal(key: RouteKey, name: string, lineId: Id, stops: seq<Id>)

  /** A line and its routes; `routeOrder` is the order in which the routes were added. */
  datatype LineInternal = LineInternal(id: Id, name: string, routes: map<Id, RouteInternal>, routeOrder: seq<Id>)

  /**
   * The whole network. `lineOrder` is the order in which the lines were
   * added; `routeCount` is the number of route objects allocated so far.
   */
  datatype Network = Network(
    stations: map<Id, GraphNode>, lines: map<Id, LineInternal>, lineOrder: seq<Id>, routeCount: nat)

  const EmptyNetwork: Network := Network(map[], map[], [], 0)

  /** `order` lists the elements of `keys`, each once. */
  predicate Lists(order: seq<Id>, keys: set<Id>) {
    && (forall i :: 0 <= i < |order| ==> order[i] in keys)
    && (forall k :: k in keys ==> k in order)
    && (forall i, j :: 0 <= i < j < |order| ==> order[i] != order[j])
  }

  predicate StopsKnown(stops: seq<Id>, stations: map<Id, GraphNode>) {
    forall m :: 0 <= m < |stops| ==> stops[m] in stations
  }

  /** Every route of the line is filed under its own id, has a stop, and stops only at known stations. */
  predicate LineValid(li: LineInternal, stations: map<Id, GraphNode>) {
    && Lists(li.routeOrder, li.routes.Keys)
    && forall r :: r in li.routes ==>
         && li.routes[r].key.id == r
         && li.routes[r].stops != []
         && StopsKnown(li.routes[r].stops, stations)
  }

  /** What every operation keeps: the orders list the tables, and routes stop at known stations. */
  predicate Valid(n: Network) {
    && Lists(n.lineOrder, n.lines.Keys)
    && forall l :: l in n.lines ==> LineValid(n.lines[l], n.stations)
  }

  /** What an operation returns, and the network after it. */
  datatype Outcome = Outcome(ok: bool, net: Network)

  // ---------------------------------------------------------------------
  // Stations

  /** `AddStation`: refused for an id already present, else a node with no passengers and no edges. */
  function StationAdded(n: Network, station: Station): Outcome {
    if station.id in n.stations then
      Outcome(false, n)
    else
      Outcome(true, n.(stations := n.stations[station.id := GraphNode(station.id, station.name, 0, [])]))
  }

  // ---------------------------------------------------------------------
  // Lines and routes

  /** Appends edge `e` to the edges of station `from`. */
  function AppendEdge(stations: map<Id, GraphNode>, from: Id, e: GraphEdge): map<Id, GraphNode> {
    if from in stations then stations[from := stations[from].(edges := stations[from].edges + [e])] else stations
  }

  /** One edge, of time 0, from each stop to the next one, appended in the order of the stops. */
  function AddEdges(stations: map<Id, GraphNode>, key: RouteKey, stops: seq<Id>): map<Id, GraphNode>
    decreases |stops|
  {
    if |stops| < 2 then
      stations
    else
      AppendEdge(AddEdges(stations, key, stops[..|stops| - 1]), stops[|stops| - 2], GraphEdge(key, stops[|stops| - 1], 0))
  }

  /** The edges a route with these stops adds to station `s`, in order. */
  function EdgesFrom(s: Id, key: RouteKey, stops: seq<Id>): seq<GraphEdge>
    decreases |stops|
  {
    if |stops| < 2 then
      []
    else
      EdgesFrom(s, key, stops[..|stops| - 1]) +
      (if stops[|stops| - 2] == s then [GraphEdge(key, stops[|stops| - 1], 0)] else [])
  }

  datatype RouteOutcome = RouteOutcome(ok: bool, net: Network, line: LineInternal)

  /**
   * `AddRouteToLine`: refused for a route id the line already has; a new
   * route object is allocated; refused for a stop that is not a station;
   * else one edge per consecutive pair of stops, and the route filed in
   * the line.
   */
  function RouteAdded(n: Network, li: LineInternal, route: Route): RouteOutcome
    requires route.id !in li.routes ==> route.stops != []
  {
    if route.id in li.routes then
      RouteOutcome(false, n, li)
    else
      var key := RouteKey(n.routeCount, route.id);
      var counted := n.(routeCount := n.routeCount + 1);
      if !StopsKnown(route.stops, n.stations) then
        RouteOutcome(false, counted, li)
      else
        RouteOutcome(
          true,
          counted.(stations := AddEdges(n.stations, key, route.stops)),
          li.(routes := li.routes[route.id := RouteInternal(key, route.name, li.id, route.stops)],
              routeOrder := li.routeOrder + [route.id]))
  }

  predicate RoutesHaveStops(routes: seq<Route>) {
    forall i :: 0 <= i < |routes| ==> routes[i].stops != []
  }

  /** The routes of a line added one by one, stopping at the first one refused. */
  function RoutesAdded(n: Network, li: LineInternal, routes: seq<Route>): RouteOutcome
    requires RoutesHaveStops(routes)
    decreases |routes|
  {
    if routes == [] then
      RouteOutcome(true, n, li)
    else
      var o := RouteAdded(n, li, routes[0]);
      if !o.ok then o else RoutesAdded(o.net, o.line, routes[1..])
  }

  /**
   * `AddLine`: refused for an id already present or when a route is
   * refused; the line is registered only when all its routes were added.
   * The edges of the routes added before a refused one stay in place.
   */
  function LineAdded(n: Network, line: Line): Outcome
    requires line.id !in n.lines ==> RoutesHaveStops(line.routes)
  {
    if line.id in n.lines then
      Outcome(false, n)
    else
      var o := RoutesAdded(n, LineInternal(line.id, line.name, map[], []), line.routes);
      if !o.ok then
        Outcome(false, o.net)
      else
        Outcome(true, o.net.(lines := o.net.lines[line.id := o.line], lineOrder := o.net.lineOrder + [line.id]))
  }

  // ---------------------------------------------------------------------
  // Passengers

  /** `RecordPassengerEvent`: refused for an unknown station, else one more or one fewer passenger there. */
  function EventRecorded(n: Network, event: PassengerEvent): Outcome {
    if event.stationId !in n.stations then
      Outcome(false, n)
    else
      var node := n.stations[event.stationId];
      var delta := if event.kind == In then 1 else -1;
      Outcome(true, n.(stations := n.stations[event.stationId := node.(passengerCount := node.passengerCount + delta)]))
  }

  /** `GetPassengerCount`: `None` stands for the exception thrown for an unknown station. */
  function PassengerCount(n: Network, id: Id): Option<int> {
    if id in n.stations then Some(n.stations[id].passengerCount) else None
  }

  // ---------------------------------------------------------------------
  // Travel times between two stations

  predicate HasEdgeTo(edges: seq<GraphEdge>, to: Id) {
    exists i :: 0 <= i < |edges| && edges[i].next == to
  }

  /** Every edge to `to` gets time `t`; the others are unchanged. */
  function EdgeTimesSet(edges: seq<GraphEdge>, to: Id, t: TravelTime): seq<GraphEdge> {
    seq(|edges|, i requires 0 <= i < |edges| => if edges[i].next == to then edges[i].(travelTime := t) else edges[i])
  }

  function TimesSet(stations: map<Id, GraphNode>, from: Id, to: Id, t: TravelTime): map<Id, GraphNode>
    requires from in stations
  {
    stations[from := stations[from].(edges := EdgeTimesSet(stations[from].edges, to, t))]
  }

  /**
   * `SetTravelTime`: refused for an unknown station; else every edge from
   * `a` to `b`, then every edge from `b` to `a`, gets time `t`, and the
   * result says whether there was any.
   */
  function TravelTimeSet(n: Network, a: Id, b: Id, t: TravelTime): Outcome {
    if a !in n.stations || b !in n.stations then
      Outcome(false, n)
    else
      var afterA := TimesSet(n.stations, a, b, t);
      var afterB := TimesSet(afterA, b, a, t);
      Outcome(HasEdgeTo(n.stations[a].edges, b) || HasEdgeTo(afterA[b].edges, a), n.(stations := afterB))
  }

  /** The first edge to `to`. */
  function FirstEdgeTo(edges: seq<GraphEdge>, to: Id): Option<GraphEdge> {
    if edges == [] then None
    else if edges[0].next == to then Some(edges[0])
    else FirstEdgeTo(edges[1..], to)
  }

  /**
   * `GetTravelTime(a, b)`: the time of the first edge from `a` to `b`, else
   * of the first edge from `b` to `a`, else 0; 0 for an unknown station.
   */
  function TravelTimeBetween(n: Network, a: Id, b: Id): TravelTime {
    if a !in n.stations || b !in n.stations then
      0
    else
      match FirstEdgeTo(n.stations[a].edges, b)
      case Some(e) => e.travelTime
      case None =>
        match FirstEdgeTo(n.stations[b].edges, a)
        case Some(e) => e.travelTime
        case None => 0
  }

  // ---------------------------------------------------------------------
  // Travel time along a route

  /** The first edge that belongs to route object `key`. */
  function FirstRouteEdge(edges: seq<GraphEdge>, key: RouteKey): Option<GraphEdge> {
    if edges == [] then None
    else if edges[0].route == key then Some(edges[0])
    else FirstRouteEdge(edges[1..], key)
  }

  /** The index of the first occurrence of `x` in `s`. */
  function IndexOf(s: seq<Id>, x: Id): (r: Option<nat>)
    ensures r.Some? ==> r.value < |s| && s[r.value] == x && x !in s[..r.value]
    ensures r.None? ==> x !in s
  {
    if s == [] then None
    else if s[0] == x then Some(0)
    else
      match IndexOf(s[1..], x)
      case None => None
      case Some(i) =>
        assert s[1..][..i] == s[1..i + 1];
        Some(i + 1)
  }

  /**
   * The sum of the times of the first edge of route `key` out of each stop
   * of `path`, without wrap-around; `None` when a stop has no such edge
   * (or is not a station, which a valid network rules out).
   */
  function PathTime(stations: map<Id, GraphNode>, key: RouteKey, path: seq<Id>): Option<nat>
    decreases |path|
  {
    if path == [] then
      Some(0)
    else
      match PathTime(stations, key, path[..|path| - 1])
      case None => None
      case Some(total) =>
        if path[|path| - 1] !in stations then None else
        match FirstRouteEdge(stations[path[|path| - 1]].edges, key)
        case None => None
        case Some(e) => Some(total + e.travelTime)
  }

  /**
   * The travel time along the stops of a route object: with `j` the first
   * stop at `b` and `i` the first stop before `j` at `a`, the 32-bit sum of
   * the route's time out of each stop from `i` up to `j - 1`. It is 0 when
   * `b` is not on the route, when `a` does not come before `b`, and when a
   * stop in between has no edge of this route.
   */
  function RouteSum(stations: map<Id, GraphNode>, key: RouteKey, stops: seq<Id>, a: Id, b: Id): TravelTime
  {
    match IndexOf(stops, b)
    case None => 0
    case Some(j) =>
      match IndexOf(stops[..j], a)
      case None => 0
      case Some(i) =>
        match PathTime(stations, key, stops[i..j])
        case None => 0
        case Some(total) => total % TravelTimeModulus
  }

  /**
   * `GetTravelTime(line, route, a, b)`: the travel time along the route, and
   * 0 for an unknown line, route or station.
   */
  function RouteTravelTime(n: Network, lineId: Id, routeId: Id, a: Id, b: Id): TravelTime
  {
    if a !in n.stations || b !in n.stations || lineId !in n.lines || routeId !in n.lines[lineId].routes then
      0
    else
      var route := n.lines[lineId].routes[routeId];
      RouteSum(n.stations, route.key, route.stops, a, b)
  }

  /** The first occurrence of `x` is at `j`. */
  lemma IndexOfFirst(s: seq<Id>, x: Id, j: nat)
    requires j < |s| && s[j] == x && x !in s[..j]
    ensures IndexOf(s, x) == Some(j)
  {
  }

  /** Extending a path by one stop adds the time of that stop's first edge of the route. */
  lemma PathTimeStep(stations: map<Id, GraphNode>, key: RouteKey, stops: seq<Id>, i: nat, m: nat, total: nat)
    requires i <= m < |stops| && stops[m] in stations
    requires PathTime(stations, key, stops[i..m]) == Some(total)
    ensures FirstRouteEdge(stations[stops[m]].edges, key).None? ==> PathTime(stations, key, stops[i..m + 1]).None?
    ensures FirstRouteEdge(stations[stops[m]].edges, key).Some? ==>
      PathTime(stations, key, stops[i..m + 1]) == Some(total + FirstRouteEdge(stations[stops[m]].edges, key).value.travelTime)
  {
    assert stops[i..m + 1][..m - i] == stops[i..m];
    assert stops[i..m + 1][m - i] == stops[m];
  }

  /** A stop with no edge of the route makes the whole path have no time. */
  lemma {:induction false} PathTimeGap(stations: map<Id, GraphNode>, key: RouteKey, path: seq<Id>, k: nat)
    requires k < |path| && path[k] in stations
    requires FirstRouteEdge(stations[path[k]].edges, key).None?
    ensures PathTime(stations, key, path).None?
    decreases |path|
  {
    if k < |path| - 1 {
      var init := path[..|path| - 1];
      assert init[k] == path[k];
      PathTimeGap(stations, key, init, k);
    }
  }

  /** A stop with no edge of the route, between `a` and any later `b`, makes the time 0. */
  lemma RouteSumGap(stations: map<Id, GraphNode>, key: RouteKey, stops: seq<Id>, a: Id, b: Id, i: nat, m: nat)
    requires i <= m < |stops| && stops[m] in stations
    requires b !in stops[..m + 1]
    requires IndexOf(stops[..m + 1], a) == Some(i)
    requires FirstRouteEdge(stations[stops[m]].edges, key).None?
    ensures RouteSum(stations, key, stops, a, b) == 0
  {
    match IndexOf(stops, b)
    case None =>
    case Some(j) =>
      assert stops[..j][i] == stops[..m + 1][i];
      assert stops[..j][..i] == stops[..m + 1][..i];
      IndexOfFirst(stops[..j], a, i);
      var path := stops[i..j];
      assert path[m - i] == stops[m];
      PathTimeGap(stations, key, path, m - i);
  }

  /**
   * The state of the loop of `GetTravelTime(line, route, a, b)` after `m`
   * stops: `b` not yet met, `foundA` set once `a` was met at its first
   * stop `i`, and `time` the 32-bit sum of the times from `i` on.
   */
  ghost predicate Walked(
    stations: map<Id, GraphNode>, key: RouteKey, stops: seq<Id>, a: Id, b: Id,
    m: int, foundA: bool, i: nat, total: nat, time: int)
  {
    && 0 <= m <= |stops|
    && b !in stops[..m]
    && (foundA <==> a in stops[..m])
    && (!foundA ==> time == 0 && total == 0)
    && (foundA ==>
          && i < m
          && IndexOf(stops[..m], a) == Some(i)
          && PathTime(stations, key, stops[i..m]) == Some(total)
          && time == total % TravelTimeModulus)
  }

  /** Meeting `b`: the time so far is the answer. */
  lemma WalkedReachesB(
    stations: map<Id, GraphNode>, key: RouteKey, stops: seq<Id>, a: Id, b: Id,
    m: nat, foundA: bool, i: nat, total: nat, time: int)
    requires Walked(stations, key, stops, a, b, m, foundA, i, total, time)
    requires m < |stops| && stops[m] == b
    ensures time == RouteSum(stations, key, stops, a, b)
  {
    IndexOfFirst(stops, b, m);
  }

  /** A stop before `b` at or after `a` whose edge is found: its time is added. */
  lemma WalkedAdds(
    stations: map<Id, GraphNode>, key: RouteKey, stops: seq<Id>, a: Id, b: Id,
    m: nat, foundA: bool, i: nat, total: nat, time: int, e: GraphEdge)
    requires Walked(stations, key, stops, a, b, m, foundA, i, total, time)
    requires m < |stops| && stops[m] != b && (foundA || stops[m] == a) && stops[m] in stations
    requires FirstRouteEdge(stations[stops[m]].edges, key) == Some(e)
    ensures Walked(stations, key, stops, a, b, m + 1, true, if foundA then i else m,
                   total + e.travelTime, (time + e.travelTime) % TravelTimeModulus)
  {
    var j := if foundA then i else m;
    WalkedFound(stations, key, stops, a, b, m, foundA, i, total, time);
    PathTimeStep(stations, key, stops, j, m, total);
    ModAdd(total, e.travelTime);
  }

  /** A stop before `b` at or after `a` with no edge of the route: the answer is 0. */
  lemma WalkedGap(
    stations: map<Id, GraphNode>, key: RouteKey, stops: seq<Id>, a: Id, b: Id,
    m: nat, foundA: bool, i: nat, total: nat, time: int)
    requires Walked(stations, key, stops, a, b, m, foundA, i, total, time)
    requires m < |stops| && stops[m] != b && (foundA || stops[m] == a) && stops[m] in stations
    requires FirstRouteEdge(stations[stops[m]].edges, key).None?
    ensures RouteSum(stations, key, stops, a, b) == 0
  {
    var j := if foundA then i else m;
    WalkedFound(stations, key, stops, a, b, m, foundA, i, total, time);
    RouteSumGap(stations, key, stops, a, b, j, m);
  }

  /** The facts both cases above share: `a` has been met, at its first stop. */
  lemma WalkedFound(
    stations: map<Id, GraphNode>, key: RouteKey, stops: seq<Id>, a: Id, b: Id,
    m: nat, foundA: bool, i: nat, total: nat, time: int)
    requires Walked(stations, key, stops, a, b, m, foundA, i, total, time)
    requires m < |stops| && stops[m] != b && (foundA || stops[m] == a)
    ensures var j := if foundA then i else m;
      && j <= m
      && b !in stops[..m + 1]
      && a in stops[..m + 1]
      && IndexOf(stops[..m + 1], a) == Some(j)
      && PathTime(stations, key, stops[j..m]) == Some(total)
      && time == total % TravelTimeModulus
  {
    assert stops[..m + 1] == stops[..m] + [stops[m]];
    if foundA {
      assert stops[..m + 1][..i] == stops[..m][..i];
      IndexOfFirst(stops[..m + 1], a, i);
    } else {
      IndexOfFirst(stops[..m + 1], a, m);
      assert stops[m..m] == [];
    }
  }

  /** A stop before `a` and `b`: nothing changes. */
  lemma WalkedSkips(
    stations: map<Id, GraphNode>, key: RouteKey, stops: seq<Id>, a: Id, b: Id,
    m: nat, i: nat, total: nat, time: int)
    requires Walked(stations, key, stops, a, b, m, false, i, total, time)
    requires m < |stops| && stops[m] != b && stops[m] != a
    ensures Walked(stations, key, stops, a, b, m + 1, false, i, total, time)
  {
    assert stops[..m + 1] == stops[..m] + [stops[m]];
  }

  /** The stops run out before `b`: the answer is 0. */
  lemma WalkedToEnd(
    stations: map<Id, GraphNode>, key: RouteKey, stops: seq<Id>, a: Id, b: Id,
    foundA: bool, i: nat, total: nat, time: int)
    requires Walked(stations, key, stops, a, b, |stops|, foundA, i, total, time)
    ensures RouteSum(stations, key, stops, a, b) == 0
  {
    assert stops[..|stops|] == stops;
  }

  /** Adding modulo 2^32 step by step is adding first and reducing once. */
  lemma ModAdd(x: nat, y: nat)
    ensures (x % TravelTimeModulus + y) % TravelTimeModulus == (x + y) % TravelTimeModulus
  {
    var q := x / TravelTimeModulus;
    assert x == q * TravelTimeModulus + x % TravelTimeModulus;
    ModShift(x % TravelTimeModulus + y, q);
  }

  lemma {:induction false} ModShift(z: nat, q: nat)
    ensures (z + q * TravelTimeModulus) % TravelTimeModulus == z % TravelTimeModulus
    decreases q
  {
    if q > 0 {
      ModShift(z, q - 1);
      assert z + q * TravelTimeModulus == (z + (q - 1) * TravelTimeModulus) + TravelTimeModulus;
    }
  }

  // ---------------------------------------------------------------------
  // Routes serving a station

  /** The route ids of a list of edges, in order. */
  function EdgeRouteIds(edges: seq<GraphEdge>): seq<Id> {
    seq(|edges|, i requires 0 <= i < |edges| => edges[i].route.id)
  }

  /** The ids, in `order`, of the routes of a line whose last stop is `s`. */
  function RoutesEnding(li: LineInternal, order: seq<Id>, s: Id): seq<Id>
    requires forall i :: 0 <= i < |order| ==> order[i] in li.routes && li.routes[order[i]].stops != []
    decreases |order|
  {
    if order == [] then
      []
    else
      var r := order[|order| - 1];
      var stops := li.routes[r].stops;
      RoutesEnding(li, order[..|order| - 1], s) + (if stops[|stops| - 1] == s then [r] else [])
  }

  /** The ids of the routes whose last stop is `s`, line by line in `order`. */
  function LinesEnding(n: Network, order: seq<Id>, s: Id): seq<Id>
    requires Valid(n)
    requires forall i :: 0 <= i < |order| ==> order[i] in n.lines
    decreases |order|
  {
    if order == [] then
      []
    else
      var li := n.lines[order[|order| - 1]];
      LinesEnding(n, order[..|order| - 1], s) + RoutesEnding(li, li.routeOrder, s)
  }

  /**
   * `GetRoutesServingStation`: the route ids of the station's edges, then
   * the ids of the routes that end at the station; nothing for an unknown
   * station.
   */
  function RoutesServing(n: Network, s: Id): seq<Id>
    requires Valid(n)
  {
    if s !in n.stations then [] else EdgeRouteIds(n.stations[s].edges) + LinesEnding(n, n.lineOrder, s)
  }
}
