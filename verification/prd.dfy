/**
 * `build_prd_dataset.py`: the PRD dataset, one record per indexed route,
 * and its SQL dump.
 *
 * Each route of the index, taken in sorted order, gets a display code
 * ("ROUTE 7"), its name with the "Route #7" prefix of its title removed,
 * a fare parsed from the paragraphs and headings of its full guide, and
 * its stops: the placemarks of its map when the map has any, the stop
 * names of the index otherwise. Maps are fetched through one cache shared
 * by all routes. The dump then writes one meta row, and every route's row
 * followed by its stops' rows, the routes numbered by `enumerate` and the
 * stops by one counter running across all routes.
 */
module Prd {
  import opened Wrappers
  import opened Strings
  import opened Num
  import opened SqlText
  import opened Rows
  import opened RouteOrder
  import T = Text
  import Kml
  import Fares
  import FetchCache

  // ---------------------------------------------------------------------
  // extract_route_name
  // ---------------------------------------------------------------------

  /** The end of the run of characters of class `c` that starts at `p`. */
  function RunFrom(s: string, p: nat, c: char -> bool): (q: nat)
    requires p <= |s|
    ensures p <= q <= |s|
    ensures forall k :: p <= k < q ==> c(s[k])
    ensures q < |s| ==> !c(s[q])
  {
    Fares.RunEnd(s, p, |s| - p, c)
  }

  /** Where the match of `^ROUTE\s*#?\s*\d+\s*`, ignoring case, ends in
      `t`, if it matches. The pieces' classes (spaces, '#', digits) are
      disjoint, so backtracking never finds a second way through, and the
      greedy way is the match. */
  function RoutePrefixEnd(t: string): (e: Option<nat>)
    ensures e.Some? ==> 6 < e.value + 1 <= |t| + 1 && Fares.SpelledAt(t, 0, "route", true)
  {
    if !Fares.SpelledAt(t, 0, "route", true) then None
    else
      var a := RunFrom(t, 5, IsSpace);
      var b := if a < |t| && t[a] == '#' then a + 1 else a;
      var c := RunFrom(t, b, IsSpace);
      var d := RunFrom(t, c, IsDigit);
      if d == c then None else Some(RunFrom(t, d, IsSpace))
  }

  /** `extract_route_name(route_title)`: the title without its route
      prefix, normalised. A missing title gives the empty name. */
  function ExtractRouteName(title: Option<string>): (r: string)
    ensures T.IsNormal(r)
    ensures title.None? ==> r == ""
    ensures title.Some? && !Fares.SpelledAt(title.value, 0, "route", true) ==> r == T.NormalizeText(title.value)
    ensures title.Some? && RoutePrefixEnd(title.value).Some? ==> r == T.NormalizeText(title.value[RoutePrefixEnd(title.value).value..])
    ensures title.Some? && RoutePrefixEnd(title.value).None? ==> r == T.NormalizeText(title.value)
  {
    var t := if title.Some? then title.value else "";
    match RoutePrefixEnd(t)
    case Some(e) => T.NormalizeText(t[e..])
    case None => T.NormalizeText(t)
  }

  /** A run is determined by where it stops. */
  lemma RunFromAt(s: string, p: nat, q: nat, c: char -> bool)
    requires p <= q <= |s|
    requires forall k :: p <= k < q ==> c(s[k])
    requires q < |s| ==> !c(s[q])
    ensures RunFrom(s, p, c) == q
  {
  }

  /** The pieces of a title "ROUTE " + h + digits + " " + name. */
  lemma TitleLayout(h: string, digits: string, name: string)
    requires h == "" || h == "#"
    requires |digits| > 0 && AllDigits(digits)
    ensures var t := "ROUTE " + h + digits + " " + name;
      var b := 6 + |h|;
      var c := b + |digits|;
      && Fares.SpelledAt(t, 0, "route", true)
      && t[5] == ' ' && !IsSpace(t[6]) && (h == "#" ==> t[6] == '#') && (h == "" ==> IsDigit(t[6]))
      && (forall k :: b <= k < c ==> IsDigit(t[k]))
      && t[c] == ' ' && t[c + 1..] == name
  {
    var t := "ROUTE " + h + digits + " " + name;
    assert t == (("ROUTE " + h) + digits) + (" " + name);
    var c := 6 + |h| + |digits|;
    assert forall k :: 6 + |h| <= k < c ==> t[k] == digits[k - 6 - |h|];
  }

  /** In "ROUTE " + h + digits + " " + name the route prefix ends where
      the name starts. */
  lemma TitlePrefixEnd(h: string, digits: string, name: string)
    requires h == "" || h == "#"
    requires |digits| > 0 && AllDigits(digits)
    requires name == "" || !IsSpace(name[0])
    ensures RoutePrefixEnd("ROUTE " + h + digits + " " + name) == Some(7 + |h| + |digits|)
  {
    var t := "ROUTE " + h + digits + " " + name;
    TitleLayout(h, digits, name);
    var b := 6 + |h|;
    var c := b + |digits|;
    RunFromAt(t, 5, 6, IsSpace);
    RunFromAt(t, b, b, IsSpace);
    RunFromAt(t, b, c, IsDigit);
    assert c + 1 < |t| ==> t[c + 1] == name[0] by {
      if c + 1 < |t| {
        assert t[c + 1..][0] == t[c + 1];
      }
    }
    RunFromAt(t, c, c + 1, IsSpace);
  }

  /** "ROUTE 7 Jaro – City Proper" and "ROUTE #7 Jaro – City Proper" both
      name the route "Jaro – City Proper". */
  lemma RouteNameOfTitle(n: nat, hash: bool, name: string)
    requires name == "" || !IsSpace(name[0])
    ensures ExtractRouteName(Some("ROUTE " + (if hash then "#" else "") + NatToString(n) + " " + name))
         == T.NormalizeText(name)
  {
    var h := if hash then "#" else "";
    var digits := NatToString(n);
    TitleLayout(h, digits, name);
    TitlePrefixEnd(h, digits, name);
  }

  // ---------------------------------------------------------------------
  // Route codes
  // ---------------------------------------------------------------------

  /** `f"ROUTE {route_number}"`, or None for a route without a number. */
  function RouteCode(number: Option<int>): (code: Option<string>)
    ensures code.None? <==> number.None?
    ensures code.Some? ==> |code.value| > 6 && code.value[..6] == "ROUTE "
  {
    if number.Some? then Some("ROUTE " + IntToString(number.value)) else None
  }

  /** Distinct route numbers get distinct codes. */
  lemma RouteCodeInjective(a: Option<int>, b: Option<int>)
    requires RouteCode(a) == RouteCode(b)
    ensures a == b
  {
    if a.Some? && b.Some? {
      var x, y := IntToString(a.value), IntToString(b.value);
      assert x == ("ROUTE " + x)[6..];
      assert y == ("ROUTE " + y)[6..];
      IntToStringInjective(a.value, b.value);
    }
  }

  // ---------------------------------------------------------------------
  // Guides and fares
  // ---------------------------------------------------------------------

  /** What the PRD builder reads from a full guide: its route number and
      its paragraph and heading texts (a missing list read as empty). */
  datatype GuideText = GuideText(number: Option<int>, paragraphs: seq<string>, headings: seq<string>)

  /** `{g.get("route_number"): g for g in guides}.get(route_number)`: the
      dictionary keeps the last guide of each number. */
  function GuideFor(guides: seq<GuideText>, number: Option<int>): (g: Option<GuideText>)
    ensures g.None? <==> forall i :: 0 <= i < |guides| ==> guides[i].number != number
    ensures g.Some? ==> g.value.number == number && g.value in guides
    decreases |guides|
  {
    if |guides| == 0 then None
    else if guides[|guides| - 1].number == number then Some(guides[|guides| - 1])
    else GuideFor(guides[..|guides| - 1], number)
  }

  /** The guide found is the last one with the number. */
  lemma {:induction false} GuideForIsLast(guides: seq<GuideText>, number: Option<int>)
    requires GuideFor(guides, number).Some?
    ensures exists i :: (0 <= i < |guides| && guides[i] == GuideFor(guides, number).value
      && forall j :: i < j < |guides| ==> guides[j].number != number)
    decreases |guides|
  {
    var last := |guides| - 1;
    if guides[last].number != number {
      var init := guides[..last];
      GuideForIsLast(init, number);
      var i :| 0 <= i < |init| && init[i] == GuideFor(init, number).value
        && forall j :: i < j < |init| ==> init[j].number != number;
      assert guides[i] == init[i];
      assert forall j :: i < j < |guides| ==> guides[j].number != number by {
        forall j | i < j < |guides| ensures guides[j].number != number {
          if j < last {
            assert guides[j] == init[j];
          }
        }
      }
    }
  }

  /** `"\n".join(paragraphs + headings)` of the route's guide, or the
      empty text when there is none. */
  function FareSource(guides: seq<GuideText>, number: Option<int>): string {
    match GuideFor(guides, number)
    case None => ""
    case Some(g) => Join("\n", g.paragraphs + g.headings)
  }

  // ---------------------------------------------------------------------
  // Stops
  // ---------------------------------------------------------------------

  /** One stop of the dataset: its 1-based order, its name, and its
      coordinates when it comes from a map marker. */
  datatype Stop = Stop(order: nat, name: Option<string>, lat: Option<Float>, lng: Option<Float>, hasCoordinates: bool)

  predicate AnyCoordinates(stops: seq<Stop>) {
    exists i :: 0 <= i < |stops| && stops[i].hasCoordinates
  }

  /** `if markers:` the markers become the stops, with their names and
      coordinates; otherwise the index's stop names do, without
      coordinates. Either way the orders are 1, 2, …. */
  function StopsFor(markers: seq<Kml.Marker>, textStops: seq<string>): (r: seq<Stop>)
    ensures |r| == if |markers| > 0 then |markers| else |textStops|
    ensures forall i :: 0 <= i < |r| ==> r[i].order == i + 1
    ensures forall i :: 0 <= i < |r| ==> (r[i].hasCoordinates <==> r[i].lat.Some? && r[i].lng.Some?)
    ensures AnyCoordinates(r) <==> |markers| > 0
    ensures |markers| > 0 ==> forall i :: 0 <= i < |r| ==>
      r[i].hasCoordinates && r[i].name == markers[i].name
      && r[i].lat == Some(markers[i].lat) && r[i].lng == Some(markers[i].lng)
    ensures |markers| == 0 ==> forall i :: 0 <= i < |r| ==> !r[i].hasCoordinates && r[i].name == Some(textStops[i])
  {
    if |markers| > 0 then
      var r := seq(|markers|, i requires 0 <= i < |markers| =>
        Stop(i + 1, markers[i].name, Some(markers[i].lat), Some(markers[i].lng), true));
      assert r[0].hasCoordinates;
      r
    else
      seq(|textStops|, i requires 0 <= i < |textStops| => Stop(i + 1, Some(textStops[i]), None, None, false))
  }

  // ---------------------------------------------------------------------
  // Routes
  // ---------------------------------------------------------------------

  /** A route of the index as the PRD builder reads it. `embedMid` is
      `map_mid_from_embed(map_embed_url)`; `polylineCount` is
      `route.get("map_polyline_count", 0)`. */
  datatype IndexRoute = IndexRoute(
    number: Option<int>, title: Option<string>, mid: Option<string>, embedMid: Option<string>,
    kmlUrl: Option<string>, polylineCount: Option<int>, stops: seq<string>)

  /** A route of the dataset. */
  datatype PrdRoute = PrdRoute(
    number: Option<int>, code: Option<string>, name: string, fare: Fares.FareResult,
    mid: Option<string>, kmlUrl: Option<string>, polylineCount: Option<int>,
    markerCount: nat, markerError: Option<string>, stops: seq<Stop>)

  /** `route.get("map_mid") or map_mid_from_embed(...)`. */
  function MapMid(r: IndexRoute): (mid: Option<string>)
    ensures !FetchCache.Blank(r.mid) ==> mid == r.mid
    ensures FetchCache.Blank(r.mid) ==> mid == r.embedMid
  {
    if FetchCache.Blank(r.mid) then r.embedMid else r.mid
  }

  /** One record of `routes_out`, given what the marker fetch answered
      for the route's map. */
  function BuildRoute(r: IndexRoute, guides: seq<GuideText>, fetched: FetchCache.MarkerFetch): (p: PrdRoute)
    ensures p.number == r.number && p.code == RouteCode(r.number)
    ensures p.fare == Fares.ParseFare(FareSource(guides, r.number))
    ensures GuideFor(guides, r.number).None? ==> p.fare == Fares.NoFare
    ensures p.stops == StopsFor(fetched.markers, r.stops)
    ensures p.markerCount == |fetched.markers|
    ensures fetched.kmlUrl.Some? && fetched.kmlUrl.value != "" ==> p.kmlUrl == fetched.kmlUrl
    ensures fetched.kmlUrl.None? ==> p.kmlUrl == r.kmlUrl
  {
    var url := if fetched.kmlUrl.Some? && fetched.kmlUrl.value != "" then fetched.kmlUrl else r.kmlUrl;
    PrdRoute(
      r.number, RouteCode(r.number), ExtractRouteName(r.title), Fares.ParseFare(FareSource(guides, r.number)),
      MapMid(r), url, r.polylineCount, |fetched.markers|, fetched.error,
      StopsFor(fetched.markers, r.stops))
  }

  function IndexKey(r: IndexRoute): SortKey { KeyOf(r.number) }

  /** The map id of each route. */
  function Mids(routes: seq<IndexRoute>): (m: seq<Option<string>>)
    ensures |m| == |routes|
    ensures forall i :: 0 <= i < |routes| ==> m[i] == MapMid(routes[i])
  {
    seq(|routes|, i requires 0 <= i < |routes| => MapMid(routes[i]))
  }

  /** The dataset: when it was generated (the clock is an input) and its
      routes. */
  datatype Dataset = Dataset(generatedAt: string, routes: seq<PrdRoute>)

  /** `main`'s loop: the routes in sorted order, their maps fetched
      through one cache that starts empty. The download of a KML file is
      the input `net`, and `parse` reads a number. */
  function BuildDataset(
    generatedAt: string, index: seq<IndexRoute>, guides: seq<GuideText>,
    parse: Kml.NumParser, net: string -> FetchCache.Download): (d: Dataset)
    ensures |d.routes| == |index|
    ensures d.generatedAt == generatedAt
  {
    var sorted := SortBy(index, IndexKey);
    var run := FetchCache.RunAll(map[], Mids(sorted), FetchCache.EmptyMarkers, FetchCache.MarkerLoader(parse, net));
    Dataset(generatedAt, seq(|sorted|, i requires 0 <= i < |sorted| => BuildRoute(sorted[i], guides, run.results[i])))
  }

  /** The shared cache changes nothing: every route is built from what an
      uncached fetch of its own map would answer. The routes come in key
      order, and they are the index's routes, each once. */
  lemma DatasetRoutes(
    generatedAt: string, index: seq<IndexRoute>, guides: seq<GuideText>,
    parse: Kml.NumParser, net: string -> FetchCache.Download)
    ensures var d := BuildDataset(generatedAt, index, guides, parse, net);
      var sorted := SortBy(index, IndexKey);
      && multiset(sorted) == multiset(index)
      && (forall i, j :: 0 <= i < j < |sorted| ==> KeyLe(KeyOf(d.routes[i].number), KeyOf(d.routes[j].number)))
      && forall i :: 0 <= i < |sorted| ==>
        d.routes[i] == BuildRoute(sorted[i], guides,
          FetchCache.Uncached(MapMid(sorted[i]), FetchCache.EmptyMarkers, FetchCache.MarkerLoader(parse, net)))
  {
    var sorted := SortBy(index, IndexKey);
    var load := FetchCache.MarkerLoader(parse, net);
    SortBySorted(index, IndexKey);
    FetchCache.RunTransparent(map[], Mids(sorted), FetchCache.EmptyMarkers, load);
  }

  // ---------------------------------------------------------------------
  // The payload's counts
  // ---------------------------------------------------------------------

  /** `sum(1 for x in xs if p(x))`. */
  function CountIf<X>(xs: seq<X>, p: X -> bool): (n: nat)
    ensures n <= |xs|
    decreases |xs|
  {
    if |xs| == 0 then 0 else CountIf(xs[..|xs| - 1], p) + (if p(xs[|xs| - 1]) then 1 else 0)
  }

  /** The count is the length exactly when every element satisfies `p`,
      and zero exactly when none does. */
  lemma {:induction false} CountIfExtremes<X>(xs: seq<X>, p: X -> bool)
    ensures CountIf(xs, p) == |xs| <==> forall i :: 0 <= i < |xs| ==> p(xs[i])
    ensures CountIf(xs, p) == 0 <==> forall i :: 0 <= i < |xs| ==> !p(xs[i])
    decreases |xs|
  {
    if |xs| > 0 {
      var init := xs[..|xs| - 1];
      CountIfExtremes(init, p);
      assert forall i :: 0 <= i < |init| ==> init[i] == xs[i];
    }
  }

  predicate HasGeometry(r: PrdRoute) {
    r.polylineCount.Some? && r.polylineCount.value > 0
  }

  predicate HasCoordinates(r: PrdRoute) {
    AnyCoordinates(r.stops)
  }

  predicate HasFare(r: PrdRoute) {
    r.fare.Found?
  }

  /** The payload's summary: `route_count`, `routes_with_map_geometry`,
      `routes_with_stop_coordinates` and `routes_with_fare`. */
  datatype Summary = Summary(routeCount: nat, withGeometry: nat, withCoordinates: nat, withFare: nat)

  function SummaryOf(d: Dataset): (s: Summary)
    ensures s.routeCount == |d.routes|
    ensures s.withGeometry <= s.routeCount && s.withCoordinates <= s.routeCount && s.withFare <= s.routeCount
  {
    Summary(|d.routes|, CountIf(d.routes, HasGeometry), CountIf(d.routes, HasCoordinates), CountIf(d.routes, HasFare))
  }

  /** No route has a fare when no guide carries any text. */
  lemma NoGuidesNoFares(
    generatedAt: string, index: seq<IndexRoute>, parse: Kml.NumParser, net: string -> FetchCache.Download)
    ensures SummaryOf(BuildDataset(generatedAt, index, [], parse, net)).withFare == 0
  {
    var d := BuildDataset(generatedAt, index, [], parse, net);
    CountIfExtremes(d.routes, HasFare);
  }

  /** Every route has stop coordinates exactly when every route's map
      gave markers. */
  lemma AllCoordinates(d: Dataset)
    ensures SummaryOf(d).withCoordinates == |d.routes| <==> forall i :: 0 <= i < |d.routes| ==> AnyCoordinates(d.routes[i].stops)
  {
    CountIfExtremes(d.routes, HasCoordinates);
  }

  // ---------------------------------------------------------------------
  // The SQL rows
  // ---------------------------------------------------------------------

  /** A fare bound as a float, or NULL. */
  function FareBound(fare: Fares.FareResult, high: bool): (v: Value)
    ensures fare.NoFare? <==> v.Null?
  {
    if fare.NoFare? then Null else Real(FromHundredths(if high then fare.max else fare.min))
  }

  /** The `prd_routes` columns after `route_id`. */
  function RouteValues(route: PrdRoute): (vs: seq<Value>)
    ensures |vs| == 7
  {
    [IntOrNull(route.number), TextOrNull(route.code), Text(route.name),
     FareBound(route.fare, false), FareBound(route.fare, true),
     if route.fare.Found? then Text(route.fare.text) else Null,
     Int(|route.stops|)]
  }

  /** `whole.frac` is a decimal denoting `h` hundredths. */
  predicate ReadsAs(whole: string, frac: string, h: nat) {
    AllDigits(whole) && AllDigits(frac) && |frac| <= 2 && DecimalHundredths(whole, frac) == h
  }

  /** The fare columns render as decimal texts that read back as the
      fare, in hundredths. */
  lemma FareCells(route: PrdRoute)
    requires route.fare.Found?
    ensures var lo, hi := SqlValue(RouteValues(route)[3]), SqlValue(RouteValues(route)[4]);
      && (exists w, f :: lo == w + "." + f && ReadsAs(w, f, route.fare.min))
      && (exists w, f :: hi == w + "." + f && ReadsAs(w, f, route.fare.max))
  {
    var lo, hi := route.fare.min, route.fare.max;
    HundredthsReprRoundTrip(lo);
    HundredthsReprRoundTrip(hi);
    assert ReadsAs(NatToString(lo / 100), FracDigits(lo % 100), lo);
    assert ReadsAs(NatToString(hi / 100), FracDigits(hi % 100), hi);
  }

  /** Two routes whose fare cells render alike have the same fare. */
  lemma FareCellsInjective(a: PrdRoute, b: PrdRoute)
    requires a.fare.Found? && b.fare.Found?
    requires SqlValue(RouteValues(a)[3]) == SqlValue(RouteValues(b)[3])
    requires SqlValue(RouteValues(a)[4]) == SqlValue(RouteValues(b)[4])
    ensures a.fare.min == b.fare.min && a.fare.max == b.fare.max
  {
    HundredthsReprInjective(a.fare.min, b.fare.min);
    HundredthsReprInjective(a.fare.max, b.fare.max);
  }

  /** The `prd_route_stops` columns after `stop_id`, `route_id` and
      `stop_order`. */
  function StopValues(s: Stop): seq<Value> {
    [TextOrNull(s.name), RealOrNull(s.lat), RealOrNull(s.lng)]
  }

  /** The stops as a block of rows carrying their own orders. */
  function StopItems(stops: seq<Stop>): (items: seq<(Option<nat>, seq<Value>)>)
    ensures |items| == |stops|
    ensures forall i :: 0 <= i < |stops| ==> items[i].0 == Some(stops[i].order) && |items[i].1| == 3
  {
    seq(|stops|, i requires 0 <= i < |stops| => (Some(stops[i].order), StopValues(stops[i])))
  }

  /** `prd_meta`'s columns after `id`. */
  function MetaValues(d: Dataset): seq<Value> {
    var s := SummaryOf(d);
    [Text(d.generatedAt), Int(s.routeCount), Int(s.withCoordinates), Int(s.withFare)]
  }

  function PrdRouteRow(route: PrdRoute, routeId: nat): Row {
    Row(PrdRoutes, routeId, None, None, RouteValues(route))
  }

  /** One route's row, then its stops under it. */
  function EmitPrdRoute(st: State, route: PrdRoute, routeId: nat): State {
    var st1 := Emit(st, PrdRoutes, routeId, None, None, RouteValues(route));
    EmitBlock(st1, PrdRouteStops, Some(routeId), StopItems(route.stops))
  }

  /** `for route_idx, route in enumerate(payload["routes"], start=1)`. */
  function EmitPrdRoutes(st: State, routes: seq<PrdRoute>, routeId: nat): State
    decreases |routes|
  {
    if |routes| == 0 then st
    else EmitPrdRoutes(EmitPrdRoute(st, routes[0], routeId), routes[1..], routeId + 1)
  }

  /** The meta row. */
  function PrdHead(d: Dataset): State {
    Emit(Start(), PrdMeta, 1, None, None, MetaValues(d))
  }

  /** Every INSERT of the PRD dump, in order. */
  function PrdDumpRows(d: Dataset): seq<Row> {
    EmitPrdRoutes(PrdHead(d), d.routes, 1).rows
  }

  /** The routes' rows numbered from `routeId`. */
  function PrdRouteRows(routes: seq<PrdRoute>, routeId: nat): (r: seq<Row>)
    ensures |r| == |routes|
    decreases |routes|
  {
    if |routes| == 0 then [] else [PrdRouteRow(routes[0], routeId)] + PrdRouteRows(routes[1..], routeId + 1)
  }

  lemma {:induction false} PrdRouteRowsAt(routes: seq<PrdRoute>, routeId: nat, i: nat)
    requires i < |routes|
    ensures PrdRouteRows(routes, routeId)[i] == PrdRouteRow(routes[i], routeId + i)
    decreases i
  {
    if i > 0 {
      PrdRouteRowsAt(routes[1..], routeId + 1, i - 1);
    }
  }

  /** The number of stops of all routes. */
  function TotalStops(routes: seq<PrdRoute>): nat
    decreases |routes|
  {
    if |routes| == 0 then 0 else |routes[0].stops| + TotalStops(routes[1..])
  }

  const PrdTree: set<Table> := {PrdRoutes, PrdRouteStops}

  lemma StopItemsFit(fk: Option<nat>, stops: seq<Stop>)
    requires fk.Some?
    ensures ItemsFit(PrdRouteStops, fk, StopItems(stops))
  {
  }

  lemma EmitPrdRouteGood(st: State, route: PrdRoute, routeId: nat)
    requires Good(st) && routeId == Count(st.rows, PrdRoutes) + 1
    ensures var r := EmitPrdRoute(st, route, routeId);
      && Good(r) && Count(r.rows, PrdRoutes) == routeId
      && Count(r.rows, PrdRouteStops) == Count(st.rows, PrdRouteStops) + |route.stops|
  {
    var st1 := Emit(st, PrdRoutes, routeId, None, None, RouteValues(route));
    EmitGood(st, PrdRoutes, routeId, None, None, RouteValues(route));
    ExtendsCount(st.rows, st1.rows, {PrdRoutes}, PrdRouteStops);
    StopItemsFit(Some(routeId), route.stops);
    EmitBlockGood(st1, PrdRouteStops, Some(routeId), StopItems(route.stops));
    ExtendsCount(st1.rows, EmitPrdRoute(st, route, routeId).rows, {PrdRouteStops}, PrdRoutes);
  }

  lemma EmitPrdRouteExtends(st: State, route: PrdRoute, routeId: nat)
    ensures var r := EmitPrdRoute(st, route, routeId);
      && Extends(st.rows, r.rows, PrdTree)
      && TableRows(r.rows, PrdRoutes) == TableRows(st.rows, PrdRoutes) + [PrdRouteRow(route, routeId)]
  {
    var st1 := Emit(st, PrdRoutes, routeId, None, None, RouteValues(route));
    AppendExtends(st.rows, PrdRouteRow(route, routeId));
    TableRowsAppend(st.rows, PrdRouteRow(route, routeId), PrdRoutes);
    var r := EmitBlock(st1, PrdRouteStops, Some(routeId), StopItems(route.stops));
    EmitBlockExtends(st1, PrdRouteStops, Some(routeId), StopItems(route.stops));
    ExtendsTableRows(st1.rows, r.rows, {PrdRouteStops}, PrdRoutes);
    ExtendsInto(st.rows, st1.rows, r.rows, {PrdRoutes}, {PrdRouteStops}, PrdTree);
  }

  lemma {:induction false} EmitPrdRoutesGood(st: State, routes: seq<PrdRoute>, routeId: nat)
    requires Good(st) && routeId == Count(st.rows, PrdRoutes) + 1
    ensures var r := EmitPrdRoutes(st, routes, routeId);
      && Good(r)
      && Count(r.rows, PrdRouteStops) == Count(st.rows, PrdRouteStops) + TotalStops(routes)
    decreases |routes|
  {
    if |routes| > 0 {
      EmitPrdRouteGood(st, routes[0], routeId);
      EmitPrdRoutesGood(EmitPrdRoute(st, routes[0], routeId), routes[1..], routeId + 1);
    }
  }

  lemma {:induction false} EmitPrdRoutesExtends(st: State, routes: seq<PrdRoute>, routeId: nat)
    ensures var r := EmitPrdRoutes(st, routes, routeId);
      && Extends(st.rows, r.rows, PrdTree)
      && TableRows(r.rows, PrdRoutes) == TableRows(st.rows, PrdRoutes) + PrdRouteRows(routes, routeId)
    decreases |routes|
  {
    if |routes| > 0 {
      var st1 := EmitPrdRoute(st, routes[0], routeId);
      EmitPrdRouteExtends(st, routes[0], routeId);
      EmitPrdRoutesExtends(st1, routes[1..], routeId + 1);
      var r := EmitPrdRoutes(st1, routes[1..], routeId + 1);
      ExtendsTrans(st.rows, st1.rows, r.rows, PrdTree, PrdTree);
      assert TableRows(r.rows, PrdRoutes)
          == (TableRows(st.rows, PrdRoutes) + [PrdRouteRow(routes[0], routeId)]) + PrdRouteRows(routes[1..], routeId + 1);
    } else {
      ExtendsRefl(st.rows, PrdTree);
    }
  }

  lemma PrdHeadGood(d: Dataset)
    ensures Good(PrdHead(d)) && PrdHead(d).rows == [Row(PrdMeta, 1, None, None, MetaValues(d))]
    ensures Count(PrdHead(d).rows, PrdRoutes) == 0 && Count(PrdHead(d).rows, PrdRouteStops) == 0
    ensures TableRows(PrdHead(d).rows, PrdRoutes) == []
  {
    EmitGood(Start(), PrdMeta, 1, None, None, MetaValues(d));
    var row := Row(PrdMeta, 1, None, None, MetaValues(d));
    CountAppend([], row, PrdRoutes);
    CountAppend([], row, PrdRouteStops);
    TableRowsAppend([], row, PrdRoutes);
  }

  /** The dump keeps every row good: every row fits its table, has the
      next id of its table, and every stop points at the latest route. */
  lemma PrdDumpRowsGood(d: Dataset)
    ensures AllRowsOk(PrdDumpRows(d))
    ensures Count(PrdDumpRows(d), PrdRouteStops) == TotalStops(d.routes)
  {
    PrdHeadGood(d);
    EmitPrdRoutesGood(PrdHead(d), d.routes, 1);
  }

  /** The meta row comes first; the `prd_routes` rows are the routes in
      order, the i-th with id i + 1. */
  lemma PrdDumpRoutes(d: Dataset)
    ensures var rows := PrdDumpRows(d);
      && |rows| > 0 && rows[0] == Row(PrdMeta, 1, None, None, MetaValues(d))
      && |TableRows(rows, PrdRoutes)| == |d.routes|
      && forall i :: 0 <= i < |d.routes| ==> TableRows(rows, PrdRoutes)[i] == PrdRouteRow(d.routes[i], i + 1)
  {
    PrdHeadGood(d);
    EmitPrdRoutesExtends(PrdHead(d), d.routes, 1);
    forall i | 0 <= i < |d.routes| ensures PrdRouteRows(d.routes, 1)[i] == PrdRouteRow(d.routes[i], i + 1) {
      PrdRouteRowsAt(d.routes, 1, i);
    }
  }

  /** Each table's ids in the dump are 1, 2, …, n in order. */
  lemma PrdIds(d: Dataset, t: Table)
    ensures IdsOf(PrdDumpRows(d), t) == Iota(Count(PrdDumpRows(d), t))
  {
    PrdDumpRowsGood(d);
    IdsAreIota(PrdDumpRows(d), t);
  }

  /** Every stop's `route_id` names an earlier route row. */
  lemma PrdFks(d: Dataset, k: nat)
    requires k < |PrdDumpRows(d)| && PrdDumpRows(d)[k].table == PrdRouteStops
    ensures var rows := PrdDumpRows(d);
      && rows[k].fk.Some?
      && exists j :: 0 <= j < k && rows[j].table == PrdRoutes && rows[j].id == rows[k].fk.value
  {
    var rows := PrdDumpRows(d);
    PrdDumpRowsGood(d);
    assert Parent(rows[k].table) == Some(PrdRoutes);
    FksResolve(rows, k);
  }
}
