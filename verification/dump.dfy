/**
 * `generate_sql_dump.py`: the route index and the full guides written as
 * one SQL script.
 *
 * The inputs are the two JSON payloads, read into records whose plain
 * columns are kept as the values `dict.get` returns. The writer walks
 * them in a fixed order, depth first, with one id counter per child
 * table: the meta row, the compilation rows, the routes sorted by route
 * number with their stops, polylines and points, then the guides' meta
 * row, the sorted guides with their paragraphs, headings, map embeds,
 * polylines and points, and last the scrape errors.
 */
module Dump {
  import opened Wrappers
  import opened SqlText
  import opened Collecting
  import opened RouteOrder
  import opened Rows

  // ---------------------------------------------------------------------
  // Inputs
  // ---------------------------------------------------------------------

  /** A stored polyline: its name, its point count, and its
      `coordinates_lat_lng` entries, each a list of numbers. */
  datatype PolylineIn = PolylineIn(name: Value, pointCount: Value, latLng: seq<seq<Value>>)

  /** A route of the index: its number, the twelve further columns of its
      `routes` row (route_title … faq_url), its stop names and its
      polylines. */
  datatype RouteIn = RouteIn(number: Option<int>, columns: seq<Value>, stops: seq<Value>, polylines: seq<PolylineIn>)

  /** A map embed of a guide: the six further columns of its row
      (map_embed_url … map_scrape_error) and its polylines. */
  datatype EmbedIn = EmbedIn(columns: seq<Value>, polylines: seq<PolylineIn>)

  /** A full guide: its route number, the ten further columns of its row
      (route_title … scraped_at_utc), and its paragraphs, headings and
      map embeds. */
  datatype GuideIn = GuideIn(
    number: Option<int>, columns: seq<Value>,
    paragraphs: seq<Value>, headings: seq<Value>, embeds: seq<EmbedIn>)

  /** `iloilo_routes_index.json`: the six meta columns, the compilation
      table rows (five columns each) and the routes. */
  datatype IndexPayload = IndexPayload(meta: seq<Value>, compilation: seq<seq<Value>>, routes: seq<RouteIn>)

  /** `iloilo_full_guides.json`: the seven meta columns, the guides and the
      scrape errors (four columns each). */
  datatype GuidesPayload = GuidesPayload(meta: seq<Value>, guides: seq<GuideIn>, errors: seq<seq<Value>>)

  /** Each record has as many columns as its table has beyond the keys. */
  ghost predicate WellFormed(index: IndexPayload, guides: GuidesPayload) {
    && |index.meta| == 6
    && (forall i :: 0 <= i < |index.compilation| ==> |index.compilation[i]| == 5)
    && (forall i :: 0 <= i < |index.routes| ==> |index.routes[i].columns| == 12)
    && |guides.meta| == 7
    && (forall i :: 0 <= i < |guides.guides| ==> GuideShape(guides.guides[i]))
    && (forall i :: 0 <= i < |guides.errors| ==> |guides.errors[i]| == 4)
  }

  ghost predicate GuideShape(g: GuideIn) {
    |g.columns| == 10 && EmbedsShape(g.embeds)
  }

  /** Every embed has its six columns. */
  ghost predicate EmbedsShape(embeds: seq<EmbedIn>)
    decreases |embeds|
  {
    |embeds| == 0 || (|embeds[0].columns| == 6 && EmbedsShape(embeds[1..]))
  }

  function RouteKey(r: RouteIn): SortKey { KeyOf(r.number) }

  function GuideKey(g: GuideIn): SortKey { KeyOf(g.number) }

  // ---------------------------------------------------------------------
  // Leaf lists
  // ---------------------------------------------------------------------

  /** `enumerate(xs, start=1)`: each value with its 1-based position. */
  function Enumerated(xs: seq<Value>): (items: seq<(Option<nat>, seq<Value>)>)
    ensures |items| == |xs|
    ensures forall i :: 0 <= i < |xs| ==> items[i] == (Some(i + 1), [xs[i]])
  {
    seq(|xs|, i requires 0 <= i < |xs| => (Some(i + 1), [xs[i]]))
  }

  /** A `lat_lng` entry with fewer than two components is skipped;
      otherwise its first two become lat and lng. Its position counts the
      skipped entries too. */
  function PointStep(): (seq<Value>, nat) -> Option<(Option<nat>, seq<Value>)> {
    (e: seq<Value>, order: nat) => if |e| < 2 then None else Some((Some(order), [e[0], e[1]]))
  }

  function PointItems(latLng: seq<seq<Value>>): seq<(Option<nat>, seq<Value>)> {
    Collect(latLng, 1, PointStep())
  }

  /** Every point row comes from an entry with at least two components, at
      the entry's own 1-based position among all entries. */
  lemma PointItemsFrom(latLng: seq<seq<Value>>, i: nat)
    requires i < |PointItems(latLng)|
    ensures var item := PointItems(latLng)[i];
      && item.0.Some? && 1 <= item.0.value <= |latLng|
      && |latLng[item.0.value - 1]| >= 2
      && item.1 == [latLng[item.0.value - 1][0], latLng[item.0.value - 1][1]]
  {
    CollectFrom(latLng, 1, PointStep(), i);
  }

  lemma PointItemsFit(t: Table, fk: Option<nat>, latLng: seq<seq<Value>>)
    requires t == RoutePoints || t == GuidePoints
    requires fk.Some?
    ensures ItemsFit(t, fk, PointItems(latLng))
  {
    var items := PointItems(latLng);
    forall i, id: nat | 0 <= i < |items| ensures Fits(Row(t, id, fk, items[i].0, items[i].1)) {
      PointItemsFrom(latLng, i);
    }
  }

  lemma EnumeratedFit(t: Table, fk: Option<nat>, xs: seq<Value>)
    requires t == RouteStops || t == Paragraphs || t == Headings
    requires fk.Some?
    ensures ItemsFit(t, fk, Enumerated(xs))
  {
  }

  // ---------------------------------------------------------------------
  // The traversal
  // ---------------------------------------------------------------------

  /** One polyline row under the route or embed with id `parent`, then its
      points; `seg` is the 1-based `segment_index`. */
  function EmitPolyline(st: State, tPoly: Table, tPoint: Table, parent: nat, poly: PolylineIn, seg: nat): (r: State)
  {
    var current := Next(st, tPoly);
    var st1 := EmitCounted(st, tPoly, Some(parent), Some(seg), [poly.name, poly.pointCount]);
    EmitBlock(st1, tPoint, Some(current), PointItems(poly.latLng))
  }

  /** `for segment_index, polyline in enumerate(polylines, start=1)`. */
  function EmitPolylines(st: State, tPoly: Table, tPoint: Table, parent: nat, polys: seq<PolylineIn>, seg: nat): (r: State)
    decreases |polys|
  {
    if |polys| == 0 then st
    else EmitPolylines(EmitPolyline(st, tPoly, tPoint, parent, polys[0], seg), tPoly, tPoint, parent, polys[1..], seg + 1)
  }

  /** A route's row, then its stops. */
  function EmitRouteHead(st: State, route: RouteIn, routeId: nat): (r: State)
  {
    var st1 := Emit(st, Routes, routeId, None, None, [IntOrNull(route.number)] + route.columns);
    EmitBlock(st1, RouteStops, Some(routeId), Enumerated(route.stops))
  }

  /** One route: its row, its stops, its polylines. */
  function EmitRoute(st: State, route: RouteIn, routeId: nat): (r: State)
  {
    EmitPolylines(EmitRouteHead(st, route, routeId), RoutePolylines, RoutePoints, routeId, route.polylines, 1)
  }

  /** `for route_id, route in enumerate(route_rows, start=1)`. */
  function EmitRoutes(st: State, routes: seq<RouteIn>, routeId: nat): (r: State)
    decreases |routes|
  {
    if |routes| == 0 then st
    else EmitRoutes(EmitRoute(st, routes[0], routeId), routes[1..], routeId + 1)
  }

  /** One map embed of the guide with id `guideId`, then its polylines. */
  function EmitEmbed(st: State, guideId: nat, e: EmbedIn, order: nat): (r: State)
  {
    var current := Next(st, Embeds);
    var st1 := EmitCounted(st, Embeds, Some(guideId), Some(order), e.columns);
    EmitPolylines(st1, GuidePolylines, GuidePoints, current, e.polylines, 1)
  }

  /** `for embed_order, embed in enumerate(embeds, start=1)`. */
  function EmitEmbeds(st: State, guideId: nat, embeds: seq<EmbedIn>, order: nat): (r: State)
    decreases |embeds|
  {
    if |embeds| == 0 then st
    else EmitEmbeds(EmitEmbed(st, guideId, embeds[0], order), guideId, embeds[1..], order + 1)
  }

  /** A guide's paragraphs, then its headings. */
  function EmitTexts(st: State, g: GuideIn, guideId: nat): (r: State)
  {
    var st1 := EmitBlock(st, Paragraphs, Some(guideId), Enumerated(g.paragraphs));
    EmitBlock(st1, Headings, Some(guideId), Enumerated(g.headings))
  }

  /** A guide's row, then its paragraphs and headings. */
  function EmitGuideHead(st: State, g: GuideIn, guideId: nat): (r: State)
  {
    var st1 := Emit(st, Guides, guideId, None, None, [IntOrNull(g.number)] + g.columns);
    EmitTexts(st1, g, guideId)
  }

  /** One guide: its row, paragraphs, headings and embeds. */
  function EmitGuide(st: State, g: GuideIn, guideId: nat): (r: State)
  {
    EmitEmbeds(EmitGuideHead(st, g, guideId), guideId, g.embeds, 1)
  }

  /** `for guide_id, guide in enumerate(guide_rows, start=1)`. */
  function EmitGuides(st: State, guides: seq<GuideIn>, guideId: nat): (r: State)
    decreases |guides|
  {
    if |guides| == 0 then st
    else EmitGuides(EmitGuide(st, guides[0], guideId), guides[1..], guideId + 1)
  }

  /** Rows numbered by `enumerate(xs, start=id)` with no parent. */
  function EmitNumbered(st: State, t: Table, xs: seq<seq<Value>>, id: nat): (r: State)
    ensures r.next == st.next
    decreases |xs|
  {
    if |xs| == 0 then st
    else EmitNumbered(Emit(st, t, id, None, None, xs[0]), t, xs[1..], id + 1)
  }

  /** After the index meta row and the compilation rows. */
  function IndexHead(index: IndexPayload): State {
    var st1 := Emit(Start(), RouteIndexMeta, 1, None, None, index.meta);
    EmitNumbered(st1, CompilationRows, index.compilation, 1)
  }

  /** After the sorted routes. */
  function IndexDone(index: IndexPayload): State {
    EmitRoutes(IndexHead(index), SortBy(index.routes, RouteKey), 1)
  }

  /** After the guides' meta row. */
  function GuidesHead(index: IndexPayload, guides: GuidesPayload): State {
    Emit(IndexDone(index), GuidesMeta, 1, None, None, guides.meta)
  }

  /** After the sorted guides. */
  function GuidesDone(index: IndexPayload, guides: GuidesPayload): State {
    EmitGuides(GuidesHead(index, guides), SortBy(guides.guides, GuideKey), 1)
  }

  /** Every INSERT of the script, in order: the scrape errors come last. */
  function DumpRows(index: IndexPayload, guides: GuidesPayload): seq<Row> {
    EmitNumbered(GuidesDone(index, guides), GuideErrors, guides.errors, 1).rows
  }

  // ---------------------------------------------------------------------
  // Keys and foreign keys
  // ---------------------------------------------------------------------

  const RouteTree: set<Table> := {Routes, RouteStops, RoutePolylines, RoutePoints}
  const GuideTree: set<Table> := {Guides, Paragraphs, Headings, Embeds, GuidePolylines, GuidePoints}
  const EmbedTree: set<Table> := {Embeds, GuidePolylines, GuidePoints}

  /** The `routes` row of a route. */
  function RouteRow(route: RouteIn, routeId: nat): Row {
    Row(Routes, routeId, None, None, [IntOrNull(route.number)] + route.columns)
  }

  /** The `routes` rows of `routes` numbered from `routeId`. */
  function RouteRows(routes: seq<RouteIn>, routeId: nat): (r: seq<Row>)
    ensures |r| == |routes|
    decreases |routes|
  {
    if |routes| == 0 then [] else [RouteRow(routes[0], routeId)] + RouteRows(routes[1..], routeId + 1)
  }

  lemma {:induction false} RouteRowsAt(routes: seq<RouteIn>, routeId: nat, i: nat)
    requires i < |routes|
    ensures RouteRows(routes, routeId)[i] == RouteRow(routes[i], routeId + i)
    decreases i
  {
    if i > 0 {
      RouteRowsAt(routes[1..], routeId + 1, i - 1);
    }
  }

  /** The `full_guides` row of a guide. */
  function GuideRow(g: GuideIn, guideId: nat): Row {
    Row(Guides, guideId, None, None, [IntOrNull(g.number)] + g.columns)
  }

  /** The `full_guides` rows of `guides` numbered from `guideId`. */
  function GuideRows(guides: seq<GuideIn>, guideId: nat): (r: seq<Row>)
    ensures |r| == |guides|
    decreases |guides|
  {
    if |guides| == 0 then [] else [GuideRow(guides[0], guideId)] + GuideRows(guides[1..], guideId + 1)
  }

  lemma {:induction false} GuideRowsAt(guides: seq<GuideIn>, guideId: nat, i: nat)
    requires i < |guides|
    ensures GuideRows(guides, guideId)[i] == GuideRow(guides[i], guideId + i)
    decreases i
  {
    if i > 0 {
      GuideRowsAt(guides[1..], guideId + 1, i - 1);
    }
  }

  // ---------------------------------------------------------------------
  // Which tables each step writes, and the rows of the top tables
  // ---------------------------------------------------------------------

  lemma PolylineExtends(st: State, tPoly: Table, tPoint: Table, parent: nat, poly: PolylineIn, seg: nat)
    ensures Extends(st.rows, EmitPolyline(st, tPoly, tPoint, parent, poly, seg).rows, {tPoly, tPoint})
  {
    var current := Next(st, tPoly);
    var data := [poly.name, poly.pointCount];
    var st1 := EmitCounted(st, tPoly, Some(parent), Some(seg), data);
    AppendExtends(st.rows, Row(tPoly, current, Some(parent), Some(seg), data));
    EmitBlockExtends(st1, tPoint, Some(current), PointItems(poly.latLng));
    ExtendsTrans(st.rows, st1.rows, EmitBlock(st1, tPoint, Some(current), PointItems(poly.latLng)).rows, {tPoly}, {tPoint});
  }

  lemma {:induction false} PolylinesExtends(st: State, tPoly: Table, tPoint: Table, parent: nat, polys: seq<PolylineIn>, seg: nat)
    ensures Extends(st.rows, EmitPolylines(st, tPoly, tPoint, parent, polys, seg).rows, {tPoly, tPoint})
    decreases |polys|
  {
    if |polys| > 0 {
      var st1 := EmitPolyline(st, tPoly, tPoint, parent, polys[0], seg);
      PolylineExtends(st, tPoly, tPoint, parent, polys[0], seg);
      PolylinesExtends(st1, tPoly, tPoint, parent, polys[1..], seg + 1);
      ExtendsTrans(st.rows, st1.rows, EmitPolylines(st1, tPoly, tPoint, parent, polys[1..], seg + 1).rows, {tPoly, tPoint}, {tPoly, tPoint});
    } else {
      ExtendsRefl(st.rows, {tPoly, tPoint});
    }
  }

  lemma RouteHeadExtends(st: State, route: RouteIn, routeId: nat)
    ensures var r := EmitRouteHead(st, route, routeId);
      && Extends(st.rows, r.rows, {Routes, RouteStops})
      && TableRows(r.rows, Routes) == TableRows(st.rows, Routes) + [RouteRow(route, routeId)]
  {
    var st1 := Emit(st, Routes, routeId, None, None, [IntOrNull(route.number)] + route.columns);
    AppendExtends(st.rows, RouteRow(route, routeId));
    TableRowsAppend(st.rows, RouteRow(route, routeId), Routes);
    var r := EmitBlock(st1, RouteStops, Some(routeId), Enumerated(route.stops));
    EmitBlockExtends(st1, RouteStops, Some(routeId), Enumerated(route.stops));
    ExtendsTableRows(st1.rows, r.rows, {RouteStops}, Routes);
    ExtendsTrans(st.rows, st1.rows, r.rows, {Routes}, {RouteStops});
  }

  lemma RouteExtends(st: State, route: RouteIn, routeId: nat)
    ensures var r := EmitRoute(st, route, routeId);
      && Extends(st.rows, r.rows, RouteTree)
      && TableRows(r.rows, Routes) == TableRows(st.rows, Routes) + [RouteRow(route, routeId)]
  {
    var st1 := EmitRouteHead(st, route, routeId);
    RouteHeadExtends(st, route, routeId);
    var r := EmitPolylines(st1, RoutePolylines, RoutePoints, routeId, route.polylines, 1);
    PolylinesExtends(st1, RoutePolylines, RoutePoints, routeId, route.polylines, 1);
    ExtendsTableRows(st1.rows, r.rows, {RoutePolylines, RoutePoints}, Routes);
    ExtendsTrans(st.rows, st1.rows, r.rows, {Routes, RouteStops}, {RoutePolylines, RoutePoints});
  }

  /** The routes write only the route tables, and the `routes` rows are
      the given routes, in order, numbered from `routeId`. */
  lemma {:induction false} RoutesExtends(st: State, routes: seq<RouteIn>, routeId: nat)
    ensures var r := EmitRoutes(st, routes, routeId);
      && Extends(st.rows, r.rows, RouteTree)
      && TableRows(r.rows, Routes) == TableRows(st.rows, Routes) + RouteRows(routes, routeId)
    decreases |routes|
  {
    if |routes| > 0 {
      var st1 := EmitRoute(st, routes[0], routeId);
      RouteExtends(st, routes[0], routeId);
      RoutesExtends(st1, routes[1..], routeId + 1);
      var r := EmitRoutes(st1, routes[1..], routeId + 1);
      ExtendsTrans(st.rows, st1.rows, r.rows, RouteTree, RouteTree);
      assert TableRows(r.rows, Routes) == (TableRows(st.rows, Routes) + [RouteRow(routes[0], routeId)]) + RouteRows(routes[1..], routeId + 1);
    } else {
      ExtendsRefl(st.rows, RouteTree);
    }
  }

  lemma EmbedExtends(st: State, guideId: nat, e: EmbedIn, order: nat)
    ensures Extends(st.rows, EmitEmbed(st, guideId, e, order).rows, EmbedTree)
  {
    var current := Next(st, Embeds);
    var st1 := EmitCounted(st, Embeds, Some(guideId), Some(order), e.columns);
    AppendExtends(st.rows, Row(Embeds, current, Some(guideId), Some(order), e.columns));
    PolylinesExtends(st1, GuidePolylines, GuidePoints, current, e.polylines, 1);
    ExtendsTrans(st.rows, st1.rows, EmitPolylines(st1, GuidePolylines, GuidePoints, current, e.polylines, 1).rows, {Embeds}, {GuidePolylines, GuidePoints});
  }

  lemma {:induction false} EmbedsExtends(st: State, guideId: nat, embeds: seq<EmbedIn>, order: nat)
    ensures Extends(st.rows, EmitEmbeds(st, guideId, embeds, order).rows, EmbedTree)
    decreases |embeds|
  {
    if |embeds| > 0 {
      var st1 := EmitEmbed(st, guideId, embeds[0], order);
      EmbedExtends(st, guideId, embeds[0], order);
      EmbedsExtends(st1, guideId, embeds[1..], order + 1);
      ExtendsTrans(st.rows, st1.rows, EmitEmbeds(st1, guideId, embeds[1..], order + 1).rows, EmbedTree, EmbedTree);
    } else {
      ExtendsRefl(st.rows, EmbedTree);
    }
  }

  lemma TextsExtends(st: State, g: GuideIn, guideId: nat)
    ensures Extends(st.rows, EmitTexts(st, g, guideId).rows, {Paragraphs, Headings})
  {
    var st1 := EmitBlock(st, Paragraphs, Some(guideId), Enumerated(g.paragraphs));
    EmitBlockExtends(st, Paragraphs, Some(guideId), Enumerated(g.paragraphs));
    EmitBlockExtends(st1, Headings, Some(guideId), Enumerated(g.headings));
    ExtendsTrans(st.rows, st1.rows, EmitBlock(st1, Headings, Some(guideId), Enumerated(g.headings)).rows, {Paragraphs}, {Headings});
  }

  lemma GuideHeadExtends(st: State, g: GuideIn, guideId: nat)
    ensures var r := EmitGuideHead(st, g, guideId);
      && Extends(st.rows, r.rows, {Guides, Paragraphs, Headings})
      && TableRows(r.rows, Guides) == TableRows(st.rows, Guides) + [GuideRow(g, guideId)]
  {
    var st1 := Emit(st, Guides, guideId, None, None, [IntOrNull(g.number)] + g.columns);
    AppendExtends(st.rows, GuideRow(g, guideId));
    TableRowsAppend(st.rows, GuideRow(g, guideId), Guides);
    var r := EmitTexts(st1, g, guideId);
    TextsExtends(st1, g, guideId);
    ExtendsTableRows(st1.rows, r.rows, {Paragraphs, Headings}, Guides);
    ExtendsTrans(st.rows, st1.rows, r.rows, {Guides}, {Paragraphs, Headings});
  }

  lemma GuideExtends(st: State, g: GuideIn, guideId: nat)
    ensures var r := EmitGuide(st, g, guideId);
      && Extends(st.rows, r.rows, GuideTree)
      && TableRows(r.rows, Guides) == TableRows(st.rows, Guides) + [GuideRow(g, guideId)]
  {
    var st1 := EmitGuideHead(st, g, guideId);
    var r := EmitEmbeds(st1, guideId, g.embeds, 1);
    EmbedsExtends(st1, guideId, g.embeds, 1);
    ExtendsTableRows(st1.rows, r.rows, EmbedTree, Guides);
    GuideHeadExtends(st, g, guideId);
    ExtendsTrans(st.rows, st1.rows, r.rows, {Guides, Paragraphs, Headings}, EmbedTree);
  }

  /** The guides write only the guide tables, and the `full_guides` rows
      are the given guides, in order, numbered from `guideId`. */
  lemma {:induction false} GuidesExtends(st: State, guides: seq<GuideIn>, guideId: nat)
    ensures var r := EmitGuides(st, guides, guideId);
      && Extends(st.rows, r.rows, GuideTree)
      && TableRows(r.rows, Guides) == TableRows(st.rows, Guides) + GuideRows(guides, guideId)
    decreases |guides|
  {
    if |guides| > 0 {
      var st1 := EmitGuide(st, guides[0], guideId);
      GuideExtends(st, guides[0], guideId);
      GuidesExtends(st1, guides[1..], guideId + 1);
      var r := EmitGuides(st1, guides[1..], guideId + 1);
      ExtendsTrans(st.rows, st1.rows, r.rows, GuideTree, GuideTree);
      assert TableRows(r.rows, Guides) == (TableRows(st.rows, Guides) + [GuideRow(guides[0], guideId)]) + GuideRows(guides[1..], guideId + 1);
    } else {
      ExtendsRefl(st.rows, GuideTree);
    }
  }

  lemma {:induction false} NumberedExtends(st: State, t: Table, xs: seq<seq<Value>>, id: nat)
    ensures Extends(st.rows, EmitNumbered(st, t, xs, id).rows, {t})
    decreases |xs|
  {
    if |xs| > 0 {
      var st1 := Emit(st, t, id, None, None, xs[0]);
      AppendExtends(st.rows, Row(t, id, None, None, xs[0]));
      NumberedExtends(st1, t, xs[1..], id + 1);
      ExtendsTrans(st.rows, st1.rows, EmitNumbered(st1, t, xs[1..], id + 1).rows, {t}, {t});
    } else {
      ExtendsRefl(st.rows, {t});
    }
  }

  // ---------------------------------------------------------------------
  // Every step keeps every row good
  // ---------------------------------------------------------------------

  lemma EmitPolylineGood(st: State, tPoly: Table, tPoint: Table, parent: nat, poly: PolylineIn, seg: nat)
    requires (tPoly == RoutePolylines && tPoint == RoutePoints) || (tPoly == GuidePolylines && tPoint == GuidePoints)
    requires Good(st) && FkFits(st, tPoly, Some(parent))
    ensures var r := EmitPolyline(st, tPoly, tPoint, parent, poly, seg);
      Good(r) && Count(r.rows, Parent(tPoly).value) == Count(st.rows, Parent(tPoly).value)
  {
    var current := Next(st, tPoly);
    var data := [poly.name, poly.pointCount];
    var st1 := EmitCounted(st, tPoly, Some(parent), Some(seg), data);
    assert Fits(Row(tPoly, current, Some(parent), Some(seg), data)) by {
      assert Arity(tPoly) == 5;
    }
    EmitCountedGood(st, tPoly, Some(parent), Some(seg), data);
    PointItemsFit(tPoint, Some(current), poly.latLng);
    EmitBlockGood(st1, tPoint, Some(current), PointItems(poly.latLng));
    var r := EmitBlock(st1, tPoint, Some(current), PointItems(poly.latLng));
    PolylineKeepsParents(st.rows, st1.rows, r.rows, tPoly, tPoint);
  }

  /** A polyline and its points leave the count of the polyline's parent
      table alone. */
  lemma PolylineKeepsParents(a: seq<Row>, b: seq<Row>, c: seq<Row>, tPoly: Table, tPoint: Table)
    requires (tPoly == RoutePolylines && tPoint == RoutePoints) || (tPoly == GuidePolylines && tPoint == GuidePoints)
    requires Extends(a, b, {tPoly}) && Extends(b, c, {tPoint})
    ensures Count(c, Parent(tPoly).value) == Count(a, Parent(tPoly).value)
  {
    var p := Parent(tPoly).value;
    ExtendsCount(a, b, {tPoly}, p);
    ExtendsCount(b, c, {tPoint}, p);
  }

  lemma {:induction false} EmitPolylinesGood(st: State, tPoly: Table, tPoint: Table, parent: nat, polys: seq<PolylineIn>, seg: nat)
    requires (tPoly == RoutePolylines && tPoint == RoutePoints) || (tPoly == GuidePolylines && tPoint == GuidePoints)
    requires Good(st) && FkFits(st, tPoly, Some(parent))
    ensures var r := EmitPolylines(st, tPoly, tPoint, parent, polys, seg);
      Good(r) && Count(r.rows, Parent(tPoly).value) == Count(st.rows, Parent(tPoly).value)
    decreases |polys|
  {
    if |polys| > 0 {
      EmitPolylineGood(st, tPoly, tPoint, parent, polys[0], seg);
      var st1 := EmitPolyline(st, tPoly, tPoint, parent, polys[0], seg);
      EmitPolylinesGood(st1, tPoly, tPoint, parent, polys[1..], seg + 1);
    }
  }

  lemma EmitRouteHeadGood(st: State, route: RouteIn, routeId: nat)
    requires Good(st) && routeId == Count(st.rows, Routes) + 1 && |route.columns| == 12
    ensures var r := EmitRouteHead(st, route, routeId);
      Good(r) && Count(r.rows, Routes) == routeId
  {
    var data := [IntOrNull(route.number)] + route.columns;
    var st1 := Emit(st, Routes, routeId, None, None, data);
    EmitGood(st, Routes, routeId, None, None, data);
    EmitEnumeratedGood(st1, RouteStops, routeId, route.stops);
  }

  lemma EmitRouteGood(st: State, route: RouteIn, routeId: nat)
    requires Good(st) && routeId == Count(st.rows, Routes) + 1 && |route.columns| == 12
    ensures var r := EmitRoute(st, route, routeId);
      Good(r) && Count(r.rows, Routes) == routeId
  {
    EmitRouteHeadGood(st, route, routeId);
    var st1 := EmitRouteHead(st, route, routeId);
    EmitPolylinesGood(st1, RoutePolylines, RoutePoints, routeId, route.polylines, 1);
  }

  lemma {:induction false} EmitRoutesGood(st: State, routes: seq<RouteIn>, routeId: nat)
    requires Good(st) && routeId == Count(st.rows, Routes) + 1
    requires forall i :: 0 <= i < |routes| ==> |routes[i].columns| == 12
    ensures Good(EmitRoutes(st, routes, routeId))
    decreases |routes|
  {
    if |routes| > 0 {
      EmitRouteGood(st, routes[0], routeId);
      var st1 := EmitRoute(st, routes[0], routeId);
      var rest := routes[1..];
      forall i | 0 <= i < |rest| ensures |rest[i].columns| == 12 {
        assert rest[i] == routes[i + 1];
      }
      var r := EmitRoutes(st1, rest, routeId + 1);
      EmitRoutesGood(st1, rest, routeId + 1);
      assert Good(r);
      assert EmitRoutes(st, routes, routeId) == r;
    }
  }

  lemma EmitEmbedGood(st: State, guideId: nat, e: EmbedIn, order: nat)
    requires Good(st) && FkFits(st, Embeds, Some(guideId)) && |e.columns| == 6
    ensures var r := EmitEmbed(st, guideId, e, order);
      Good(r) && Count(r.rows, Guides) == Count(st.rows, Guides)
  {
    var current := Next(st, Embeds);
    var st1 := EmitCounted(st, Embeds, Some(guideId), Some(order), e.columns);
    EmitCountedGood(st, Embeds, Some(guideId), Some(order), e.columns);
    EmitPolylinesGood(st1, GuidePolylines, GuidePoints, current, e.polylines, 1);
    PolylinesExtends(st1, GuidePolylines, GuidePoints, current, e.polylines, 1);
    EmbedKeepsGuides(st.rows, st1.rows, EmitPolylines(st1, GuidePolylines, GuidePoints, current, e.polylines, 1).rows);
  }

  /** An embed row and its polylines leave the guide count alone. */
  lemma EmbedKeepsGuides(a: seq<Row>, b: seq<Row>, c: seq<Row>)
    requires Extends(a, b, {Embeds}) && Extends(b, c, {GuidePolylines, GuidePoints})
    ensures Count(c, Guides) == Count(a, Guides)
  {
    ExtendsCount(a, b, {Embeds}, Guides);
    ExtendsCount(b, c, {GuidePolylines, GuidePoints}, Guides);
  }

  lemma {:induction false} EmitEmbedsGood(st: State, guideId: nat, embeds: seq<EmbedIn>, order: nat)
    requires Good(st) && FkFits(st, Embeds, Some(guideId))
    requires EmbedsShape(embeds)
    ensures var r := EmitEmbeds(st, guideId, embeds, order);
      Good(r) && Count(r.rows, Guides) == Count(st.rows, Guides)
    decreases |embeds|
  {
    if |embeds| > 0 {
      EmitEmbedGood(st, guideId, embeds[0], order);
      var st1 := EmitEmbed(st, guideId, embeds[0], order);
      EmitEmbedsGood(st1, guideId, embeds[1..], order + 1);
      assert EmitEmbeds(st, guideId, embeds, order) == EmitEmbeds(st1, guideId, embeds[1..], order + 1);
    }
  }

  /** An `enumerate`d block of leaf rows under the row `parent`. */
  lemma EmitEnumeratedGood(st: State, t: Table, parent: nat, xs: seq<Value>)
    requires t == RouteStops || t == Paragraphs || t == Headings
    requires Good(st) && FkFits(st, t, Some(parent))
    ensures var r := EmitBlock(st, t, Some(parent), Enumerated(xs));
      Good(r) && Count(r.rows, Parent(t).value) == Count(st.rows, Parent(t).value)
  {
    EnumeratedFit(t, Some(parent), xs);
    EmitBlockGood(st, t, Some(parent), Enumerated(xs));
    ExtendsCount(st.rows, EmitBlock(st, t, Some(parent), Enumerated(xs)).rows, {t}, Parent(t).value);
  }

  lemma EmitTextsGood(st: State, g: GuideIn, guideId: nat)
    requires Good(st) && FkFits(st, Paragraphs, Some(guideId))
    ensures Good(EmitTexts(st, g, guideId))
  {
    assert Parent(Paragraphs) == Some(Guides) && Parent(Headings) == Some(Guides);
    EmitEnumeratedGood(st, Paragraphs, guideId, g.paragraphs);
    var st1 := EmitBlock(st, Paragraphs, Some(guideId), Enumerated(g.paragraphs));
    assert FkFits(st1, Headings, Some(guideId));
    EmitEnumeratedGood(st1, Headings, guideId, g.headings);
  }

  lemma EmitGuideHeadGood(st: State, g: GuideIn, guideId: nat)
    requires Good(st) && guideId == Count(st.rows, Guides) + 1 && |g.columns| == 10
    ensures var r := EmitGuideHead(st, g, guideId);
      Good(r) && Count(r.rows, Guides) == guideId
  {
    var data := [IntOrNull(g.number)] + g.columns;
    EmitGood(st, Guides, guideId, None, None, data);
    var st1 := Emit(st, Guides, guideId, None, None, data);
    var r := EmitTexts(st1, g, guideId);
    EmitTextsGood(st1, g, guideId);
    TextsExtends(st1, g, guideId);
    ExtendsCount(st1.rows, r.rows, {Paragraphs, Headings}, Guides);
    assert Good(r) && Count(r.rows, Guides) == guideId;
    assert EmitGuideHead(st, g, guideId) == r;
  }

  lemma EmitGuideGood(st: State, g: GuideIn, guideId: nat)
    requires Good(st) && guideId == Count(st.rows, Guides) + 1 && GuideShape(g)
    ensures var r := EmitGuide(st, g, guideId);
      Good(r) && Count(r.rows, Guides) == guideId
  {
    EmitGuideHeadGood(st, g, guideId);
    var st1 := EmitGuideHead(st, g, guideId);
    assert A: Good(st1);
    assert B: FkFits(st1, Embeds, Some(guideId));
    EmitEmbedsGood(st1, guideId, g.embeds, 1);
  }

  lemma {:induction false} EmitGuidesGood(st: State, guides: seq<GuideIn>, guideId: nat)
    requires Good(st) && guideId == Count(st.rows, Guides) + 1
    requires forall i :: 0 <= i < |guides| ==> GuideShape(guides[i])
    ensures Good(EmitGuides(st, guides, guideId))
    decreases |guides|
  {
    if |guides| > 0 {
      EmitGuideGood(st, guides[0], guideId);
      var st1 := EmitGuide(st, guides[0], guideId);
      var rest := guides[1..];
      forall i | 0 <= i < |rest| ensures GuideShape(rest[i]) {
        assert rest[i] == guides[i + 1];
      }
      var r := EmitGuides(st1, rest, guideId + 1);
      EmitGuidesGood(st1, rest, guideId + 1);
      assert Good(r);
      assert EmitGuides(st, guides, guideId) == r;
    }
  }

  lemma {:induction false} EmitNumberedGood(st: State, t: Table, xs: seq<seq<Value>>, id: nat)
    requires t == CompilationRows || t == GuideErrors
    requires Good(st) && id == Count(st.rows, t) + 1
    requires forall i :: 0 <= i < |xs| ==> |xs[i]| == Arity(t) - 1
    ensures Good(EmitNumbered(st, t, xs, id))
    decreases |xs|
  {
    if |xs| > 0 {
      var st1 := Emit(st, t, id, None, None, xs[0]);
      EmitGood(st, t, id, None, None, xs[0]);
      var rest := xs[1..];
      forall i | 0 <= i < |rest| ensures |rest[i]| == Arity(t) - 1 {
        assert rest[i] == xs[i + 1];
      }
      CountAppend(st.rows, Row(t, id, None, None, xs[0]), t);
      var r := EmitNumbered(st1, t, rest, id + 1);
      EmitNumberedGood(st1, t, rest, id + 1);
      assert Good(r);
      assert EmitNumbered(st, t, xs, id) == r;
    }
  }

  // ---------------------------------------------------------------------
  // The whole script
  // ---------------------------------------------------------------------

  const HeadTables: set<Table> := {RouteIndexMeta, CompilationRows}
  const IndexTables: set<Table> := {RouteIndexMeta, CompilationRows, Routes, RouteStops, RoutePolylines, RoutePoints}
  const GuideTables: set<Table> := {GuidesMeta, Guides, Paragraphs, Headings, Embeds, GuidePolylines, GuidePoints}
  const GuidePart: set<Table> := {GuidesMeta, Guides, Paragraphs, Headings, Embeds, GuidePolylines, GuidePoints, GuideErrors}
  const BeforeGuides: set<Table> :=
    {RouteIndexMeta, CompilationRows, Routes, RouteStops, RoutePolylines, RoutePoints, GuidesMeta}
  const AllTables: set<Table> :=
    {RouteIndexMeta, CompilationRows, Routes, RouteStops, RoutePolylines, RoutePoints,
     GuidesMeta, Guides, Paragraphs, Headings, Embeds, GuidePolylines, GuidePoints}

  /** Sorting keeps the records, so it keeps their shapes. */
  lemma SortByKeeps<T>(xs: seq<T>, key: T -> SortKey, i: nat)
    requires i < |xs|
    ensures SortBy(xs, key)[i] in xs
  {
    SortBySorted(xs, key);
    assert SortBy(xs, key)[i] in multiset(SortBy(xs, key));
  }

  lemma SortedRoutesShape(routes: seq<RouteIn>)
    requires forall i :: 0 <= i < |routes| ==> |routes[i].columns| == 12
    ensures forall i :: 0 <= i < |routes| ==> |SortBy(routes, RouteKey)[i].columns| == 12
  {
    forall i | 0 <= i < |routes| ensures |SortBy(routes, RouteKey)[i].columns| == 12 {
      SortByKeeps(routes, RouteKey, i);
    }
  }

  lemma SortedGuidesShape(guides: seq<GuideIn>)
    requires forall i :: 0 <= i < |guides| ==> GuideShape(guides[i])
    ensures forall i :: 0 <= i < |guides| ==> GuideShape(SortBy(guides, GuideKey)[i])
  {
    forall i | 0 <= i < |guides| ensures GuideShape(SortBy(guides, GuideKey)[i]) {
      SortByKeeps(guides, GuideKey, i);
    }
  }

  /** The meta row and the compilation rows. */
  lemma IndexHeadGood(index: IndexPayload)
    requires |index.meta| == 6
    requires forall i :: 0 <= i < |index.compilation| ==> |index.compilation[i]| == 5
    ensures Good(IndexHead(index)) && Extends([], IndexHead(index).rows, HeadTables)
  {
    var st1 := Emit(Start(), RouteIndexMeta, 1, None, None, index.meta);
    EmitGood(Start(), RouteIndexMeta, 1, None, None, index.meta);
    CountAppend([], Row(RouteIndexMeta, 1, None, None, index.meta), CompilationRows);
    EmitNumberedGood(st1, CompilationRows, index.compilation, 1);
    NumberedExtends(st1, CompilationRows, index.compilation, 1);
    ExtendsTrans([], st1.rows, IndexHead(index).rows, {RouteIndexMeta}, {CompilationRows});
  }

  /** ... then the routes, in sorted order. */
  lemma IndexDoneGood(index: IndexPayload)
    requires |index.meta| == 6
    requires forall i :: 0 <= i < |index.compilation| ==> |index.compilation[i]| == 5
    requires forall i :: 0 <= i < |index.routes| ==> |index.routes[i].columns| == 12
    ensures Good(IndexDone(index)) && Extends([], IndexDone(index).rows, IndexTables)
  {
    IndexHeadGood(index);
    var st2 := IndexHead(index);
    var sorted := SortBy(index.routes, RouteKey);
    ExtendsCount([], st2.rows, HeadTables, Routes);
    SortedRoutesShape(index.routes);
    EmitRoutesGood(st2, sorted, 1);
    RoutesExtends(st2, sorted, 1);
    ExtendsInto([], st2.rows, IndexDone(index).rows, HeadTables, RouteTree, IndexTables);
  }

  /** ... then the guides' meta row ... */
  lemma GuidesMetaGood(st: State, meta: seq<Value>)
    requires Good(st) && Extends([], st.rows, IndexTables) && |meta| == 7
    ensures var r := Emit(st, GuidesMeta, 1, None, None, meta);
      Good(r) && Extends([], r.rows, BeforeGuides)
  {
    ExtendsCount([], st.rows, IndexTables, GuidesMeta);
    EmitGood(st, GuidesMeta, 1, None, None, meta);
    ExtendsInto([], st.rows, Emit(st, GuidesMeta, 1, None, None, meta).rows, IndexTables, {GuidesMeta}, BeforeGuides);
  }

  /** ... and the guides. */
  lemma GuidesPartGood(st: State, gs: seq<GuideIn>)
    requires Good(st) && Extends([], st.rows, BeforeGuides)
    requires forall i :: 0 <= i < |gs| ==> GuideShape(gs[i])
    ensures Good(EmitGuides(st, gs, 1)) && Extends([], EmitGuides(st, gs, 1).rows, AllTables)
  {
    ExtendsCount([], st.rows, BeforeGuides, Guides);
    EmitGuidesGood(st, gs, 1);
    GuidesExtends(st, gs, 1);
    ExtendsInto([], st.rows, EmitGuides(st, gs, 1).rows, BeforeGuides, GuideTree, AllTables);
  }

  lemma GuidesDoneGood(index: IndexPayload, guides: GuidesPayload)
    requires WellFormed(index, guides)
    ensures Good(GuidesDone(index, guides))
    ensures Extends([], GuidesDone(index, guides).rows, AllTables)
  {
    IndexDoneGood(index);
    SortedGuidesShape(guides.guides);
    GuidesMetaGood(IndexDone(index), guides.meta);
    GuidesPartGood(GuidesHead(index, guides), SortBy(guides.guides, GuideKey));
  }

  /** ... and last the scrape errors. */
  lemma ErrorsGood(st: State, errors: seq<seq<Value>>)
    requires Good(st) && Extends([], st.rows, AllTables)
    requires forall i :: 0 <= i < |errors| ==> |errors[i]| == 4
    ensures AllRowsOk(EmitNumbered(st, GuideErrors, errors, 1).rows)
  {
    ExtendsCount([], st.rows, AllTables, GuideErrors);
    EmitNumberedGood(st, GuideErrors, errors, 1);
  }

  /** The whole script keeps every row good: every row fits its table,
      has the next id of its table, and points at the latest parent row. */
  lemma DumpRowsGood(index: IndexPayload, guides: GuidesPayload)
    requires WellFormed(index, guides)
    ensures AllRowsOk(DumpRows(index, guides))
  {
    GuidesDoneGood(index, guides);
    ErrorsGood(GuidesDone(index, guides), guides.errors);
  }

  /** Each table's ids in the script are 1, 2, …, n in order. */
  lemma DumpIds(index: IndexPayload, guides: GuidesPayload, t: Table)
    requires WellFormed(index, guides)
    ensures IdsOf(DumpRows(index, guides), t) == Iota(Count(DumpRows(index, guides), t))
  {
    DumpRowsGood(index, guides);
    IdsAreIota(DumpRows(index, guides), t);
  }

  /** Every foreign key in the script names an earlier row of the parent
      table. */
  lemma DumpFks(index: IndexPayload, guides: GuidesPayload, k: nat)
    requires WellFormed(index, guides)
    requires k < |DumpRows(index, guides)| && Parent(DumpRows(index, guides)[k].table).Some?
    ensures var rows := DumpRows(index, guides);
      && rows[k].fk.Some?
      && exists j :: 0 <= j < k && rows[j].table == Parent(rows[k].table).value && rows[j].id == rows[k].fk.value
  {
    DumpRowsGood(index, guides);
    FksResolve(DumpRows(index, guides), k);
  }

  lemma IndexHeadExtends(index: IndexPayload)
    ensures Extends([], IndexHead(index).rows, HeadTables)
  {
    var st1 := Emit(Start(), RouteIndexMeta, 1, None, None, index.meta);
    AppendExtends([], Row(RouteIndexMeta, 1, None, None, index.meta));
    NumberedExtends(st1, CompilationRows, index.compilation, 1);
    ExtendsTrans([], st1.rows, IndexHead(index).rows, {RouteIndexMeta}, {CompilationRows});
  }

  lemma GuidesHeadExtends(index: IndexPayload, guides: GuidesPayload)
    ensures Extends(IndexDone(index).rows, GuidesHead(index, guides).rows, {GuidesMeta})
  {
    AppendExtends(IndexDone(index).rows, Row(GuidesMeta, 1, None, None, guides.meta));
  }

  lemma DumpTailExtends(index: IndexPayload, guides: GuidesPayload)
    ensures Extends(GuidesDone(index, guides).rows, DumpRows(index, guides), {GuideErrors})
  {
    NumberedExtends(GuidesDone(index, guides), GuideErrors, guides.errors, 1);
  }

  /** The index part writes the index tables, and its `routes` rows are
      the sorted routes. */
  lemma IndexDoneRows(index: IndexPayload)
    ensures Extends([], IndexDone(index).rows, IndexTables)
    ensures TableRows(IndexDone(index).rows, Routes) == RouteRows(SortBy(index.routes, RouteKey), 1)
  {
    var h := IndexHead(index);
    IndexHeadExtends(index);
    ExtendsTableRows([], h.rows, HeadTables, Routes);
    RoutesExtends(h, SortBy(index.routes, RouteKey), 1);
    ExtendsInto([], h.rows, IndexDone(index).rows, HeadTables, RouteTree, IndexTables);
  }

  /** The guide part writes the guide tables, and its `full_guides` rows
      are the sorted guides. */
  lemma GuidesDoneRows(index: IndexPayload, guides: GuidesPayload)
    ensures Extends(IndexDone(index).rows, GuidesDone(index, guides).rows, GuideTables)
    ensures TableRows(GuidesDone(index, guides).rows, Guides)
         == TableRows(IndexDone(index).rows, Guides) + GuideRows(SortBy(guides.guides, GuideKey), 1)
  {
    var d, gh := IndexDone(index), GuidesHead(index, guides);
    GuidesHeadExtends(index, guides);
    ExtendsTableRows(d.rows, gh.rows, {GuidesMeta}, Guides);
    GuidesExtends(gh, SortBy(guides.guides, GuideKey), 1);
    ExtendsInto(d.rows, gh.rows, GuidesDone(index, guides).rows, {GuidesMeta}, GuideTree, GuideTables);
  }

  /** Everything after the routes writes only guide tables and errors. */
  lemma AfterIndex(index: IndexPayload, guides: GuidesPayload)
    ensures Extends(IndexDone(index).rows, DumpRows(index, guides), GuidePart)
  {
    GuidesDoneRows(index, guides);
    DumpTailExtends(index, guides);
    ExtendsInto(IndexDone(index).rows, GuidesDone(index, guides).rows, DumpRows(index, guides), GuideTables, {GuideErrors}, GuidePart);
  }

  /** The `routes` rows of the script are the routes in sorted order, the
      i-th with id i + 1. */
  lemma DumpRoutes(index: IndexPayload, guides: GuidesPayload)
    ensures var sorted := SortBy(index.routes, RouteKey);
      && TableRows(DumpRows(index, guides), Routes) == RouteRows(sorted, 1)
      && forall i :: 0 <= i < |sorted| ==> TableRows(DumpRows(index, guides), Routes)[i] == RouteRow(sorted[i], i + 1)
  {
    var sorted := SortBy(index.routes, RouteKey);
    IndexDoneRows(index);
    AfterIndex(index, guides);
    ExtendsTableRows(IndexDone(index).rows, DumpRows(index, guides), GuidePart, Routes);
    forall i | 0 <= i < |sorted| ensures RouteRows(sorted, 1)[i] == RouteRow(sorted[i], i + 1) {
      RouteRowsAt(sorted, 1, i);
    }
  }

  /** The `full_guides` rows of the script are the guides in sorted
      order, the i-th with id i + 1. */
  lemma DumpGuides(index: IndexPayload, guides: GuidesPayload)
    ensures var sorted := SortBy(guides.guides, GuideKey);
      && TableRows(DumpRows(index, guides), Guides) == GuideRows(sorted, 1)
      && forall i :: 0 <= i < |sorted| ==> TableRows(DumpRows(index, guides), Guides)[i] == GuideRow(sorted[i], i + 1)
  {
    var sorted := SortBy(guides.guides, GuideKey);
    IndexDoneRows(index);
    ExtendsTableRows([], IndexDone(index).rows, IndexTables, Guides);
    GuidesDoneRows(index, guides);
    DumpTailExtends(index, guides);
    ExtendsTableRows(GuidesDone(index, guides).rows, DumpRows(index, guides), {GuideErrors}, Guides);
    forall i | 0 <= i < |sorted| ensures GuideRows(sorted, 1)[i] == GuideRow(sorted[i], i + 1) {
      GuideRowsAt(sorted, 1, i);
    }
  }
}
