/**
 * Decoding of KML map exports: the route polylines of
 * `parse_kml_polylines` and the stop markers of `parse_map_markers_from_kml`.
 *
 * The XML itself is not parsed here. A document is the sequence of its
 * `<Placemark>` elements, each already reduced to the text of its `<name>`
 * and of the `<coordinates>` of its first `<LineString>` and first
 * `<Point>` (the text as `get_text(" ", strip=True)` returns it). Python's
 * `float()` is a parameter.
 */
module Kml {
  import opened Wrappers
  import opened Strings
  import opened Text
  import opened Num
  import opened Collecting

  /** A `<LineString>` or `<Point>` element: the text of its
      `<coordinates>` child, if it has one. */
  datatype Shape = Shape(coordinates: Option<string>)

  /** A `<Placemark>`: its name text, its first LineString and its first
      Point. A present but empty tag is still present. */
  datatype Placemark = Placemark(name: Option<string>, line: Option<Shape>, point: Option<Shape>)

  /** Python's `float()` on a string, `None` where it raises ValueError. */
  type NumParser = string -> Option<Float>

  /** An ordered pair of coordinates. */
  datatype Pair = Pair(first: Float, second: Float) {
    function Swap(): Pair { Pair(second, first) }
  }

  datatype Polyline = Polyline(name: string, pointCount: nat, lngLat: seq<Pair>, latLng: seq<Pair>)

  /** What every decoded polyline looks like: at least two points, the
      lat/lng list is the element-wise swap of the lng/lat list, and the
      count is their common length. */
  predicate ValidPolyline(p: Polyline) {
    && p.pointCount >= 2
    && |p.lngLat| == p.pointCount
    && |p.latLng| == p.pointCount
    && forall i :: 0 <= i < |p.latLng| ==> p.latLng[i] == p.lngLat[i].Swap()
  }

  datatype Marker = Marker(name: Option<string>, lat: Float, lng: Float)

  /** The whitespace-separated tokens of a coordinates text. */
  function Tokens(text: string): seq<string> {
    Words(NormalizeText(text))
  }

  /** One `lng,lat[,alt…]` token: a point when it has at least two comma
      parts and the first two parse as numbers; further parts are ignored. */
  function TokenPoint(token: string, parse: NumParser): (r: Option<Pair>)
    ensures r.Some? <==>
      var parts := Split(token, ',');
      |parts| >= 2 && parse(parts[0]).Some? && parse(parts[1]).Some?
    ensures r.Some? ==>
      var parts := Split(token, ',');
      r.value == Pair(parse(parts[0]).value, parse(parts[1]).value)
  {
    var parts := Split(token, ',');
    if |parts| < 2 then None
    else
      match (parse(parts[0]), parse(parts[1]))
      case (Some(lng), Some(lat)) => Some(Pair(lng, lat))
      case _ => None
  }

  /** A token without a comma is never a point. */
  lemma TokenPointNeedsComma(token: string, parse: NumParser)
    requires forall k :: 0 <= k < |token| ==> token[k] != ','
    ensures TokenPoint(token, parse).None?
  {
    SplitWithout(token, ',');
  }

  /** Only the first two comma parts matter: an altitude, or anything else
      after a second comma, changes nothing. */
  lemma TokenPointIgnoresExtra(a: string, b: string, rest: string, parse: NumParser)
    requires forall k :: 0 <= k < |a| ==> a[k] != ','
    requires forall k :: 0 <= k < |b| ==> b[k] != ','
    ensures TokenPoint(a + [','] + b + [','] + rest, parse) == TokenPoint(a + [','] + b, parse)
  {
    SplitWithout(a, ',');
    SplitWithout(b, ',');
    SplitAppend(a, b, ',');
    SplitAppend(a + [','] + b, rest, ',');
  }

  /** `TokenPoint` as a step of `Collect` (positions unused). */
  function PointStep(parse: NumParser): (string, nat) -> Option<Pair> {
    (token: string, _: nat) => TokenPoint(token, parse)
  }

  /** The points of the valid tokens, in order; invalid tokens are
      skipped. */
  function TokenPoints(tokens: seq<string>, parse: NumParser): (r: seq<Pair>)
    ensures |r| <= |tokens|
    ensures forall i :: 0 <= i < |r| ==> exists j :: 0 <= j < |tokens| && TokenPoint(tokens[j], parse) == Some(r[i])
  {
    var r := Collect(tokens, 0, PointStep(parse));
    CollectLength(tokens, 0, PointStep(parse));
    forall i | 0 <= i < |r|
      ensures exists j :: 0 <= j < |tokens| && TokenPoint(tokens[j], parse) == Some(r[i])
    {
      CollectFrom(tokens, 0, PointStep(parse), i);
    }
    r
  }

  /** The points of a token list are those of its first part followed by
      those of its second. */
  lemma TokenPointsAppend(a: seq<string>, b: seq<string>, parse: NumParser)
    ensures TokenPoints(a + b, parse) == TokenPoints(a, parse) + TokenPoints(b, parse)
  {
    CollectAppend(a, b, 0, PointStep(parse));
    CollectShift(b, |a|, 0, PointStep(parse));
  }

  /** One token gives its point when it is valid and nothing otherwise. */
  lemma TokenPointsSingle(t: string, parse: NumParser)
    ensures TokenPoints([t], parse) == if TokenPoint(t, parse).Some? then [TokenPoint(t, parse).value] else []
  {
    CollectSingle(t, 0, PointStep(parse));
  }

  /** The name `parse_kml_polylines` gives the `idx`-th Placemark (counting
      from 1 over all Placemarks): its normalised name text, or
      `segment_<idx>` when it has no name tag. */
  function PolylineName(pm: Placemark, idx: nat): (r: string)
    ensures pm.name.None? ==> r == "segment_" + NatToString(idx)
    ensures pm.name.Some? ==> IsNormal(r) && r == NormalizeText(pm.name.value)
  {
    match pm.name
    case Some(text) => NormalizeText(text)
    case None => "segment_" + NatToString(idx)
  }

  /** The LineString coordinates of a Placemark, if it has both tags. */
  function LineText(pm: Placemark): Option<string> {
    if pm.line.Some? then pm.line.value.coordinates else None
  }

  /** The polyline of the `idx`-th Placemark: skipped (None) when it has no
      LineString, no coordinates, or fewer than two valid points. */
  function PolylineAt(pm: Placemark, idx: nat, parse: NumParser): (r: Option<Polyline>)
    ensures LineText(pm).None? ==> r.None?
    ensures LineText(pm).Some? ==>
      var pts := TokenPoints(Tokens(LineText(pm).value), parse);
      (r.Some? <==> |pts| >= 2) && (r.Some? ==> r.value.lngLat == pts)
    ensures r.Some? ==> ValidPolyline(r.value) && r.value.name == PolylineName(pm, idx)
  {
    match LineText(pm)
    case None => None
    case Some(text) =>
      var pts := TokenPoints(Tokens(text), parse);
      if |pts| < 2 then None
      else Some(Polyline(PolylineName(pm, idx), |pts|, pts, seq(|pts|, i requires 0 <= i < |pts| => pts[i].Swap())))
  }

  /** `PolylineAt` as a step of `Collect`. */
  function PolylineStep(parse: NumParser): (Placemark, nat) -> Option<Polyline> {
    (pm: Placemark, idx: nat) => PolylineAt(pm, idx, parse)
  }

  /** `parse_kml_polylines`: `enumerate(..., start=1)` over all Placemarks,
      keeping the ones that yield a polyline. */
  function ParsePolylines(pms: seq<Placemark>, parse: NumParser): (r: seq<Polyline>)
    ensures |r| <= |pms|
    ensures forall i :: 0 <= i < |r| ==> ValidPolyline(r[i])
  {
    var r := Collect(pms, 1, PolylineStep(parse));
    CollectLength(pms, 1, PolylineStep(parse));
    forall i | 0 <= i < |r| ensures ValidPolyline(r[i]) {
      CollectFrom(pms, 1, PolylineStep(parse), i);
    }
    r
  }

  /** Document order, and `segment_<idx>` counting every Placemark: the
      Placemark at 0-based position `k` contributes exactly
      `PolylineAt(pms[k], k + 1)`, after the polylines of the Placemarks
      before it and before those of the Placemarks after it, whatever was
      skipped. */
  lemma PolylineAtPosition(pms: seq<Placemark>, k: nat, parse: NumParser)
    requires k < |pms|
    ensures var p := PolylineAt(pms[k], k + 1, parse);
      ParsePolylines(pms, parse) ==
        ParsePolylines(pms[..k], parse)
        + (if p.Some? then [p.value] else [])
        + Collect(pms[k + 1..], k + 2, PolylineStep(parse))
  {
    CollectAt(pms, 1, PolylineStep(parse), k);
  }

  /** An unnamed Placemark at 0-based position `k` that yields a polyline
      yields one named `segment_<k+1>`, even when earlier Placemarks were
      skipped. */
  lemma UnnamedSegment(pms: seq<Placemark>, k: nat, parse: NumParser)
    requires k < |pms| && pms[k].name.None?
    requires PolylineAt(pms[k], k + 1, parse).Some?
    ensures |ParsePolylines(pms[..k], parse)| < |ParsePolylines(pms, parse)|
    ensures ParsePolylines(pms, parse)[|ParsePolylines(pms[..k], parse)|].name == "segment_" + NatToString(k + 1)
  {
    PolylineAtPosition(pms, k, parse);
  }

  /** A skipped Placemark leaves no trace except in the positions of the
      ones after it. */
  lemma SkippedPlacemark(pm: Placemark, rest: seq<Placemark>, parse: NumParser)
    requires PolylineAt(pm, 1, parse).None?
    ensures ParsePolylines([pm] + rest, parse) == Collect(rest, 2, PolylineStep(parse))
  {
    CollectAppend([pm], rest, 1, PolylineStep(parse));
    CollectSingle(pm, 1, PolylineStep(parse));
  }

  /** Total points over a list of polylines (`map_point_count`). */
  function SumPoints(ps: seq<Polyline>): nat
    decreases |ps|
  {
    if |ps| == 0 then 0 else ps[0].pointCount + SumPoints(ps[1..])
  }

  lemma {:induction false} SumPointsAppend(a: seq<Polyline>, b: seq<Polyline>)
    ensures SumPoints(a + b) == SumPoints(a) + SumPoints(b)
    decreases |a|
  {
    if |a| == 0 {
      assert a + b == b;
    } else {
      assert (a + b)[1..] == a[1..] + b;
      SumPointsAppend(a[1..], b);
    }
  }

  /** Valid polylines have at least two points each. */
  lemma {:induction false} SumPointsAtLeast(ps: seq<Polyline>)
    requires forall i :: 0 <= i < |ps| ==> ValidPolyline(ps[i])
    ensures SumPoints(ps) >= 2 * |ps|
    decreases |ps|
  {
    if |ps| > 0 {
      SumPointsAtLeast(ps[1..]);
    }
  }

  // ---------------------------------------------------------------------
  // parse_map_markers_from_kml
  // ---------------------------------------------------------------------

  /** The Point coordinates of a Placemark, if it has both tags. */
  function PointText(pm: Placemark): Option<string> {
    if pm.point.Some? then pm.point.value.coordinates else None
  }

  /** The marker of one Placemark: only the FIRST token of its Point's
      coordinates is looked at; the name stays None when there is no name
      tag. */
  function MarkerAt(pm: Placemark, parse: NumParser): (r: Option<Marker>)
    ensures r.Some? <==>
      PointText(pm).Some? && |Tokens(PointText(pm).value)| > 0
      && TokenPoint(Tokens(PointText(pm).value)[0], parse).Some?
    ensures r.Some? ==>
      var p := TokenPoint(Tokens(PointText(pm).value)[0], parse).value;
      && r.value.lng == p.first && r.value.lat == p.second
      && (pm.name.None? ==> r.value.name.None?)
      && (pm.name.Some? ==> r.value.name == Some(NormalizeText(pm.name.value)))
  {
    match PointText(pm)
    case None => None
    case Some(text) =>
      var coords := Tokens(text);
      if |coords| == 0 then None
      else
        match TokenPoint(coords[0], parse)
        case None => None
        case Some(p) =>
          var name := if pm.name.Some? then Some(NormalizeText(pm.name.value)) else None;
          Some(Marker(name, p.second, p.first))
  }

  /** `MarkerAt` as a step of `Collect` (positions unused). */
  function MarkerStep(parse: NumParser): (Placemark, nat) -> Option<Marker> {
    (pm: Placemark, _: nat) => MarkerAt(pm, parse)
  }

  /** `parse_map_markers_from_kml`: one marker per Placemark that has one,
      in document order. */
  function ParseMarkers(pms: seq<Placemark>, parse: NumParser): (r: seq<Marker>)
    ensures |r| <= |pms|
    ensures forall i :: 0 <= i < |r| ==> exists j :: 0 <= j < |pms| && MarkerAt(pms[j], parse) == Some(r[i])
  {
    var r := Collect(pms, 0, MarkerStep(parse));
    CollectLength(pms, 0, MarkerStep(parse));
    forall i | 0 <= i < |r|
      ensures exists j :: 0 <= j < |pms| && MarkerAt(pms[j], parse) == Some(r[i])
    {
      CollectFrom(pms, 0, MarkerStep(parse), i);
    }
    r
  }

  /** Markers keep document order. */
  lemma MarkersAppend(a: seq<Placemark>, b: seq<Placemark>, parse: NumParser)
    ensures ParseMarkers(a + b, parse) == ParseMarkers(a, parse) + ParseMarkers(b, parse)
  {
    CollectAppend(a, b, 0, MarkerStep(parse));
    CollectShift(b, 0, |a|, MarkerStep(parse));
  }

  /** A document yields no markers exactly when none of its Placemarks has
      one. */
  lemma MarkersEmpty(pms: seq<Placemark>, parse: NumParser)
    ensures |ParseMarkers(pms, parse)| == 0 <==> forall k :: 0 <= k < |pms| ==> MarkerAt(pms[k], parse).None?
  {
    CollectEmpty(pms, 0, MarkerStep(parse));
  }
}
