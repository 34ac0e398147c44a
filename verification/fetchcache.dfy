/**
 * The per-map fetch caches: `fetch_map_geometry` and
 * `fetch_markers_for_mid`.
 *
 * Both follow one shape. A blank map id gives a fixed empty answer and
 * touches nothing; a cached id gives the stored answer; any other id is
 * downloaded once, and the answer (success or failure) is stored. The
 * network is a fixed function from URL to `Download`.
 */
module FetchCache {
  import opened Wrappers
  import opened Kml

  // ---------------------------------------------------------------------
  // The generic cache
  // ---------------------------------------------------------------------

  /** Python's `not map_mid`: no id, or the empty string. */
  predicate Blank(mid: Option<string>) {
    mid.None? || mid.value == ""
  }

  /** One cache lookup: the answer, the cache afterwards, and the ids
      downloaded on the way (none or one). */
  datatype Lookup<R> = Lookup(result: R, cache: map<string, R>, fetched: seq<string>)

  /** A cache whose every entry is what `load` gives for its key. */
  ghost predicate Consistent<R>(cache: map<string, R>, load: string -> R) {
    forall m :: m in cache ==> cache[m] == load(m)
  }

  /** The answer without any cache. */
  function Uncached<R>(mid: Option<string>, empty: R, load: string -> R): R {
    if Blank(mid) then empty else load(mid.value)
  }

  /** One call of the cached fetch. */
  function Resolve<R>(cache: map<string, R>, mid: Option<string>, empty: R, load: string -> R): (l: Lookup<R>)
    ensures Blank(mid) ==> l == Lookup(empty, cache, [])
    ensures |l.fetched| <= 1
    ensures |l.fetched| == 1 <==> !Blank(mid) && mid.value !in cache
    ensures l.fetched == [] ==> l.cache == cache
    ensures l.cache.Keys == cache.Keys + set m | m in l.fetched
    ensures forall m :: m in cache ==> m in l.cache && l.cache[m] == cache[m]
    ensures Consistent(cache, load) ==> Consistent(l.cache, load) && l.result == Uncached(mid, empty, load)
  {
    if Blank(mid) then Lookup(empty, cache, [])
    else if mid.value in cache then Lookup(cache[mid.value], cache, [])
    else
      var r := load(mid.value);
      Lookup(r, cache[mid.value := r], [mid.value])
  }

  /** Once an id has been resolved, resolving it again answers the same
      and downloads nothing. */
  lemma ResolveTwice<R>(cache: map<string, R>, mid: Option<string>, empty: R, load: string -> R)
    ensures var first := Resolve(cache, mid, empty, load);
      var second := Resolve(first.cache, mid, empty, load);
      second.result == first.result && second.fetched == [] && second.cache == first.cache
  {
  }

  /** A sequence of calls sharing one cache. */
  datatype Run<R> = Run(results: seq<R>, cache: map<string, R>, fetched: seq<string>)

  function RunAll<R>(cache: map<string, R>, mids: seq<Option<string>>, empty: R, load: string -> R): (r: Run<R>)
    ensures |r.results| == |mids|
    decreases |mids|
  {
    if |mids| == 0 then Run([], cache, [])
    else
      var l := Resolve(cache, mids[0], empty, load);
      var rest := RunAll(l.cache, mids[1..], empty, load);
      Run([l.result] + rest.results, rest.cache, l.fetched + rest.fetched)
  }

  /** The ids of `mids` that are not blank. */
  function Named(mids: seq<Option<string>>): set<string> {
    set i | 0 <= i < |mids| && !Blank(mids[i]) :: mids[i].value
  }

  lemma NamedCons(mids: seq<Option<string>>)
    requires |mids| > 0
    ensures Named(mids) == (if Blank(mids[0]) then {} else {mids[0].value}) + Named(mids[1..])
  {
    var tail := mids[1..];
    forall m | m in Named(mids)
      ensures m in (if Blank(mids[0]) then {} else {mids[0].value}) + Named(tail)
    {
      var i :| 0 <= i < |mids| && !Blank(mids[i]) && mids[i].value == m;
      if i > 0 {
        assert mids[i] == tail[i - 1];
      }
    }
    forall m | m in Named(tail) ensures m in Named(mids) {
      var i :| 0 <= i < |tail| && !Blank(tail[i]) && tail[i].value == m;
      assert tail[i] == mids[i + 1];
    }
  }

  /** At most one download per id: the ids downloaded over a run are
      pairwise distinct, none was cached beforehand, and they are exactly
      the non-blank ids that were not cached. The final cache holds the
      old entries unchanged plus one entry per download. */
  lemma RunFetchesOnce<R>(cache: map<string, R>, mids: seq<Option<string>>, empty: R, load: string -> R)
    ensures var r := RunAll(cache, mids, empty, load);
      && Distinct(r.fetched)
      && (forall i :: 0 <= i < |r.fetched| ==> r.fetched[i] !in cache)
      && (set m | m in r.fetched) == Named(mids) - cache.Keys
      && r.cache.Keys == cache.Keys + Named(mids)
      && (forall m :: m in cache ==> r.cache[m] == cache[m])
  {
    RunFetchedNew(cache, mids, empty, load);
    RunFetchedDistinct(cache, mids, empty, load);
    RunFetchedSet(cache, mids, empty, load);
  }

  /** Nothing downloaded was in the cache, and cached entries survive. */
  lemma {:induction false} RunFetchedNew<R>(cache: map<string, R>, mids: seq<Option<string>>, empty: R, load: string -> R)
    ensures var r := RunAll(cache, mids, empty, load);
      && (forall i :: 0 <= i < |r.fetched| ==> r.fetched[i] !in cache)
      && (forall m :: m in cache ==> m in r.cache && r.cache[m] == cache[m])
    decreases |mids|
  {
    if |mids| > 0 {
      var l := Resolve(cache, mids[0], empty, load);
      var rest := RunAll(l.cache, mids[1..], empty, load);
      RunFetchedNew(l.cache, mids[1..], empty, load);
      var r := RunAll(cache, mids, empty, load);
      assert r.fetched == l.fetched + rest.fetched;
      forall i | 0 <= i < |r.fetched| ensures r.fetched[i] !in cache {
        if i >= |l.fetched| {
          assert r.fetched[i] == rest.fetched[i - |l.fetched|];
        }
      }
    }
  }

  predicate Distinct(s: seq<string>) {
    forall i, j :: 0 <= i < j < |s| ==> s[i] != s[j]
  }

  lemma {:induction false} RunFetchedDistinct<R>(cache: map<string, R>, mids: seq<Option<string>>, empty: R, load: string -> R)
    ensures Distinct(RunAll(cache, mids, empty, load).fetched)
    decreases |mids|
  {
    if |mids| > 0 {
      var l := Resolve(cache, mids[0], empty, load);
      var rest := RunAll(l.cache, mids[1..], empty, load);
      RunFetchedDistinct(l.cache, mids[1..], empty, load);
      RunFetchedNew(l.cache, mids[1..], empty, load);
      var r := RunAll(cache, mids, empty, load);
      assert r.fetched == l.fetched + rest.fetched;
      assert Distinct(rest.fetched);
      forall i, j | 0 <= i < j < |r.fetched| ensures r.fetched[i] != r.fetched[j] {
        assert r.fetched[j] == rest.fetched[j - |l.fetched|];
        if i >= |l.fetched| {
          assert r.fetched[i] == rest.fetched[i - |l.fetched|];
          assert rest.fetched[i - |l.fetched|] != rest.fetched[j - |l.fetched|];
        } else {
          assert r.fetched[i] == l.fetched[i] && l.fetched[i] in l.cache;
          assert rest.fetched[j - |l.fetched|] !in l.cache;
        }
      }
    }
  }

  lemma ElemsAppend<T>(a: seq<T>, b: seq<T>)
    ensures (set x | x in a + b) == (set x | x in a) + (set x | x in b)
  {
  }

  /** The ids one call downloads: its own id, when named and not cached. */
  lemma ResolveFetched<R>(cache: map<string, R>, mid: Option<string>, empty: R, load: string -> R)
    ensures var l := Resolve(cache, mid, empty, load);
      (set m | m in l.fetched) == (if Blank(mid) then {} else {mid.value}) - cache.Keys
  {
  }

  lemma {:induction false} RunFetchedSet<R>(cache: map<string, R>, mids: seq<Option<string>>, empty: R, load: string -> R)
    ensures var r := RunAll(cache, mids, empty, load);
      && (set m | m in r.fetched) == Named(mids) - cache.Keys
      && r.cache.Keys == cache.Keys + Named(mids)
    decreases |mids|
  {
    if |mids| == 0 {
      assert Named(mids) == {};
    } else {
      var l := Resolve(cache, mids[0], empty, load);
      var rest := RunAll(l.cache, mids[1..], empty, load);
      RunFetchedSet(l.cache, mids[1..], empty, load);
      NamedCons(mids);
      ResolveFetched(cache, mids[0], empty, load);
      ElemsAppend(l.fetched, rest.fetched);
      var r := RunAll(cache, mids, empty, load);
      assert r.fetched == l.fetched + rest.fetched && r.cache == rest.cache;
    }
  }

  /** The cache is transparent: started from a consistent cache, every
      answer of a run is the uncached answer, and the cache stays
      consistent. */
  lemma {:induction false} RunTransparent<R>(cache: map<string, R>, mids: seq<Option<string>>, empty: R, load: string -> R)
    requires Consistent(cache, load)
    ensures var r := RunAll(cache, mids, empty, load);
      && Consistent(r.cache, load)
      && forall i :: 0 <= i < |mids| ==> r.results[i] == Uncached(mids[i], empty, load)
    decreases |mids|
  {
    if |mids| > 0 {
      var l := Resolve(cache, mids[0], empty, load);
      RunTransparent(l.cache, mids[1..], empty, load);
      var r := RunAll(cache, mids, empty, load);
      var rest := RunAll(l.cache, mids[1..], empty, load);
      forall i | 0 <= i < |mids| ensures r.results[i] == Uncached(mids[i], empty, load) {
        if i > 0 {
          assert r.results[i] == rest.results[i - 1];
          assert mids[i] == mids[1..][i - 1];
        }
      }
    }
  }

  /** The same id twice in a row: one download at most, and both calls
      answer the same. */
  lemma RepeatedCall<R>(cache: map<string, R>, mid: string, empty: R, load: string -> R)
    requires mid != ""
    ensures var r := RunAll(cache, [Some(mid), Some(mid)], empty, load);
      && r.results[0] == r.results[1]
      && r.fetched == (if mid in cache then [] else [mid])
  {
    var l := Resolve(cache, Some(mid), empty, load);
    ResolveTwice(cache, Some(mid), empty, load);
    assert [Some(mid), Some(mid)][1..] == [Some(mid)];
    assert RunAll(l.cache, [Some(mid)][1..], empty, load) == Run([], l.cache, []);
  }

  /** The cache as a mutable object with a ghost record of every download,
      the way the scrapers hold it across a loop. */
  class Cache<R> {
    var entries: map<string, R>
    ghost var log: seq<string>
    ghost const seeded: set<string>

    /** Every map id is downloaded at most once, and the cache holds exactly
        the entries it started with and the downloads. */
    ghost predicate Valid()
      reads this
    {
      && Distinct(log)
      && (forall m :: m in log ==> m !in seeded)
      && entries.Keys == seeded + set m | m in log
    }

    constructor(initial: map<string, R>)
      ensures entries == initial && log == [] && seeded == initial.Keys
      ensures Valid()
    {
      entries := initial;
      log := [];
      seeded := initial.Keys;
    }

    method Get(mid: Option<string>, empty: R, load: string -> R) returns (r: R)
      requires Valid()
      modifies this
      ensures Valid()
      ensures var l := Resolve(old(entries), mid, empty, load);
        r == l.result && entries == l.cache && log == old(log) + l.fetched
    {
      if mid.None? || mid.value == "" {
        r := empty;
      } else if mid.value in entries {
        r := entries[mid.value];
      } else {
        r := load(mid.value);
        entries := entries[mid.value := r];
        log := log + [mid.value];
      }
    }
  }

  // ---------------------------------------------------------------------
  // The KML endpoint
  // ---------------------------------------------------------------------

  const KmlUrlHead: string := "https://www.google.com/maps/d/kml?mid="
  const KmlUrlTail: string := "&forcekml=1"

  /** The KML export URL of a map. */
  function KmlUrl(mid: string): (u: string)
    ensures |u| == |KmlUrlHead| + |mid| + |KmlUrlTail|
  {
    KmlUrlHead + mid + KmlUrlTail
  }

  /** Distinct map ids are fetched from distinct URLs. */
  lemma KmlUrlInjective(a: string, b: string)
    requires KmlUrl(a) == KmlUrl(b)
    ensures a == b
  {
    var n := |KmlUrlHead|;
    assert a == KmlUrl(a)[n..n + |a|];
    assert b == KmlUrl(b)[n..n + |b|];
  }

  /** What the network gives for a URL: the Placemarks of the KML body, or
      the text of the exception raised by the request. */
  datatype Download = Body(placemarks: seq<Placemark>) | Failed(message: string)

  // ---------------------------------------------------------------------
  // fetch_map_geometry
  // ---------------------------------------------------------------------

  datatype Geometry = Geometry(
    mid: Option<string>,
    kmlUrl: Option<string>,
    polylines: seq<Polyline>,
    polylineCount: nat,
    pointCount: nat,
    error: Option<string>)

  /** The answer for a blank id. */
  const EmptyGeometry: Geometry := Geometry(None, None, [], 0, 0, None)

  /** The invariant of every geometry answer: on success the counts agree
      with the polylines; on failure there are no polylines and both
      counts are 0. */
  predicate WellFormedGeometry(g: Geometry) {
    && g.polylineCount == |g.polylines|
    && g.pointCount == SumPoints(g.polylines)
    && (g.error.Some? ==> g.polylines == [])
    && (forall i :: 0 <= i < |g.polylines| ==> ValidPolyline(g.polylines[i]))
  }

  /** Download and decode one map. */
  function LoadGeometry(mid: string, parse: NumParser, net: string -> Download): (g: Geometry)
    ensures WellFormedGeometry(g)
    ensures g.mid == Some(mid) && g.kmlUrl == Some(KmlUrl(mid))
    ensures net(KmlUrl(mid)).Body? ==> g.error.None? && g.polylines == ParsePolylines(net(KmlUrl(mid)).placemarks, parse)
    ensures net(KmlUrl(mid)).Failed? ==> g.error == Some(net(KmlUrl(mid)).message) && g.pointCount == 0
  {
    var url := KmlUrl(mid);
    match net(url)
    case Body(pms) =>
      var ps := ParsePolylines(pms, parse);
      Geometry(Some(mid), Some(url), ps, |ps|, SumPoints(ps), None)
    case Failed(msg) =>
      Geometry(Some(mid), Some(url), [], 0, 0, Some(msg))
  }

  function GeometryLoader(parse: NumParser, net: string -> Download): string -> Geometry {
    (mid: string) => LoadGeometry(mid, parse, net)
  }

  /** `fetch_map_geometry(map_mid, session, cache)`. */
  function FetchMapGeometry(cache: map<string, Geometry>, mid: Option<string>, parse: NumParser, net: string -> Download): (l: Lookup<Geometry>)
    ensures Blank(mid) ==> l.result == EmptyGeometry && l.cache == cache && l.fetched == []
    ensures !Blank(mid) && mid.value in cache ==> l.result == cache[mid.value] && l.fetched == []
    ensures Consistent(cache, GeometryLoader(parse, net)) ==> WellFormedGeometry(l.result)
  {
    Resolve(cache, mid, EmptyGeometry, GeometryLoader(parse, net))
  }

  // ---------------------------------------------------------------------
  // fetch_markers_for_mid
  // ---------------------------------------------------------------------

  /** The `(kml_url, markers, error)` triple. */
  datatype MarkerFetch = MarkerFetch(kmlUrl: Option<string>, markers: seq<Marker>, error: Option<string>)

  const EmptyMarkers: MarkerFetch := MarkerFetch(None, [], None)

  function LoadMarkers(mid: string, parse: NumParser, net: string -> Download): (m: MarkerFetch)
    ensures m.kmlUrl == Some(KmlUrl(mid))
    ensures m.error.Some? ==> m.markers == []
    ensures net(KmlUrl(mid)).Body? <==> m.error.None?
    ensures net(KmlUrl(mid)).Body? ==> m.markers == ParseMarkers(net(KmlUrl(mid)).placemarks, parse)
  {
    var url := KmlUrl(mid);
    match net(url)
    case Body(pms) => MarkerFetch(Some(url), ParseMarkers(pms, parse), None)
    case Failed(msg) => MarkerFetch(Some(url), [], Some(msg))
  }

  function MarkerLoader(parse: NumParser, net: string -> Download): string -> MarkerFetch {
    (mid: string) => LoadMarkers(mid, parse, net)
  }

  /** `fetch_markers_for_mid(map_mid, session, cache)`. */
  function FetchMarkersForMid(cache: map<string, MarkerFetch>, mid: Option<string>, parse: NumParser, net: string -> Download): (l: Lookup<MarkerFetch>)
    ensures Blank(mid) ==> l.result == EmptyMarkers && l.cache == cache && l.fetched == []
    ensures !Blank(mid) && mid.value in cache ==> l.result == cache[mid.value] && l.fetched == []
    ensures Consistent(cache, MarkerLoader(parse, net)) ==> (l.result.error.Some? ==> l.result.markers == [])
  {
    Resolve(cache, mid, EmptyMarkers, MarkerLoader(parse, net))
  }
}
