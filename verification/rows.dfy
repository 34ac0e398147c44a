/**
 * The rows the dump writers emit, before they become SQL text.
 *
 * A row belongs to a table, carries its primary key `id`, for a child
 * table the id of its parent row (`fk`) and its position among its
 * siblings (`order`), and the remaining column values in column order.
 * Rows are emitted into a `State` that also holds the writers' id
 * counters. The invariant `Good` says, of every row emitted so far, that
 * its id is one more than the number of rows of its table before it, and
 * that its foreign key is the id of the most recent row of the parent
 * table. From `Good` follow the two promises of the writers: each table's
 * ids are exactly 1..n in emission order, and every foreign key names a
 * row emitted earlier.
 */
module Rows {
  import opened Wrappers
  import opened SqlText

  /** Every table of both dumps. */
  datatype Table =
    // generate_sql_dump.py
    | RouteIndexMeta | CompilationRows | Routes | RouteStops
    | RoutePolylines | RoutePoints
    | GuidesMeta | Guides | Paragraphs | Headings | Embeds
    | GuidePolylines | GuidePoints | GuideErrors | OutputArtifacts
    // build_prd_dataset.py
    | PrdMeta | PrdRoutes | PrdRouteStops

  /** The table a child table's foreign key refers to. */
  function Parent(t: Table): Option<Table> {
    match t
    case RouteStops => Some(Routes)
    case RoutePolylines => Some(Routes)
    case RoutePoints => Some(RoutePolylines)
    case Paragraphs => Some(Guides)
    case Headings => Some(Guides)
    case Embeds => Some(Guides)
    case GuidePolylines => Some(Embeds)
    case GuidePoints => Some(GuidePolylines)
    case PrdRouteStops => Some(PrdRoutes)
    case _ => None
  }

  /** The table's name in SQL. */
  function TableName(t: Table): string {
    match t
    case RouteIndexMeta => "route_index_meta"
    case CompilationRows => "route_compilation_rows"
    case Routes => "routes"
    case RouteStops => "route_stops"
    case RoutePolylines => "route_map_polylines"
    case RoutePoints => "route_map_points"
    case GuidesMeta => "full_guides_meta"
    case Guides => "full_guides"
    case Paragraphs => "full_guide_paragraphs"
    case Headings => "full_guide_headings"
    case Embeds => "full_guide_map_embeds"
    case GuidePolylines => "full_guide_map_polylines"
    case GuidePoints => "full_guide_map_points"
    case GuideErrors => "full_guide_errors"
    case OutputArtifacts => "output_artifacts"
    case PrdMeta => "prd_meta"
    case PrdRoutes => "prd_routes"
    case PrdRouteStops => "prd_route_stops"
  }

  /** The columns each INSERT names, in order. */
  function Columns(t: Table): seq<string> {
    match t
    case RouteIndexMeta =>
      ["id", "source_url", "scraped_at_utc", "route_count", "routes_with_geometry",
       "total_polyline_segments", "total_polyline_points"]
    case CompilationRows =>
      ["id", "route_number", "route_title", "route_link", "full_guide_url", "is_outside_iloilo_city"]
    case Routes =>
      ["route_id", "route_number", "route_title", "section_id", "source_url", "stop_description",
       "full_guide_url", "map_embed_url", "map_mid", "map_kml_url", "map_polyline_count",
       "map_point_count", "map_scrape_error", "faq_url"]
    case RouteStops => ["id", "route_id", "stop_order", "stop_name"]
    case RoutePolylines => ["id", "route_id", "segment_index", "segment_name", "point_count"]
    case RoutePoints => ["id", "polyline_id", "point_order", "lat", "lng"]
    case GuidesMeta =>
      ["id", "source", "scraped_at_utc", "guide_count", "guides_with_geometry",
       "total_polyline_segments", "total_polyline_points", "error_count"]
    case Guides =>
      ["guide_id", "route_number", "route_title", "full_guide_url", "canonical_url", "article_title",
       "date_published", "date_modified", "first_paragraph", "guide_polyline_count",
       "guide_point_count", "scraped_at_utc"]
    case Paragraphs => ["id", "guide_id", "paragraph_order", "paragraph_text"]
    case Headings => ["id", "guide_id", "heading_order", "heading_text"]
    case Embeds =>
      ["id", "guide_id", "embed_order", "map_embed_url", "map_mid", "map_kml_url",
       "map_polyline_count", "map_point_count", "map_scrape_error"]
    case GuidePolylines => ["id", "embed_id", "segment_index", "segment_name", "point_count"]
    case GuidePoints => ["id", "polyline_id", "point_order", "lat", "lng"]
    case GuideErrors => ["id", "route_number", "route_title", "full_guide_url", "error_text"]
    case OutputArtifacts => ["filename", "content_type", "content_text"]
    case PrdMeta => ["id", "generated_at_utc", "route_count", "routes_with_stop_coordinates", "routes_with_fare"]
    case PrdRoutes =>
      ["route_id", "route_number", "route_code", "route_name", "fare_min_php", "fare_max_php",
       "fare_text", "stop_count"]
    case PrdRouteStops => ["stop_id", "route_id", "stop_order", "stop_name", "lat", "lng"]
  }

  datatype Row = Row(table: Table, id: nat, fk: Option<nat>, order: Option<nat>, data: seq<Value>)

  /** The values in column order: the key, then the foreign key and the
      sibling position when there are any, then the rest. */
  function RowValues(r: Row): (vs: seq<Value>)
    ensures |vs| == 1 + (if r.fk.Some? then 1 else 0) + (if r.order.Some? then 1 else 0) + |r.data|
    ensures vs[0] == Int(r.id)
  {
    [Int(r.id)]
    + (if r.fk.Some? then [Int(r.fk.value)] else [])
    + (if r.order.Some? then [Int(r.order.value)] else [])
    + r.data
  }

  /** The number of columns of each table. */
  function Arity(t: Table): nat {
    match t
    case RouteIndexMeta => 7
    case CompilationRows => 6
    case Routes => 14
    case RouteStops => 4
    case RoutePolylines => 5
    case RoutePoints => 5
    case GuidesMeta => 8
    case Guides => 12
    case Paragraphs => 4
    case Headings => 4
    case Embeds => 9
    case GuidePolylines => 5
    case GuidePoints => 5
    case GuideErrors => 5
    case OutputArtifacts => 3
    case PrdMeta => 5
    case PrdRoutes => 8
    case PrdRouteStops => 6
  }

  lemma ColumnsArity(t: Table)
    ensures |Columns(t)| == Arity(t)
  {
  }

  /** The row has one value per column of its table. */
  predicate Fits(r: Row) {
    |RowValues(r)| == Arity(r.table)
  }

  /** Rows of table `t` in `rows`. */
  function Count(rows: seq<Row>, t: Table): (n: nat)
    ensures n <= |rows|
    decreases |rows|
  {
    if |rows| == 0 then 0
    else Count(rows[..|rows| - 1], t) + (if rows[|rows| - 1].table == t then 1 else 0)
  }

  /** The ids of the rows of table `t`, in emission order. */
  function IdsOf(rows: seq<Row>, t: Table): (ids: seq<nat>)
    ensures |ids| == Count(rows, t)
    decreases |rows|
  {
    if |rows| == 0 then []
    else IdsOf(rows[..|rows| - 1], t) + (if rows[|rows| - 1].table == t then [rows[|rows| - 1].id] else [])
  }

  /** `[1, 2, …, n]`. */
  function Iota(n: nat): (r: seq<nat>)
    ensures |r| == n
    ensures forall i :: 0 <= i < n ==> r[i] == i + 1
  {
    if n == 0 then [] else Iota(n - 1) + [n]
  }

  /** Row `r`, emitted after `before`, fits its table, has the next id of
      its table and, for a child table, the id of the latest parent row. */
  ghost predicate RowOk(before: seq<Row>, r: Row) {
    && Fits(r)
    && r.id == Count(before, r.table) + 1
    && match Parent(r.table)
       case None => r.fk.None?
       case Some(p) => r.fk == Some(Count(before, p)) && Count(before, p) >= 1
  }

  /** Every row is ok with respect to the rows before it. */
  ghost predicate AllRowsOk(rows: seq<Row>)
    decreases |rows|
  {
    |rows| == 0 || (AllRowsOk(rows[..|rows| - 1]) && RowOk(rows[..|rows| - 1], rows[|rows| - 1]))
  }

  /** The same invariant, row by row. */
  lemma {:induction false} AllRowsOkAt(rows: seq<Row>, k: nat)
    requires AllRowsOk(rows) && k < |rows|
    ensures AllRowsOk(rows[..k]) && RowOk(rows[..k], rows[k])
    decreases |rows|
  {
    var init := rows[..|rows| - 1];
    if k < |rows| - 1 {
      AllRowsOkAt(init, k);
      assert init[..k] == rows[..k];
    }
  }

  // ---------------------------------------------------------------------
  // Emission
  // ---------------------------------------------------------------------

  /** The tables whose ids come from a counter the writer keeps, rather
      than from `enumerate`. */
  predicate Counted(t: Table) {
    Parent(t).Some?
  }

  /** Rows so far, and the counters the writer has advanced; a table
      without an entry still has its initial counter, 1. */
  datatype State = State(rows: seq<Row>, next: map<Table, nat>)

  /** The next id the counter of `t` hands out. */
  function Next(st: State, t: Table): nat {
    if t in st.next then st.next[t] else 1
  }

  /** Every row is good, and every counter is one past the rows of its
      table. */
  ghost predicate Good(st: State) {
    AllRowsOk(st.rows) && CountersOk(st)
  }

  ghost predicate CountersOk(st: State) {
    forall t {:trigger Next(st, t)} :: Counted(t) ==> Next(st, t) == Count(st.rows, t) + 1
  }

  /** No rows, and every counter at 1. */
  function Start(): (st: State)
    ensures Good(st) && st.rows == []
  {
    State([], map[])
  }

  /** Appends one row with the given id (a row numbered by `enumerate`). */
  function Emit(st: State, t: Table, id: nat, fk: Option<nat>, order: Option<nat>, data: seq<Value>): (r: State)
    ensures r.rows == st.rows + [Row(t, id, fk, order, data)] && r.next == st.next
  {
    State(st.rows + [Row(t, id, fk, order, data)], st.next)
  }

  /** Appends one row numbered by the table's counter and advances the
      counter: `insert(..., counter, ...); counter += 1`. */
  function EmitCounted(st: State, t: Table, fk: Option<nat>, order: Option<nat>, data: seq<Value>): (r: State)
    ensures Next(r, t) == Next(st, t) + 1
    ensures forall u :: u != t ==> Next(r, u) == Next(st, u)
    ensures r.rows == st.rows + [Row(t, Next(st, t), fk, order, data)]
  {
    State(st.rows + [Row(t, Next(st, t), fk, order, data)], st.next[t := Next(st, t) + 1])
  }

  /** `b` is `a` followed by rows of the tables in `S` only. */
  ghost predicate Extends(a: seq<Row>, b: seq<Row>, S: set<Table>) {
    && |a| <= |b|
    && b[..|a|] == a
    && forall k :: |a| <= k < |b| ==> b[k].table in S
  }

  lemma ExtendsTrans(a: seq<Row>, b: seq<Row>, c: seq<Row>, S: set<Table>, T: set<Table>)
    requires Extends(a, b, S) && Extends(b, c, T)
    ensures Extends(a, c, S + T)
  {
    assert c[..|a|] == c[..|b|][..|a|];
  }

  lemma ExtendsInto(a: seq<Row>, b: seq<Row>, c: seq<Row>, S: set<Table>, T: set<Table>, U: set<Table>)
    requires Extends(a, b, S) && Extends(b, c, T) && S <= U && T <= U
    ensures Extends(a, c, U)
  {
    ExtendsTrans(a, b, c, S, T);
  }

  lemma ExtendsRefl(a: seq<Row>, S: set<Table>)
    ensures Extends(a, a, S)
  {
    assert a[..|a|] == a;
  }

  lemma AppendExtends(rows: seq<Row>, r: Row)
    ensures Extends(rows, rows + [r], {r.table})
  {
    assert (rows + [r])[..|rows|] == rows;
  }

  /** Tables outside `S` keep their counts. */
  lemma {:induction false} ExtendsCount(a: seq<Row>, b: seq<Row>, S: set<Table>, u: Table)
    requires Extends(a, b, S) && u !in S
    ensures Count(b, u) == Count(a, u)
    decreases |b|
  {
    if |b| > |a| {
      var init := b[..|b| - 1];
      assert init[..|a|] == a;
      ExtendsCount(a, init, S, u);
    } else {
      assert b == a;
    }
  }

  /** The rows of table `t`, in emission order. */
  function TableRows(rows: seq<Row>, t: Table): (r: seq<Row>)
    ensures |r| == Count(rows, t)
    decreases |rows|
  {
    if |rows| == 0 then []
    else TableRows(rows[..|rows| - 1], t) + (if rows[|rows| - 1].table == t then [rows[|rows| - 1]] else [])
  }

  /** Tables outside `S` keep their rows. */
  lemma {:induction false} ExtendsTableRows(a: seq<Row>, b: seq<Row>, S: set<Table>, u: Table)
    requires Extends(a, b, S) && u !in S
    ensures TableRows(b, u) == TableRows(a, u)
    decreases |b|
  {
    if |b| > |a| {
      var init := b[..|b| - 1];
      assert init[..|a|] == a;
      ExtendsTableRows(a, init, S, u);
    } else {
      assert b == a;
    }
  }

  lemma TableRowsAppend(rows: seq<Row>, r: Row, t: Table)
    ensures TableRows(rows + [r], t) == TableRows(rows, t) + (if r.table == t then [r] else [])
  {
    assert (rows + [r])[..|rows|] == rows;
  }

  /** What appending a row does to the counts. */
  lemma CountAppend(rows: seq<Row>, r: Row, t: Table)
    ensures Count(rows + [r], t) == Count(rows, t) + (if r.table == t then 1 else 0)
  {
    assert (rows + [r])[..|rows|] == rows;
  }

  /** Appending a row that fits its table, is next in its table and
      points at the latest parent row keeps every row good. */
  lemma AppendOk(rows: seq<Row>, r: Row)
    requires AllRowsOk(rows) && RowOk(rows, r)
    ensures AllRowsOk(rows + [r])
  {
    assert (rows + [r])[..|rows|] == rows;
  }

  /** The foreign key an emission into `t` must carry: the id of the
      latest row of the parent table. */
  ghost predicate FkFits(st: State, t: Table, fk: Option<nat>) {
    match Parent(t)
    case None => fk.None?
    case Some(p) => fk == Some(Count(st.rows, p)) && Count(st.rows, p) >= 1
  }

  lemma EmitGood(st: State, t: Table, id: nat, fk: Option<nat>, order: Option<nat>, data: seq<Value>)
    requires Good(st) && !Counted(t) && Fits(Row(t, id, fk, order, data))
    requires id == Count(st.rows, t) + 1 && FkFits(st, t, fk)
    ensures Good(Emit(st, t, id, fk, order, data))
    ensures Extends(st.rows, Emit(st, t, id, fk, order, data).rows, {t})
  {
    var r := Row(t, id, fk, order, data);
    assert RowOk(st.rows, r);
    AppendOk(st.rows, r);
    EmitKeepsCounters(st, r);
    AppendExtends(st.rows, r);
  }

  /** An uncounted row leaves every counter one past its table's rows. */
  lemma EmitKeepsCounters(st: State, r: Row)
    requires CountersOk(st) && !Counted(r.table)
    ensures CountersOk(State(st.rows + [r], st.next))
  {
    var st1 := State(st.rows + [r], st.next);
    forall u | Counted(u) ensures Next(st1, u) == Count(st1.rows, u) + 1 {
      CountAppend(st.rows, r, u);
      assert Next(st1, u) == Next(st, u);
    }
  }

  lemma EmitCountedGood(st: State, t: Table, fk: Option<nat>, order: Option<nat>, data: seq<Value>)
    requires Good(st) && Counted(t) && FkFits(st, t, fk) && Fits(Row(t, Next(st, t), fk, order, data))
    ensures var r := EmitCounted(st, t, fk, order, data);
      Good(r) && Extends(st.rows, r.rows, {t}) && Count(r.rows, t) == Count(st.rows, t) + 1
  {
    var r := Row(t, Next(st, t), fk, order, data);
    AppendOk(st.rows, r);
    forall u ensures Count(st.rows + [r], u) == Count(st.rows, u) + (if u == t then 1 else 0) {
      CountAppend(st.rows, r, u);
    }
    assert (st.rows + [r])[..|st.rows|] == st.rows;
  }

  /** A block of sibling rows with the same parent, each numbered by the
      table's counter: `for order, x in enumerate(items, start=1)`, or a
      pre-filtered list carrying its own orders. */
  function EmitBlock(st: State, t: Table, fk: Option<nat>, items: seq<(Option<nat>, seq<Value>)>): (r: State)
    decreases |items|
  {
    if |items| == 0 then st
    else EmitBlock(EmitCounted(st, t, fk, items[0].0, items[0].1), t, fk, items[1..])
  }

  /** A block adds rows of its own table only. */
  lemma {:induction false} EmitBlockExtends(st: State, t: Table, fk: Option<nat>, items: seq<(Option<nat>, seq<Value>)>)
    ensures Extends(st.rows, EmitBlock(st, t, fk, items).rows, {t})
    decreases |items|
  {
    if |items| > 0 {
      var st1 := EmitCounted(st, t, fk, items[0].0, items[0].1);
      AppendExtends(st.rows, Row(t, Next(st, t), fk, items[0].0, items[0].1));
      EmitBlockExtends(st1, t, fk, items[1..]);
      ExtendsTrans(st.rows, st1.rows, EmitBlock(st1, t, fk, items[1..]).rows, {t}, {t});
    } else {
      ExtendsRefl(st.rows, {t});
    }
  }

  /** Every item of a block makes a row that fits its table. */
  ghost predicate ItemsFit(t: Table, fk: Option<nat>, items: seq<(Option<nat>, seq<Value>)>) {
    forall i, id: nat :: 0 <= i < |items| ==> Fits(Row(t, id, fk, items[i].0, items[i].1))
  }

  lemma {:induction false} EmitBlockGood(st: State, t: Table, fk: Option<nat>, items: seq<(Option<nat>, seq<Value>)>)
    requires Good(st) && Counted(t) && FkFits(st, t, fk) && ItemsFit(t, fk, items)
    ensures var r := EmitBlock(st, t, fk, items);
      Good(r) && Extends(st.rows, r.rows, {t}) && Count(r.rows, t) == Count(st.rows, t) + |items|
    decreases |items|
  {
    if |items| > 0 {
      var st1 := EmitCounted(st, t, fk, items[0].0, items[0].1);
      assert Fits(Row(t, Next(st, t), fk, items[0].0, items[0].1));
      EmitCountedGood(st, t, fk, items[0].0, items[0].1);
      assert FkFits(st1, t, fk) by {
        ExtendsCount(st.rows, st1.rows, {t}, Parent(t).value);
      }
      assert ItemsFit(t, fk, items[1..]) by {
        forall i, id: nat | 0 <= i < |items[1..]| ensures Fits(Row(t, id, fk, items[1..][i].0, items[1..][i].1)) {
          assert items[1..][i] == items[i + 1];
        }
      }
      EmitBlockGood(st1, t, fk, items[1..]);
      ExtendsTrans(st.rows, st1.rows, EmitBlock(st, t, fk, items).rows, {t}, {t});
    } else {
      assert st.rows[..|st.rows|] == st.rows;
    }
  }

  // ---------------------------------------------------------------------
  // What Good promises
  // ---------------------------------------------------------------------

  /** Each table's ids are exactly 1, 2, …, n in emission order. */
  lemma {:induction false} IdsAreIota(rows: seq<Row>, t: Table)
    requires AllRowsOk(rows)
    ensures IdsOf(rows, t) == Iota(Count(rows, t))
    decreases |rows|
  {
    if |rows| > 0 {
      IdsAreIota(rows[..|rows| - 1], t);
    }
  }

  /** A positive count has a last row of that table, whose id is the
      count. */
  lemma {:induction false} LatestRow(rows: seq<Row>, p: Table)
    requires AllRowsOk(rows) && Count(rows, p) >= 1
    ensures exists j :: 0 <= j < |rows| && rows[j].table == p && rows[j].id == Count(rows, p)
    decreases |rows|
  {
    var last := |rows| - 1;
    var init := rows[..last];
    if rows[last].table != p {
      LatestRow(init, p);
      var j :| 0 <= j < |init| && init[j].table == p && init[j].id == Count(init, p);
      assert rows[j] == init[j];
    }
  }

  /** Every foreign key names a row of the parent table emitted before
      the child. */
  lemma FksResolve(rows: seq<Row>, k: nat)
    requires AllRowsOk(rows) && k < |rows| && Parent(rows[k].table).Some?
    ensures rows[k].fk.Some?
    ensures exists j :: 0 <= j < k && rows[j].table == Parent(rows[k].table).value && rows[j].id == rows[k].fk.value
  {
    var p := Parent(rows[k].table).value;
    var pre := rows[..k];
    AllRowsOkAt(rows, k);
    LatestRow(pre, p);
    var j :| 0 <= j < |pre| && pre[j].table == p && pre[j].id == Count(pre, p);
    assert rows[j] == pre[j];
  }
}
