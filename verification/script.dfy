/**
 * The layout of the two SQL scripts, `generate_sql_dump.py` and
 * `build_sql_dump` of `build_prd_dataset.py`, as a sequence of
 * statements: a comment, BEGIN, the DROPs, the CREATEs, the INSERTs, the
 * CREATE INDEXes and COMMIT, the groups separated by blank lines.
 *
 * Because of foreign keys a child table must be dropped before its
 * parent and created after it; both scripts list their tables in such an
 * order, and every INSERT and every index names a table created earlier
 * in the script.
 */
module Script {
  import opened Wrappers
  import opened SqlText
  import opened Rows
  import Dump
  import Prd

  datatype Stmt =
    | Comment(text: string)
    | Blank
    | Begin
    | Drop(table: Table)
    | Create(table: Table)
    | Insert(row: Row)
    | Index(name: string, on: Table, column: string)
    | Commit

  /** `CREATE INDEX name ON table(column);`. */
  datatype IndexSpec = IndexSpec(name: string, table: Table, column: string)

  function Drops(ts: seq<Table>): (s: seq<Stmt>)
    ensures |s| == |ts| && forall i :: 0 <= i < |ts| ==> s[i] == Drop(ts[i])
  {
    seq(|ts|, i requires 0 <= i < |ts| => Drop(ts[i]))
  }

  function Creates(ts: seq<Table>): (s: seq<Stmt>)
    ensures |s| == |ts| && forall i :: 0 <= i < |ts| ==> s[i] == Create(ts[i])
  {
    seq(|ts|, i requires 0 <= i < |ts| => Create(ts[i]))
  }

  function Inserts(rows: seq<Row>): (s: seq<Stmt>)
    ensures |s| == |rows| && forall i :: 0 <= i < |rows| ==> s[i] == Insert(rows[i])
  {
    seq(|rows|, i requires 0 <= i < |rows| => Insert(rows[i]))
  }

  function Indexes(xs: seq<IndexSpec>): (s: seq<Stmt>)
    ensures |s| == |xs| && forall i :: 0 <= i < |xs| ==> s[i] == Index(xs[i].name, xs[i].table, xs[i].column)
  {
    seq(|xs|, i requires 0 <= i < |xs| => Index(xs[i].name, xs[i].table, xs[i].column))
  }

  /** Everything before the INSERTs: the comment, BEGIN, the DROPs and
      the CREATEs. */
  function Head(header: string, drops: seq<Table>, creates: seq<Table>): seq<Stmt> {
    [Comment(header), Begin, Blank] + Drops(drops) + [Blank] + Creates(creates) + [Blank]
  }

  /** Everything after the INSERTs: the indexes and COMMIT. */
  function Tail(indexes: seq<IndexSpec>): seq<Stmt> {
    [Blank] + Indexes(indexes) + [Blank, Commit]
  }

  /** The lines both writers append, in order. */
  function Layout(header: string, drops: seq<Table>, creates: seq<Table>, rows: seq<Row>, indexes: seq<IndexSpec>): seq<Stmt> {
    Head(header, drops, creates) + Inserts(rows) + Tail(indexes)
  }

  // ---------------------------------------------------------------------
  // Phases
  // ---------------------------------------------------------------------

  /** The group a statement belongs to; blank lines belong to none. */
  function Phase(st: Stmt): nat {
    match st
    case Comment(_) => 0
    case Blank => 0
    case Begin => 1
    case Drop(_) => 2
    case Create(_) => 3
    case Insert(_) => 4
    case Index(_, _, _) => 5
    case Commit => 6
  }

  /** The statements other than blank lines have phases in `lo..hi`, in
      non-decreasing order. */
  ghost predicate InPhases(s: seq<Stmt>, lo: nat, hi: nat) {
    && (forall i :: 0 <= i < |s| && !s[i].Blank? ==> lo <= Phase(s[i]) <= hi)
    && (forall i, j :: 0 <= i < j < |s| && !s[i].Blank? && !s[j].Blank? ==> Phase(s[i]) <= Phase(s[j]))
  }

  lemma InPhasesAppend(a: seq<Stmt>, b: seq<Stmt>, lo: nat, mid: nat, hi: nat)
    requires lo <= mid <= hi
    requires InPhases(a, lo, mid) && InPhases(b, mid, hi)
    ensures InPhases(a + b, lo, hi)
  {
    var s := a + b;
    forall i, j | 0 <= i < j < |s| && !s[i].Blank? && !s[j].Blank? ensures Phase(s[i]) <= Phase(s[j]) {
      if j < |a| {
        assert s[i] == a[i] && s[j] == a[j];
      } else if i >= |a| {
        assert s[i] == b[i - |a|] && s[j] == b[j - |a|];
      } else {
        assert s[i] == a[i] && s[j] == b[j - |a|];
      }
    }
    forall i | 0 <= i < |s| && !s[i].Blank? ensures lo <= Phase(s[i]) <= hi {
      if i < |a| {
        assert s[i] == a[i];
      } else {
        assert s[i] == b[i - |a|];
      }
    }
  }

  /** Statements of one kind, or blank lines, are in one phase. */
  lemma OnePhase(s: seq<Stmt>, p: nat)
    requires forall i :: 0 <= i < |s| ==> s[i].Blank? || Phase(s[i]) == p
    ensures InPhases(s, p, p)
  {
  }

  lemma HeadShape(header: string, drops: seq<Table>, creates: seq<Table>)
    ensures var h := Head(header, drops, creates);
      && |h| == |drops| + |creates| + 5
      && h[1] == Begin
      && (forall k :: 0 <= k < |creates| ==> h[4 + |drops| + k] == Create(creates[k]))
      && (forall k :: 0 <= k < |h| ==> !h[k].Insert? && !h[k].Index?)
  {
  }

  lemma HeadInPhases(header: string, drops: seq<Table>, creates: seq<Table>)
    ensures InPhases(Head(header, drops, creates), 0, 3)
  {
    var p0 := [Comment(header), Begin, Blank];
    var p1 := p0 + Drops(drops);
    var p2 := p1 + [Blank];
    var p3 := p2 + Creates(creates);
    assert InPhases(p0, 0, 1);
    OnePhase(Drops(drops), 2);
    InPhasesAppend(p0, Drops(drops), 0, 1, 2);
    OnePhase([Blank], 2);
    InPhasesAppend(p1, [Blank], 0, 2, 2);
    OnePhase(Creates(creates), 3);
    InPhasesAppend(p2, Creates(creates), 0, 2, 3);
    OnePhase([Blank], 3);
    InPhasesAppend(p3, [Blank], 0, 3, 3);
  }

  lemma TailShape(indexes: seq<IndexSpec>)
    ensures var t := Tail(indexes);
      && |t| == |indexes| + 3
      && t[|t| - 1] == Commit
      && (forall k :: 0 <= k < |t| ==> !t[k].Insert?)
      && (forall k :: 0 <= k < |t| && t[k].Index? ==> 1 <= k <= |indexes|)
      && InPhases(t, 4, 6)
  {
    OnePhase([Blank] + Indexes(indexes), 5);
    assert InPhases([Blank, Commit], 5, 6);
    InPhasesAppend([Blank] + Indexes(indexes), [Blank, Commit], 4, 5, 6);
  }

  /** Whatever the tables, rows and indexes: the comment, BEGIN, the
      DROPs, the CREATEs, the INSERTs, the indexes and COMMIT come in
      that order, with BEGIN second and COMMIT last. */
  lemma LayoutInOrder(header: string, drops: seq<Table>, creates: seq<Table>, rows: seq<Row>, indexes: seq<IndexSpec>)
    ensures var s := Layout(header, drops, creates, rows, indexes);
      && |s| == 8 + |drops| + |creates| + |rows| + |indexes|
      && s[1] == Begin && s[|s| - 1] == Commit
      && InPhases(s, 0, 6)
  {
    var h := Head(header, drops, creates);
    HeadShape(header, drops, creates);
    HeadInPhases(header, drops, creates);
    TailShape(indexes);
    OnePhase(Inserts(rows), 4);
    InPhasesAppend(h, Inserts(rows), 0, 3, 4);
    InPhasesAppend(h + Inserts(rows), Tail(indexes), 0, 4, 6);
  }

  /** A created table's CREATE is in the head, before everything after it. */
  lemma CreatedInHead(header: string, drops: seq<Table>, creates: seq<Table>, rest: seq<Stmt>, x: Table)
    requires x in creates
    ensures exists j :: 0 <= j < |Head(header, drops, creates)| && (Head(header, drops, creates) + rest)[j] == Create(x)
  {
    var h := Head(header, drops, creates);
    HeadShape(header, drops, creates);
    var m :| 0 <= m < |creates| && creates[m] == x;
    assert (h + rest)[4 + |drops| + m] == h[4 + |drops| + m];
  }

  /** Where an INSERT of the layout sits: among the rows, after the head. */
  lemma InsertPosition(header: string, drops: seq<Table>, creates: seq<Table>, rows: seq<Row>, indexes: seq<IndexSpec>, i: nat)
    requires var s := Layout(header, drops, creates, rows, indexes); i < |s| && s[i].Insert?
    ensures var h := Head(header, drops, creates);
      && |h| <= i < |h| + |rows|
      && Layout(header, drops, creates, rows, indexes)[i] == Insert(rows[i - |h|])
  {
    HeadShape(header, drops, creates);
    TailShape(indexes);
  }

  /** Where an index of the layout sits: in the tail, after the rows. */
  lemma IndexPosition(header: string, drops: seq<Table>, creates: seq<Table>, rows: seq<Row>, indexes: seq<IndexSpec>, i: nat)
    requires var s := Layout(header, drops, creates, rows, indexes); i < |s| && s[i].Index?
    ensures var x := |Head(header, drops, creates)| + |rows|;
      && x + 1 <= i <= x + |indexes|
      && Layout(header, drops, creates, rows, indexes)[i] == Indexes(indexes)[i - x - 1]
  {
    var x := |Head(header, drops, creates)| + |rows|;
    var t := Tail(indexes);
    HeadShape(header, drops, creates);
    TailShape(indexes);
    assert Layout(header, drops, creates, rows, indexes)[i] == t[i - x];
  }

  /** When every row is on a created table, every INSERT follows the
      CREATE of its table. */
  lemma InsertsAfterCreates(header: string, drops: seq<Table>, creates: seq<Table>, rows: seq<Row>, indexes: seq<IndexSpec>)
    requires forall k :: 0 <= k < |rows| ==> rows[k].table in creates
    ensures var s := Layout(header, drops, creates, rows, indexes);
      forall i :: 0 <= i < |s| && s[i].Insert? ==> exists j :: 0 <= j < i && s[j] == Create(s[i].row.table)
  {
    var h := Head(header, drops, creates);
    var s := Layout(header, drops, creates, rows, indexes);
    var rest := Inserts(rows) + Tail(indexes);
    assert s == h + rest;
    forall i | 0 <= i < |s| && s[i].Insert? ensures exists j :: 0 <= j < i && s[j] == Create(s[i].row.table) {
      InsertPosition(header, drops, creates, rows, indexes, i);
      CreatedInHead(header, drops, creates, rest, rows[i - |h|].table);
    }
  }

  /** When every index is on a created table, every index follows the
      CREATE of its table. */
  lemma IndexesAfterCreates(header: string, drops: seq<Table>, creates: seq<Table>, rows: seq<Row>, indexes: seq<IndexSpec>)
    requires forall k :: 0 <= k < |indexes| ==> indexes[k].table in creates
    ensures var s := Layout(header, drops, creates, rows, indexes);
      forall i :: 0 <= i < |s| && s[i].Index? ==> exists j :: 0 <= j < i && s[j] == Create(s[i].on)
  {
    var h := Head(header, drops, creates);
    var s := Layout(header, drops, creates, rows, indexes);
    var rest := Inserts(rows) + Tail(indexes);
    assert s == h + rest;
    forall i | 0 <= i < |s| && s[i].Index? ensures exists j :: 0 <= j < i && s[j] == Create(s[i].on) {
      IndexPosition(header, drops, creates, rows, indexes, i);
      CreatedInHead(header, drops, creates, rest, indexes[i - |h| - |rows| - 1].table);
    }
  }

  /** When every row and every index is on a created table, every INSERT
      and every index follows the CREATE of its table. */
  lemma LayoutCreatedFirst(header: string, drops: seq<Table>, creates: seq<Table>, rows: seq<Row>, indexes: seq<IndexSpec>)
    requires forall k :: 0 <= k < |rows| ==> rows[k].table in creates
    requires forall k :: 0 <= k < |indexes| ==> indexes[k].table in creates
    ensures var s := Layout(header, drops, creates, rows, indexes);
      && (forall i :: 0 <= i < |s| && s[i].Insert? ==> exists j :: 0 <= j < i && s[j] == Create(s[i].row.table))
      && (forall i :: 0 <= i < |s| && s[i].Index? ==> exists j :: 0 <= j < i && s[j] == Create(s[i].on))
  {
    InsertsAfterCreates(header, drops, creates, rows, indexes);
    IndexesAfterCreates(header, drops, creates, rows, indexes);
  }

  // ---------------------------------------------------------------------
  // Parents and children
  // ---------------------------------------------------------------------

  /** Every child table comes before its parent. */
  ghost predicate ChildrenFirst(ts: seq<Table>) {
    forall i, j :: 0 <= i < |ts| && 0 <= j < |ts| && Parent(ts[i]) == Some(ts[j]) ==> i < j
  }

  /** Every parent table comes before its children. */
  ghost predicate ParentsFirst(ts: seq<Table>) {
    forall i, j :: 0 <= i < |ts| && 0 <= j < |ts| && Parent(ts[i]) == Some(ts[j]) ==> j < i
  }

  /** No table twice. */
  ghost predicate Distinct(ts: seq<Table>) {
    forall i, j :: 0 <= i < j < |ts| ==> ts[i] != ts[j]
  }

  /** `pos` gives the position of every table of `ts`. */
  ghost predicate Positions(ts: seq<Table>, pos: Table -> nat) {
    forall i :: 0 <= i < |ts| ==> pos(ts[i]) == i
  }

  /** A list with a position function has no table twice, and puts
      children first when every child's position is below its parent's
      (parents first when above). */
  lemma OrderByPositions(ts: seq<Table>, pos: Table -> nat)
    requires Positions(ts, pos)
    ensures Distinct(ts)
    ensures (forall t :: Parent(t).Some? ==> pos(t) < pos(Parent(t).value)) ==> ChildrenFirst(ts)
    ensures (forall t :: Parent(t).Some? ==> pos(Parent(t).value) < pos(t)) ==> ParentsFirst(ts)
  {
  }

  // ---------------------------------------------------------------------
  // generate_sql_dump.py
  // ---------------------------------------------------------------------

  const DumpHeader: string := "-- Route25 dataset SQL dump (PostgreSQL / Supabase)"

  const DumpDrops: seq<Table> := [
    OutputArtifacts, GuidePoints, GuidePolylines, Embeds, Headings, Paragraphs, GuideErrors,
    Guides, GuidesMeta, RoutePoints, RoutePolylines, RouteStops, Routes, CompilationRows, RouteIndexMeta]

  const DumpCreates: seq<Table> := [
    RouteIndexMeta, CompilationRows, Routes, RouteStops, RoutePolylines, RoutePoints,
    GuidesMeta, Guides, Paragraphs, Headings, Embeds, GuidePolylines, GuidePoints, GuideErrors, OutputArtifacts]

  const DumpIndexes: seq<IndexSpec> := [
    IndexSpec("idx_routes_route_number", Routes, "route_number"),
    IndexSpec("idx_route_stops_route_id", RouteStops, "route_id"),
    IndexSpec("idx_route_map_polylines_route_id", RoutePolylines, "route_id"),
    IndexSpec("idx_route_map_points_polyline_id", RoutePoints, "polyline_id"),
    IndexSpec("idx_full_guides_route_number", Guides, "route_number"),
    IndexSpec("idx_full_guide_paragraphs_guide_id", Paragraphs, "guide_id"),
    IndexSpec("idx_full_guide_headings_guide_id", Headings, "guide_id"),
    IndexSpec("idx_full_guide_map_embeds_guide_id", Embeds, "guide_id"),
    IndexSpec("idx_full_guide_map_polylines_embed_id", GuidePolylines, "embed_id"),
    IndexSpec("idx_full_guide_map_points_polyline_id", GuidePoints, "polyline_id")]

  /** The script `generate_sql_dump.py` writes, without the
      `output_artifacts` rows. */
  function DumpScript(index: Dump.IndexPayload, guides: Dump.GuidesPayload): seq<Stmt> {
    Layout(DumpHeader, DumpDrops, DumpCreates, Dump.DumpRows(index, guides), DumpIndexes)
  }

  /** The position of each table among the dump's DROPs. */
  function DropPos(t: Table): nat {
    match t
    case OutputArtifacts => 0
    case GuidePoints => 1
    case GuidePolylines => 2
    case Embeds => 3
    case Headings => 4
    case Paragraphs => 5
    case GuideErrors => 6
    case Guides => 7
    case GuidesMeta => 8
    case RoutePoints => 9
    case RoutePolylines => 10
    case RouteStops => 11
    case Routes => 12
    case CompilationRows => 13
    case RouteIndexMeta => 14
    case _ => 15
  }

  /** The position of each table among the dump's CREATEs. */
  function CreatePos(t: Table): nat {
    match t
    case RouteIndexMeta => 0
    case CompilationRows => 1
    case Routes => 2
    case RouteStops => 3
    case RoutePolylines => 4
    case RoutePoints => 5
    case GuidesMeta => 6
    case Guides => 7
    case Paragraphs => 8
    case Headings => 9
    case Embeds => 10
    case GuidePolylines => 11
    case GuidePoints => 12
    case GuideErrors => 13
    case OutputArtifacts => 14
    case _ => 15
  }

  /** Each index is on a column of its table. */
  ghost predicate IndexesOnColumns(xs: seq<IndexSpec>) {
    forall k :: 0 <= k < |xs| ==> xs[k].column in Columns(xs[k].table)
  }

  /** The dump drops fifteen tables, each once, children first. */
  lemma DumpDropOrder()
    ensures Distinct(DumpDrops) && ChildrenFirst(DumpDrops)
  {
    DropPositions();
    OrderByPositions(DumpDrops, DropPos);
  }

  lemma DropPositions()
    ensures Positions(DumpDrops, DropPos)
  {
  }

  /** The dump creates fifteen tables, each once, parents first. */
  lemma DumpCreateOrder()
    ensures Distinct(DumpCreates) && ParentsFirst(DumpCreates)
  {
    CreatePositions();
    OrderByPositions(DumpCreates, CreatePos);
  }

  lemma CreatePositions()
    ensures Positions(DumpCreates, CreatePos)
  {
  }

  /** It creates the tables it drops. */
  lemma DumpSameTables()
    ensures |DumpDrops| == |DumpCreates|
    ensures forall t :: t in DumpDrops <==> t in DumpCreates
  {
  }

  /** The indexes are on columns of created tables. */
  lemma DumpIndexTables()
    ensures IndexesOnColumns(DumpIndexes)
    ensures forall k :: 0 <= k < |DumpIndexes| ==> DumpIndexes[k].table in DumpCreates
  {
    forall k | 0 <= k < |DumpIndexes|
      ensures DumpIndexes[k].column in Columns(DumpIndexes[k].table)
    {
      SecondColumn(DumpIndexes[k]);
    }
  }

  /** Each of the dump's indexes is on the second column of its table. */
  lemma SecondColumn(x: IndexSpec)
    requires x in DumpIndexes
    ensures x.column in Columns(x.table)
  {
    assert x.column == Columns(x.table)[1] by {
      assert Columns(Routes)[1] == "route_number";
      assert Columns(RouteStops)[1] == "route_id";
      assert Columns(RoutePolylines)[1] == "route_id";
      assert Columns(RoutePoints)[1] == "polyline_id";
      assert Columns(Guides)[1] == "route_number";
      assert Columns(Paragraphs)[1] == "guide_id";
      assert Columns(Headings)[1] == "guide_id";
      assert Columns(Embeds)[1] == "guide_id";
      assert Columns(GuidePolylines)[1] == "embed_id";
      assert Columns(GuidePoints)[1] == "polyline_id";
    }
  }





  /** Every row of the dump is in one of its tables. */
  lemma DumpRowTables(index: Dump.IndexPayload, guides: Dump.GuidesPayload)
    ensures forall k :: 0 <= k < |Dump.DumpRows(index, guides)| ==> Dump.DumpRows(index, guides)[k].table in DumpCreates
  {
    var rows := Dump.DumpRows(index, guides);
    var all := {RouteIndexMeta, CompilationRows, Routes, RouteStops, RoutePolylines, RoutePoints,
                GuidesMeta, Guides, Paragraphs, Headings, Embeds, GuidePolylines, GuidePoints, GuideErrors};
    Dump.IndexDoneRows(index);
    Dump.AfterIndex(index, guides);
    ExtendsInto([], Dump.IndexDone(index).rows, rows, Dump.IndexTables, Dump.GuidePart, all);
  }

  /** The dump script: BEGIN, the DROPs children first, the CREATEs
      parents first, the INSERTs, each after the CREATE of its table, the
      indexes, COMMIT. */
  lemma DumpScriptOrder(index: Dump.IndexPayload, guides: Dump.GuidesPayload)
    ensures var s := DumpScript(index, guides);
      && s[1] == Begin && s[|s| - 1] == Commit && InPhases(s, 0, 6)
      && ChildrenFirst(DumpDrops) && ParentsFirst(DumpCreates)
      && (forall i :: 0 <= i < |s| && s[i].Insert? ==> exists j :: 0 <= j < i && s[j] == Create(s[i].row.table))
      && (forall i :: 0 <= i < |s| && s[i].Index? ==> exists j :: 0 <= j < i && s[j] == Create(s[i].on))
  {
    DumpDropOrder();
    DumpCreateOrder();
    DumpIndexTables();
    DumpRowTables(index, guides);
    LayoutInOrder(DumpHeader, DumpDrops, DumpCreates, Dump.DumpRows(index, guides), DumpIndexes);
    LayoutCreatedFirst(DumpHeader, DumpDrops, DumpCreates, Dump.DumpRows(index, guides), DumpIndexes);
  }

  // ---------------------------------------------------------------------
  // build_prd_dataset.py
  // ---------------------------------------------------------------------

  const PrdHeader: string := "-- Route25 PRD-focused SQL dump (PostgreSQL / Supabase)"

  const PrdDrops: seq<Table> := [PrdRouteStops, PrdRoutes, PrdMeta]

  const PrdCreates: seq<Table> := [PrdMeta, PrdRoutes, PrdRouteStops]

  const PrdIndexes: seq<IndexSpec> := [
    IndexSpec("idx_prd_routes_route_number", PrdRoutes, "route_number"),
    IndexSpec("idx_prd_route_stops_route_id", PrdRouteStops, "route_id")]

  /** The script `build_sql_dump` writes. */
  function PrdScript(d: Prd.Dataset): seq<Stmt> {
    Layout(PrdHeader, PrdDrops, PrdCreates, Prd.PrdDumpRows(d), PrdIndexes)
  }

  /** The PRD dump drops its three tables child first and creates them
      parent first. */
  lemma PrdTables()
    ensures Distinct(PrdDrops) && Distinct(PrdCreates)
    ensures forall t :: t in PrdDrops <==> t in PrdCreates
    ensures ChildrenFirst(PrdDrops) && ParentsFirst(PrdCreates)
  {
  }

  lemma PrdIndexTables()
    ensures IndexesOnColumns(PrdIndexes)
    ensures forall k :: 0 <= k < |PrdIndexes| ==> PrdIndexes[k].table in PrdCreates
  {
  }

  lemma PrdRowTables(d: Prd.Dataset)
    ensures forall k :: 0 <= k < |Prd.PrdDumpRows(d)| ==> Prd.PrdDumpRows(d)[k].table in PrdCreates
  {
    var h := Prd.PrdHead(d);
    Prd.PrdHeadGood(d);
    AppendExtends([], h.rows[0]);
    assert h.rows == [] + [h.rows[0]];
    Prd.EmitPrdRoutesExtends(h, d.routes, 1);
    ExtendsInto([], h.rows, Prd.PrdDumpRows(d), {PrdMeta}, Prd.PrdTree, {PrdMeta, PrdRoutes, PrdRouteStops});
  }

  /** The PRD script: the same order, on its three tables. */
  lemma PrdScriptOrder(d: Prd.Dataset)
    ensures var s := PrdScript(d);
      && s[1] == Begin && s[|s| - 1] == Commit && InPhases(s, 0, 6)
      && ChildrenFirst(PrdDrops) && ParentsFirst(PrdCreates)
      && (forall i :: 0 <= i < |s| && s[i].Insert? ==> exists j :: 0 <= j < i && s[j] == Create(s[i].row.table))
      && (forall i :: 0 <= i < |s| && s[i].Index? ==> exists j :: 0 <= j < i && s[j] == Create(s[i].on))
  {
    PrdTables();
    PrdIndexTables();
    PrdRowTables(d);
    LayoutInOrder(PrdHeader, PrdDrops, PrdCreates, Prd.PrdDumpRows(d), PrdIndexes);
    LayoutCreatedFirst(PrdHeader, PrdDrops, PrdCreates, Prd.PrdDumpRows(d), PrdIndexes);
  }
}
