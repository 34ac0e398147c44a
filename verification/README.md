# Route25 dataset pipeline — a Dafny model

This project models the core of the Route25 dataset scripts. They turn the
scraped route index of Iloilo City's jeepney routes, and the full guide
pages, into JSON datasets and SQL dumps. The model covers five parts:

- **Text helpers.** `normalize_text`, `split_stops` and `unique_in_order`
  (`text.dfy`, built on `strings.dfy`).
- **KML readers.** `parse_kml_polylines` and `parse_map_markers_from_kml`
  read a Google My Maps export (`kml.dfy`, with `collect.dfy` for the
  "enumerate, skip some, keep the rest" loop they share).
- **Map fetchers.** `fetch_map_geometry` and `fetch_markers_for_mid`
  download each map at most once through a per-run cache
  (`fetchcache.dfy`).
- **Fare parser.** `parse_fare_from_text` searches normalised guide text
  with a range pattern and then a single-value pattern. The model is a
  hand-written backtracking matcher that follows the order in which
  Python's `re` engine tries alternatives (`fare.dfy`, on the generic
  engine in `backtrack.dfy`). Fares are integer hundredths of a peso
  (`num.dfy`).
- **SQL writers:**
  - `sql_value` and `insert_line` (`sqltext.dfy`);
  - the route sort key shared by both scripts (`routeorder.dfy`);
  - the id and foreign-key discipline of the rows (`rows.dfy`);
  - the INSERT rows of `generate_sql_dump.py` (`dump.dfy`);
  - the PRD dataset of `build_prd_dataset.py` and its dump (`prd.dfy`);
  - the statement layout of both scripts (`script.dfy`).

Inputs the programs obtain from outside are parameters of the model:

- JSON payloads arrive as datatypes.
- A KML download is a function `net: string -> Download`. It answers a
  URL with the document's placemarks or with an error message.
- Python's `float()` on a coordinate token is a function
  `parse: string -> Option<Float>`.
- The clock's reading is a string.

## Model

| member | source | states |
|---|---|---|
| Text.NormalizeText | dataset/build_prd_dataset.py:31-34 | Empty text gives ""; the result is always normal: words without whitespace, joined by single spaces |
| Text.NormalizeEmpty | dataset/update_notebooks_with_geometry.py:58-61 | Normalising gives "" exactly when every character is whitespace in Python's `str.isspace` sense, NBSP included |
| Text.NormalizeIdempotent | dataset/build_prd_dataset.py:31-34 | Normalising twice is the same as normalising once |
| Text.NormalizeWords | dataset/build_prd_dataset.py:31-34 | Normalising keeps the words: `split()` of the result is `split()` of the text with every non-breaking space read as a space |
| Text.NormalizeNoSeparator | dataset/update_notebooks_with_geometry.py:67-72 | Normalising introduces no ',' or ';', so stop names stay free of separators |
| Strings.WordsOfJoin | dataset/build_prd_dataset.py:34 | `split()` of a single-space join of words gives the words back, so a normal text's words are fixed |
| Strings.WordsEmpty | dataset/build_prd_dataset.py:34 | `split()` yields no word exactly when the text is all whitespace |
| Strings.SplitAppend | dataset/update_notebooks_with_geometry.py:71 | `str.split(c)` of a text joined at a `c` is the two splits concatenated |
| Strings.JoinSplit | dataset/update_notebooks_with_geometry.py:71 | Joining the pieces of `split(c)` with `c` rebuilds the text |
| Strings.NatToStringRoundTrip | dataset/build_prd_dataset.py:313 | The decimal text of a number reads back as that number |
| Strings.IntToStringInjective | dataset/build_prd_dataset.py:313 | Distinct integers have distinct `str()` texts |
| Strings.Replace | dataset/update_notebooks_with_geometry.py:70 | `replace(a, b)` keeps the length and changes exactly the `a` characters into `b` |
| Text.Strip | dataset/update_notebooks_with_geometry.py:71 | `strip(" .")` is a contiguous slice of the input that neither starts nor ends with ' ' or '.' |
| Text.SplitStops | dataset/update_notebooks_with_geometry.py:67-72 | An empty description gives no stops; every stop is non-empty, free of ',' and ';', and neither starts nor ends with ' ' or '.' |
| Text.SplitReplaced | dataset/update_notebooks_with_geometry.py:70-71 | Replacing ';' by ',' and then splitting on ',' gives the same parts as a splitter (Strings.SplitAny) that splits on either character and never rewrites the text |
| Text.SplitStopsEither | dataset/update_notebooks_with_geometry.py:67-72 | For every description, including the empty one, the stops are the non-empty cleaned parts between ',' and ';' separators as found by that splitter |
| Text.SplitStopsAppend | dataset/update_notebooks_with_geometry.py:70-72 | The stops of `a + sep + b` are the stops of `a` followed by those of `b`, in order, for either separator |
| Text.SplitStopsSingle | dataset/update_notebooks_with_geometry.py:71-72 | A description without separators gives its cleaned text as the single stop, or no stop when that is empty |
| Text.KeepStopsAreStops | dataset/update_notebooks_with_geometry.py:72 | Every piece the filter keeps is a well-formed stop |
| Text.CleanStopIsStop | dataset/update_notebooks_with_geometry.py:71 | A non-empty cleaned piece is a well-formed stop |
| Text.UniqueInOrder | dataset/update_notebooks_with_geometry.py:408-415 | The output holds every truthy item exactly once and no falsy item, in order of first occurrence |
| Text.FirstOccurrenceAppend | dataset/update_notebooks_with_geometry.py:410-414 | Appending an item not yet seen keeps the output ordered by first occurrence |
| Kml.TokenPoint | dataset/update_notebooks_with_geometry.py:99-111 | A token gives a point exactly when splitting it on ',' gives at least two fields and the first two parse; the point holds those two numbers, lng then lat |
| Kml.TokenPointNeedsComma | dataset/update_notebooks_with_geometry.py:100-102 | A token without a comma is skipped |
| Kml.TokenPointIgnoresExtra | dataset/update_notebooks_with_geometry.py:100-106 | Fields after the second, such as an altitude, do not change the point |
| Kml.TokenPoints | dataset/update_notebooks_with_geometry.py:95-111 | Every kept point comes from some token of the coordinate text |
| Kml.TokenPointsAppend | dataset/update_notebooks_with_geometry.py:99-111 | The points of two token lists joined are the points of the first followed by those of the second: the loop keeps token order |
| Kml.TokenPointsSingle | dataset/update_notebooks_with_geometry.py:99-111 | One token gives its point when it has two parts that parse as numbers, and nothing otherwise |
| Kml.PolylineName | dataset/update_notebooks_with_geometry.py:116-117 | An unnamed placemark is called `segment_<idx>`; a named one gets exactly the normalised text of its name |
| Kml.PolylineAt | dataset/update_notebooks_with_geometry.py:86-126 | A placemark without LineString coordinates gives nothing. Otherwise it gives a polyline exactly when its tokens yield at least two points, and the polyline's lng/lat list is those points. The polyline is valid (both lists, swapped, and the point count) and named by PolylineName |
| Kml.ParsePolylines | dataset/update_notebooks_with_geometry.py:82-128 | At most one polyline per placemark, each valid |
| Kml.PolylineAtPosition | dataset/update_notebooks_with_geometry.py:86 | The placemark at position k is read with idx = k + 1, counting placemarks that are skipped |
| Kml.UnnamedSegment | dataset/update_notebooks_with_geometry.py:86-117 | A kept unnamed placemark at position k is named `segment_<k+1>` in the output |
| Kml.SkippedPlacemark | dataset/update_notebooks_with_geometry.py:87-93 | A skipped placemark still advances the index of the ones after it |
| Kml.SumPointsAppend | dataset/update_notebooks_with_geometry.py:157 | The point total of two lists of polylines is the sum of their totals |
| Kml.SumPointsAtLeast | dataset/update_notebooks_with_geometry.py:113-114 | A map's point total is at least twice its polyline count |
| Kml.MarkerAt | dataset/build_prd_dataset.py:74-107 | A placemark gives a marker exactly when it has a Point with coordinates whose first token has two parsable fields; the marker is (lat, lng), and its name is the normalised `<name>` text or None |
| Kml.ParseMarkers | dataset/build_prd_dataset.py:71-109 | At most one marker per placemark, each coming from some placemark |
| Kml.MarkersAppend | dataset/build_prd_dataset.py:76-107 | Markers keep document order: the markers of two runs of placemarks concatenate |
| Kml.MarkersEmpty | dataset/build_prd_dataset.py:71-109 | No marker exactly when every placemark is skipped |
| Collecting.CollectFrom | dataset/update_notebooks_with_geometry.py:86-126 | Every kept output comes from some input at its own 1-based index |
| Collecting.CollectAppend | dataset/update_notebooks_with_geometry.py:86 | Collecting a concatenation is collecting each part, with the second part's index shifted by the first's length |
| Collecting.CollectAt | dataset/update_notebooks_with_geometry.py:86-126 | The input at position k contributes its output exactly when the step keeps it, right after the outputs of the earlier inputs |
| Collecting.CollectEmpty | dataset/build_prd_dataset.py:76-107 | Nothing is collected exactly when every input is skipped |
| Collecting.CollectShift | dataset/build_prd_dataset.py:76 | A step that ignores the index does not depend on where counting starts |
| FetchCache.Resolve | dataset/update_notebooks_with_geometry.py:130-172 | A blank mid gives the empty result and leaves the cache alone. A cached mid is answered from the cache. Only an uncached mid is fetched, once, and then stored. Against a consistent cache the answer equals an uncached load |
| FetchCache.ResolveTwice | dataset/update_notebooks_with_geometry.py:141-142 | Looking up the same mid again fetches nothing and gives the same answer |
| FetchCache.RunAll | dataset/build_prd_dataset.py:309-320 | One result per route, in route order, through one shared cache |
| FetchCache.RunFetchesOnce | dataset/build_prd_dataset.py:115-116 | Over a run the downloads are distinct and none was cached at the start. The set downloaded is exactly the named mids not cached. The final cache holds every named mid and keeps the old entries unchanged |
| FetchCache.RunFetchedNew | dataset/build_prd_dataset.py:115-129 | Nothing downloaded in a run was in the starting cache, and cached entries survive unchanged |
| FetchCache.RunFetchedDistinct | dataset/build_prd_dataset.py:115-129 | No mid is fetched twice in a run |
| FetchCache.RunFetchedSet | dataset/build_prd_dataset.py:113-129 | The set downloaded is the non-blank mids missing from the starting cache, and the final cache's keys are the starting keys plus every non-blank mid |
| FetchCache.RunTransparent | dataset/build_prd_dataset.py:112-130 | With a consistent starting cache, every result equals what an uncached fetch of its own mid gives |
| FetchCache.RepeatedCall | dataset/build_prd_dataset.py:115-116 | Two routes on the same map cause one download and get the same answer |
| FetchCache.KmlUrlInjective | dataset/build_prd_dataset.py:118 | Distinct map ids are fetched from distinct KML URLs, so the cache key and the URL agree |
| FetchCache.LoadGeometry | dataset/update_notebooks_with_geometry.py:144-168 | On success: the parsed polylines, their count and point total, no error. On failure: no polylines, zero counts, the error message. The URL is recorded either way |
| FetchCache.FetchMapGeometry | dataset/update_notebooks_with_geometry.py:130-172 | A blank mid gives the empty geometry. A cached mid gives the cached value. With a consistent cache every answer is well formed |
| FetchCache.LoadMarkers | dataset/build_prd_dataset.py:117-127 | The result carries the URL. There is no error exactly when the download succeeds, and then the markers are those parsed from it. On error the list is empty |
| FetchCache.FetchMarkersForMid | dataset/build_prd_dataset.py:112-130 | A blank mid gives (None, [], None); a cached mid the cached value; an error comes with no markers |
| FetchCache.Cache.Get | dataset/build_prd_dataset.py:111-130 | The mutable cache answers as Resolve does and records each download. It keeps Valid: no mid is downloaded twice, no download was in the initial cache, and the keys are the initial keys plus the downloads |
| Backtrack.MatchRestSound | dataset/build_prd_dataset.py:57-66 | A match the backtracking engine returns satisfies every piece of the pattern |
| Backtrack.MatchRestComplete | dataset/build_prd_dataset.py:57-66 | If any way of matching the pattern extends the positions so far, the engine finds a match |
| Backtrack.SearchFromSound | dataset/build_prd_dataset.py:57-66 | A search from i returns a valid match starting at or after i. No start between i and it matches, and the result is the engine's match at that start |
| Backtrack.SearchFromComplete | dataset/build_prd_dataset.py:57-66 | A search from before a match's start succeeds |
| Backtrack.SearchSpec | dataset/build_prd_dataset.py:57-66 | Search succeeds exactly when some match exists, and its match starts leftmost |
| Backtrack.MatchRestThrough | dataset/build_prd_dataset.py:49-55 | The engine's match, cut after piece k, is what the engine finds from that prefix |
| Backtrack.MatchRestPrefix | dataset/build_prd_dataset.py:49-55 | The engine's match is complete (one boundary per piece, plus the start) and extends the positions it started from |
| Backtrack.LastTwo | dataset/build_prd_dataset.py:50 | The last two pieces take their first candidate ends when those complete the match |
| Fares.RunEnd | dataset/build_prd_dataset.py:50 | A bounded greedy run stops at the limit, at the end of the text, or before the first character outside its class |
| Fares.Countdown | dataset/build_prd_dataset.py:53 | The candidate lengths of `{0,20}` are tried longest first and cover the whole range |
| Fares.EndsSound | dataset/build_prd_dataset.py:49-55 | Every end position a piece offers satisfies that piece's definition |
| Fares.EndsComplete | dataset/build_prd_dataset.py:49-55 | Every end position allowed by a piece's definition is offered |
| Fares.EnginePieces | dataset/build_prd_dataset.py:49-55 | The fare pieces meet the engine's soundness and completeness conditions |
| Fares.SearchSpec | dataset/build_prd_dataset.py:57-66 | `re.search` finds a match exactly when one exists, and its match is the leftmost |
| Fares.FirstEndIsLongest | dataset/build_prd_dataset.py:50 | The first end offered for `\d{1,3}` and for `(?:\.\d{1,2})?` is the longest they allow |
| Fares.SearchGreedy | dataset/build_prd_dataset.py:50-55 | In the search's match the final number is read as far as the pattern allows |
| Fares.LastNumberGreedy | dataset/build_prd_dataset.py:50-55 | A match the engine completes through the last number reads that number greedily |
| Fares.MatchMonotone | dataset/build_prd_dataset.py:49-55 | The piece boundaries of a match are in order within the text |
| Fares.DigitsBelow | dataset/build_prd_dataset.py:50 | A run of n digits is below 10^n |
| Fares.NumberAt | dataset/build_prd_dataset.py:59-60 | The matched number is below 1000.00, i.e. under 100000 hundredths |
| Fares.RangeFare | dataset/build_prd_dataset.py:57-61 | A range match gives min ≤ max, the two bounds are the two matched numbers, and the text is the whole match |
| Fares.SingleFare | dataset/build_prd_dataset.py:63-66 | A single match gives min = max = the matched number, and the text is the whole match |
| Fares.ParseFare | dataset/build_prd_dataset.py:43-68 | Empty text gives no fare; a found fare has min ≤ max < 100000 |
| Fares.FareIn | dataset/build_prd_dataset.py:57-68 | A fare found in normalised text has min ≤ max < 100000 |
| Fares.ParseFareNone | dataset/build_prd_dataset.py:43-68 | No fare exactly when the text is empty or neither pattern matches its normalised form anywhere |
| Fares.ParseFareRange | dataset/build_prd_dataset.py:57-61 | When the range pattern matches anywhere, the fare comes from its leftmost match |
| Fares.ParseFareSingle | dataset/build_prd_dataset.py:63-66 | Otherwise, when the single pattern matches, the fare comes from its leftmost match |
| Fares.SingleMatchShape | dataset/build_prd_dataset.py:52-55 | The single match starts with a keyword, has no digit between the keyword and its number, and reads the number greedily |
| Fares.NoDigitBeforeNumber | dataset/build_prd_dataset.py:53 | `[^0-9]{0,20}` lets no ASCII digit in before the number |
| Num.DecimalHundredths | dataset/build_prd_dataset.py:59-60 | `float("w.f")` in hundredths has whole part w |
| Num.FracDigits | dataset/build_prd_dataset.py:150 | The fraction digits of a hundredths value are one or two digits that read back as it |
| Num.FromHundredths | dataset/build_prd_dataset.py:149-150 | A fare value is a finite float, so it is never written as NULL |
| Num.HundredthsReprRoundTrip | dataset/build_prd_dataset.py:150 | `repr` of a fare is `whole.frac`, which reads back as the same number of hundredths |
| Num.HundredthsReprInjective | dataset/build_prd_dataset.py:150 | Distinct fares have distinct `repr` texts |
| SqlText.DoubleQuotes | dataset/generate_sql_dump.py:22 | Doubling quotes never shortens the text; QuoteRoundTrip undoes it |
| SqlText.Quote | dataset/generate_sql_dump.py:22-23 | A text literal starts and ends with a quote |
| SqlText.Stored | dataset/generate_sql_dump.py:14-15 | Booleans are stored as the integers 0 and 1; every other value as itself |
| SqlText.ReadQuoted | dataset/generate_sql_dump.py:22-23 | Reading a quoted body stops inside it and returns a proper suffix as the rest; ReadQuotedDoubled states what it recovers |
| SqlText.ReadQuotedDoubled | dataset/generate_sql_dump.py:22-23 | Reading a body written with doubled quotes recovers the text and the rest |
| SqlText.QuoteRoundTrip | dataset/generate_sql_dump.py:22-23 | Unquoting a text literal gives back the text |
| SqlText.QuoteInjective | dataset/generate_sql_dump.py:22-23 | Distinct texts give distinct literals |
| SqlText.SqlValueInjective | dataset/generate_sql_dump.py:11-23 | Two non-float values render alike exactly when they store the same value (True and 1 alike) |
| SqlText.SqlValueNull | dataset/generate_sql_dump.py:12-21 | None, NaN and infinities render as NULL; texts, booleans and integers never do |
| SqlText.Rendered | dataset/generate_sql_dump.py:28 | The values list holds each value's `sql_value` text, in order; LiteralsOfRendered reads it back |
| SqlText.LiteralsOfRendered | dataset/generate_sql_dump.py:26-29 | Splitting the VALUES list back into literals gives exactly the rendered values |
| SqlText.InsertLineReads | dataset/generate_sql_dump.py:26-29 | An INSERT line is its head followed by the values list and `);`, and that list reads back as the rendered values |
| RouteOrder.KeyOf | dataset/generate_sql_dump.py:292 | The key's first part is whether the number is missing; a non-zero number is its own second part |
| RouteOrder.SortBy | dataset/generate_sql_dump.py:292 | Sorting keeps the length; order, permutation and stability are stated by SortBySorted and SortByStable |
| RouteOrder.InsertSorted | dataset/generate_sql_dump.py:292 | Inserting into a sorted list keeps it sorted and adds exactly the new element |
| RouteOrder.SortBySorted | dataset/generate_sql_dump.py:292 | The sorted list is ordered by the key and is a permutation of the input |
| RouteOrder.SortByStable | dataset/build_prd_dataset.py:309 | Records with equal keys keep their input order (Python's sort is stable) |
| RouteOrder.KeyFacts | dataset/build_prd_dataset.py:309 | Numbered routes come before unnumbered ones; `route_number or 9999` puts route 0 with 9999; otherwise keys order by number |
| Rows.RowValues | dataset/generate_sql_dump.py:298-531 | A row's values are its id, then its foreign key and its order when present, then its data |
| Rows.ColumnsArity | dataset/generate_sql_dump.py:56-250 | Each table's column list has as many names as a row of it has values |
| Rows.Start | dataset/generate_sql_dump.py:36 | The script starts with no rows and all id counters at 1 |
| Rows.Emit | dataset/generate_sql_dump.py:298-303 | Writing a row appends exactly that row and leaves the counters alone |
| Rows.EmitCounted | dataset/generate_sql_dump.py:340-378 | Writing a counted row takes its table's counter as id and advances only that counter |
| Rows.ExtendsCount | dataset/generate_sql_dump.py:298-531 | Rows written only to other tables do not change a table's row count |
| Rows.EmitGood | dataset/generate_sql_dump.py:298-303 | An enumerated row whose id is its table's next id keeps the script good |
| Rows.EmitCountedGood | dataset/generate_sql_dump.py:340-378 | A counted row keeps the script good and its counter equal to the table's row count plus one |
| Rows.EmitBlockGood | dataset/generate_sql_dump.py:340-348 | A block of child rows under the latest parent keeps the script good and adds one row per item |
| Rows.IdsAreIota | dataset/generate_sql_dump.py:298-546 | In a good script each table's ids are 1, 2, …, n in order |
| Rows.LatestRow | dataset/generate_sql_dump.py:298-531 | In a good script a table with n rows has a row with id n |
| Rows.FksResolve | dataset/generate_sql_dump.py:340-531 | Every child row's foreign key names an earlier row of its parent table |
| Dump.Enumerated | dataset/generate_sql_dump.py:340-348 | The i-th stop, paragraph or heading gets order i + 1 and its own value |
| Dump.PointItemsFrom | dataset/generate_sql_dump.py:367-378 | Each point row comes from an entry with at least two numbers, at that entry's 1-based position among all entries |
| Dump.EmitNumbered | dataset/generate_sql_dump.py:276-290 | Numbered rows leave the id counters alone |
| Dump.RouteRows | dataset/generate_sql_dump.py:298-338 | One `routes` row per route |
| Dump.RouteRowsAt | dataset/generate_sql_dump.py:298 | The i-th route gets id `routeId + i` |
| Dump.GuideRows | dataset/generate_sql_dump.py:414-450 | One `full_guides` row per guide |
| Dump.GuideRowsAt | dataset/generate_sql_dump.py:414 | The i-th guide gets id `guideId + i` |
| Dump.SortedRoutesShape | dataset/generate_sql_dump.py:292 | Sorting keeps every route's column count |
| Dump.DumpRowsGood | dataset/generate_sql_dump.py:32-546 | For well-formed payloads every row of the script fits its table, has its table's next id, and points at the latest parent row |
| Dump.DumpIds | dataset/generate_sql_dump.py:298-546 | Each table's ids in the script are 1, 2, …, n |
| Dump.DumpFks | dataset/generate_sql_dump.py:340-531 | Every foreign key in the script names an earlier row of the parent table |
| Dump.DumpRoutes | dataset/generate_sql_dump.py:292-338 | The `routes` rows are the routes in sorted order, the i-th with id i + 1 |
| Dump.DumpGuides | dataset/generate_sql_dump.py:406-450 | The `full_guides` rows are the guides in sorted order, the i-th with id i + 1 |
| Script.LayoutInOrder | dataset/generate_sql_dump.py:36-588 | A script is a header, BEGIN, DROPs, CREATEs, INSERTs, CREATE INDEXes and COMMIT, in that order, BEGIN second and COMMIT last |
| Script.LayoutCreatedFirst | dataset/generate_sql_dump.py:56-586 | When every row and index names a created table, each INSERT and each index comes after its table's CREATE |
| Script.InsertsAfterCreates | dataset/generate_sql_dump.py:56-546 | Each INSERT comes after the CREATE of its table |
| Script.IndexesAfterCreates | dataset/generate_sql_dump.py:56-586 | Each CREATE INDEX comes after the CREATE of its table |
| Script.DumpDropOrder | dataset/generate_sql_dump.py:40-54 | The dump drops each table once, children before parents |
| Script.DumpCreateOrder | dataset/generate_sql_dump.py:56-250 | The dump creates each table once, parents before children |
| Script.DumpSameTables | dataset/generate_sql_dump.py:40-250 | The dump drops the same tables it creates |
| Script.DumpIndexTables | dataset/generate_sql_dump.py:577-586 | Every index is on a created table and names a column of that table |
| Script.DumpRowTables | dataset/generate_sql_dump.py:252-546 | Every INSERT targets a created table |
| Script.DumpScriptOrder | dataset/generate_sql_dump.py:32-588 | The whole dump: BEGIN…COMMIT, the phases in order, drops children-first, creates parents-first, every INSERT and index after its CREATE |
| Prd.ExtractRouteName | dataset/build_prd_dataset.py:37-40 | A missing title gives ""; the name is always normal; when `^ROUTE\s*#?\s*\d+\s*` matches (RoutePrefixEnd) the name is the normalised rest of the title after the match, and otherwise the whole title normalised |
| Prd.RouteNameOfTitle | dataset/build_prd_dataset.py:37-40 | "ROUTE #7 Name" and "ROUTE 7 Name" both give the normalised Name |
| Prd.RouteCode | dataset/build_prd_dataset.py:313 | A code exists exactly when the number does, and it reads "ROUTE …" |
| Prd.RouteCodeInjective | dataset/build_prd_dataset.py:313 | Distinct route numbers get distinct codes |
| Prd.GuideFor | dataset/build_prd_dataset.py:303-315 | The lookup finds nothing exactly when no guide has the number; otherwise it finds a guide with that number |
| Prd.GuideForIsLast | dataset/build_prd_dataset.py:303 | The dict comprehension keeps the last guide with a given number |
| Prd.StopsFor | dataset/build_prd_dataset.py:322-346 | With markers, the stops are the markers with coordinates. Otherwise they are the index's names without coordinates. Orders run 1, 2, …, and some stop has coordinates exactly when there were markers |
| Prd.BuildRoute | dataset/build_prd_dataset.py:310-369 | The route keeps its number and gets its code. Its fare is parsed from its guide's text, and is NoFare when it has no guide. Its stops follow the markers. The KML URL falls back to the index's |
| Prd.BuildDataset | dataset/build_prd_dataset.py:309-381 | One dataset route per index route, stamped with the given time |
| Prd.DatasetRoutes | dataset/build_prd_dataset.py:309-369 | The routes come in key order, from a permutation of the index. Each is built from what an uncached fetch of its own map gives, so the shared cache is invisible |
| Prd.CountIf | dataset/build_prd_dataset.py:378-380 | A count never exceeds the number of routes; CountIfExtremes states when it is all or none |
| Prd.CountIfExtremes | dataset/build_prd_dataset.py:378-380 | The count is all routes exactly when every route qualifies, and 0 exactly when none does |
| Prd.SummaryOf | dataset/build_prd_dataset.py:377-380 | The route count is the number of routes and every other count is at most that |
| Prd.NoGuidesNoFares | dataset/build_prd_dataset.py:315-380 | Without guides no route has a fare |
| Prd.AllCoordinates | dataset/build_prd_dataset.py:379 | Every route counts as having coordinates exactly when each has a stop with coordinates |
| Prd.RouteValues | dataset/build_prd_dataset.py:248-257 | A `prd_routes` row has seven values after its id; FareCells states what the two fare cells hold |
| Prd.FareCells | dataset/build_prd_dataset.py:252-253 | The fare cells are decimal texts that read back as the fare bounds |
| Prd.FareCellsInjective | dataset/build_prd_dataset.py:252-253 | Routes whose fare cells render alike have the same fare bounds |
| Prd.StopItems | dataset/build_prd_dataset.py:261-282 | One stop row per stop, carrying the stop's order and three values |
| Prd.PrdRouteRows | dataset/build_prd_dataset.py:234-259 | One `prd_routes` row per route |
| Prd.EmitPrdRoutesGood | dataset/build_prd_dataset.py:232-283 | Writing the routes keeps the script good and adds one stop row per stop |
| Prd.PrdDumpRowsGood | dataset/build_prd_dataset.py:212-283 | Every row of the PRD dump is good, and there are as many stop rows as stops in all routes |
| Prd.PrdDumpRoutes | dataset/build_prd_dataset.py:212-259 | The meta row comes first, then the route rows in dataset order, the i-th with id i + 1 |
| Prd.PrdIds | dataset/build_prd_dataset.py:232-283 | Each table's ids are 1, 2, …, n; `stop_id` runs across routes |
| Prd.PrdFks | dataset/build_prd_dataset.py:261-282 | Every stop row's `route_id` names an earlier route row |
| Script.PrdTables | dataset/build_prd_dataset.py:165-209 | The PRD dump drops and creates the same three tables, each once, children dropped first and parents created first |
| Script.PrdIndexTables | dataset/build_prd_dataset.py:286-287 | Both PRD indexes are on columns of created tables |
| Script.PrdRowTables | dataset/build_prd_dataset.py:212-283 | Every PRD INSERT targets a created table |
| Script.PrdScriptOrder | dataset/build_prd_dataset.py:163-291 | The whole PRD dump: BEGIN…COMMIT, the phases in order, every INSERT and index after its CREATE |

## Left out

- The JSON, CSV and notebook outputs, file reading and writing,
  `argparse`, `uuid`, `print`, `time.sleep(0.35)` and the notebook
  driver that embeds these functions as code cells are not modelled.
  They are I/O.
- HTTP is an oracle. `net: string -> Download` answers a KML URL with the
  document's placemarks or with the exception's message. Timeouts,
  headers, encodings and sessions are not modelled.
- XML parsing (BeautifulSoup) is not modelled. A KML document is a list
  of already-parsed `Placemark`s: an optional `<name>` text, and the text
  of an optional `LineString/coordinates` and an optional
  `Point/coordinates`. `get_text(" ", strip=True)` is taken as given.
- `float()` and `repr()` on coordinates are opaque. A coordinate is a
  `Num.Float` carrying its `repr` text and whether it is finite, and
  `parse: string -> Option<Float>` stands for `float()` with its
  `ValueError`. Fares are exact: they are hundredths, and their `repr` is
  modelled digit by digit.
- `extract_mid_from_url` and `map_mid_from_embed` use `urlparse` and
  `parse_qs`. Their result is an input of each route (`embedMid`).
  `extract_article_dates`, `parse_route_number`, `scrape_full_guide` and
  the other scraper code are not part of this model.
- The `output_artifacts` table of `generate_sql_dump.py`
  (generate_sql_dump.py:40, :243, :548-574) is not modelled. Its DROP,
  CREATE and INSERT rows list files on disk, which is I/O. The modelled
  script has the other 15 tables.
- Statement text is not modelled. The CREATE TABLE column types, the
  CREATE INDEX text and the header comment's wording are represented
  only by which table, column or index each statement names. The INSERT
  text itself is modelled (`SqlText.InsertLineReads`).
- Fares.ParseFare: `re.IGNORECASE` and `\d` are modelled over ASCII
  only. Python's Unicode matching also folds 'İ' and 'ı' to 'i' and 'ſ'
  to 's' in "minimum fare" and "pamasahe". Its `\d` also matches every
  Unicode decimal digit, which `float()` accepts. So "Fare ١٣" gives
  (13, 13, "Fare ١٣") in Python but no fare in the model, and for
  "MİNİMUM FARE 13" Python's fare text is the whole string while the
  model's is "FARE 13". `[^0-9]` is ASCII in Python too and is modelled
  as written.
- Prd.ExtractRouteName: `\d` in `^ROUTE\s*#?\s*\d+\s*` is modelled as
  ASCII digits, so a title numbered in other Unicode decimal digits
  keeps its prefix in the model. `\s` is Python's `str.isspace` set,
  and the letters of "ROUTE" have no special case folds.
- Script.DumpSameTables: states that the drop and create lists have
  the same length and the same members, and `Script.DumpDropOrder` and
  `Script.DumpCreateOrder` state that each list is duplicate-free. No
  single multiset equation combines the three.
- Python's integers are unbounded, like Dafny's, so no width is modelled.
  Route numbers are plain `int`.

## Notes on the source

- `parse_kml_polylines` names an unnamed polyline `segment_<idx>`, with
  `idx` from `enumerate` over all placemarks (update_notebooks_with_geometry.py:86).
  Skipped placemarks therefore still use up an index, so the segment
  numbers can have gaps. The model follows the code
  (`Kml.UnnamedSegment`, `Kml.SkippedPlacemark`).
- A guide text such as "Minimum fare is ₱13.00, … up to ₱25" can read as
  a fare range. The range pattern needs a dash, "to" or an en dash right
  after the first number, with only whitespace between. So unless the
  text has one there, the single pattern gives (13, 13). The model
  follows the code.
