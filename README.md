# warsaw-transport in Dafny

warsaw-transport draws an isochrone map of Warsaw. The user clicks a point on the city map. The browser then runs a
time-dependent Dijkstra search over the public-transport network, starting at the nearest stop. Each stop is coloured
by the number of minutes it takes to reach it. Offline Python scripts prepare the inputs for the search:

- `scripts/transport_data.py` reads the ZTM timetable dump and the metro schedule. It writes `points.json`, the stops
  with their walking edges, and one `routes_<day>_<hour>.json` per day type and hour. Each of those files holds the
  departures of a two-hour window, grouped by destination and sorted by departure time.
- `scripts/shape_data.py` reads an image of the city. From it, it extracts the outline of the city as a row and a column
  border per pixel line, and the course of the Vistula river.

The model covers this core, one Dafny module per concern:

| module | file | models |
|---|---|---|
| `Common` | common.dfy | `Option` and `Result` |
| `Decimal` | decimal.dfy | decimal text of numbers: `toString()`, `%d`, `int()`, `parseInt` |
| `Departures` | departures.dfy | `routeLinearSearch`, and `routeBinSearch` as written and corrected |
| `PriorityQueue` | queue.dfy | a sequence-backed min-queue in place of the binary heap library |
| `Dijkstra` | dijkstra.dfy | the class `DijkstraAlgorithm`: `initState`, `visit`, `execute`, `getMinMaxCost` |
| `ShapeMask` | shape_mask.dfy | `isOutsideShape`, `isOutsideOverlay`, `drawBorders`, `setPixel` |
| `Colors` | colors.dfy | the colour bucket of `repaint`, `rgbToHex`, the tooltip label |
| `VoronoiRoutes` | voronoi_routes.dfy | `riverSide` and `initVoronoiRoutes` |
| `Settings` | settings.dfy | `createSelect`, `createHourSelect`, `createDaySelect`, the timetable address |
| `ZtmFormat` | ztm_format.dfy | `ZtmFormatIterator.run` and the string helpers it relies on |
| `ZtmRecords` | ztm_records.dfy | `as_time`, the stop record of `read_point`, the edges of `read_routes` |
| `MetroSchedule` | metro_schedule.dfy | `generate_metro_route` and the `"start"` windows of `generate_metro_routes` |
| `ZtmReader` | ztm_reader.dfy | the class `ZtmFormatReader` and its mutating readers |
| `ZtmWriter` | ztm_writer.dfy | `filter_routes`, `write_routes_file`, `write_routes`, `write_points` |
| `ShapeData` | shape_data.dfy | `process_line`, the river midpoints and the river padding |

The imperative parts keep their form:

- The search is a class. Its `points` table is reassigned in place, and its loops carry invariants.
- The queue is a class.
- The pixel buffer and the river list are arrays.
- The readers are a class whose `points`, `routesNum` and `routeTypes` fields the methods update.

Each method is proved against a specification function. The properties the source promises are then proved about that
function.

The search proofs rest on these facts:

- During a pass, costs only fall, and only through a strictly better offer.
- `visited` never reverts.
- Only unvisited stops are queued, and a popped stop that is already visited is skipped.
- An offer to a code missing from the table ends the search with `UnknownStop`, as the source fails there. The table
  need not cover every edge: only the edges of the stops the search expands are followed.
- With non-negative edges, the start keeps its initial cost, and every visited stop satisfies the relaxation condition
  when `execute` returns.

Non-negative edges are a real condition here. `read_routes` can produce negative durations across midnight, so the
fixpoint is stated under that hypothesis.

## Model

| member | source | states |
|---|---|---|
| `Decimal.NatToString` | src/map.ts:369 | the decimal text of a natural number: digits only, no leading zero, one digit exactly below ten |
| `Decimal.ParseInt` | scripts/transport_data.py:205 | decimal text is read exactly when it is a non-empty digit run, optionally signed |
| `Decimal.ParseIntOfNatToString` | scripts/transport_data.py:205 | reading back the decimal text of `n` gives `n` |
| `Decimal.NatToStringInjective` | src/map.ts:369 | different numbers have different decimal texts |
| `Departures.EarliestCatchable` | src/dijkstra.ts:61-69 | the index of the first departure at or after `current`, or -1 when every departure is earlier, including for no departures |
| `Departures.RouteLinearSearch` | src/dijkstra.ts:61-69 | the forward scan returns the earliest catchable index |
| `Departures.BinSearch` | src/dijkstra.ts:71-92 | -1 on no departures; 0 when the first departure is catchable; any non-negative result is a catchable index |
| `Departures.RouteBinSearch` | src/dijkstra.ts:71-92 | the loop with bounds `m`, `n` computes `BinSearch` |
| `Departures.BinSearchOnSorted` | src/dijkstra.ts:71-92 | on non-decreasing departures the binary search is negative exactly when nothing is catchable; otherwise it returns an index at or after the earliest catchable one, with the same departure time |
| `Departures.BinSearchAllEarlier` | src/dijkstra.ts:71-92 | when every departure has left, the result is `-len-1`, a negative value |
| `Departures.BinSearchAgreesOnStrictlyIncreasing` | src/dijkstra.ts:71-92 | with strictly increasing departures the binary and the linear search give the same result |
| `Departures.ExactMatchIsEarliestTime` | src/dijkstra.ts:61-69 | on non-decreasing departures, a departure at exactly `current` is the earliest catchable departure time |
| `Departures.BinSearchPicksLaterDuplicate` | src/dijkstra.ts:87-88 | on departures 5, 10, 10, 10 at time 10 the binary search returns index 2 and the linear search index 1, with different arrivals |
| `Departures.RouteLowerBoundSearch` | src/dijkstra.ts:71-92 | the corrected binary search returns the first catchable index on non-decreasing departures |
| `PriorityQueue.MinIndex` | src/dijkstra.ts:22 | the first entry of least priority under the comparator `a.priority - b.priority` |
| `PriorityQueue.MinQueue.constructor` | src/dijkstra.ts:22 | the queue starts empty |
| `PriorityQueue.MinQueue.Push` | src/dijkstra.ts:43 | the entry is added and nothing else changes |
| `PriorityQueue.MinQueue.Pop` | src/dijkstra.ts:25 | returns an entry of least priority; the queue loses exactly that entry |
| `Dijkstra.AnchorUnique` | src/dijkstra.ts:97-107 | at most one position qualifies as the starting stop |
| `Dijkstra.ExpandedRelaxes` | src/dijkstra.ts:38-58 | after expanding a stop whose cost did not change, no edge out of it offers a lower cost |
| `Dijkstra.RelaxedKept` | src/dijkstra.ts:41-42 | a relaxed stop stays relaxed while the costs of others only fall |
| `Dijkstra.ResetTable` | src/dijkstra.ts:97-107 | every stop is unvisited at `MAX_SAFE_INTEGER` except the start: the nearest stop with walking edges, the first of equally near ones, costed `start + floor(12 * dist)`; no start exactly when no stop has walking edges |
| `Dijkstra.DijkstraAlgorithm.constructor` | src/dijkstra.ts:14-18 | stores the table, the edges and the start time; any edge may lead to a code missing from the table |
| `Dijkstra.DijkstraAlgorithm.InitState` | src/dijkstra.ts:94-110 | the table is reset and the start picked as in `ResetTable`; `None` is the case that fails at line 108 |
| `Dijkstra.DijkstraAlgorithm.Visit` | src/dijkstra.ts:33-59 | marks the stop visited. Costs only fall, by strictly better offers. Only unvisited stops are queued, with their new cost. Each improved unvisited stop is queued. An offer to a code missing from the table ends the visit and names that code, an edge of the stop; without one the stop is `Expandable`, and with non-negative edges every stop gets the cheaper of its cost and the walk or earliest-trip offer. With non-negative edges an expandable stop never fails |
| `Dijkstra.DijkstraAlgorithm.WalkEdges` | src/dijkstra.ts:38-45 | each walking neighbour is offered the stop's cost plus the walk; the loop fails exactly when some walking neighbour is missing from the table, and names one |
| `Dijkstra.DijkstraAlgorithm.DriveEdges` | src/dijkstra.ts:47-58 | each timetable neighbour is offered the arrival of the earliest catchable trip, and nothing when there is none; a stop without timetable edges offers nothing. It fails only at a missing neighbour, and when it completes no missing neighbour has a catchable trip; with non-negative edges that is exactly when it completes |
| `Dijkstra.DijkstraAlgorithm.Improve` | src/dijkstra.ts:40-44 | a known stop takes a strictly better offer, and is queued when it is unvisited; otherwise nothing changes. A code missing from the table is reported, with nothing changed, where the source reads the cost of `undefined` |
| `Dijkstra.DijkstraAlgorithm.Execute` | src/dijkstra.ts:20-59 | fails with `NoStartingStop` exactly when no stop can start the search, and with `UnknownStop` only for a missing code that a visited stop has an edge to; in a closed graph it fails exactly when no stop can start. Otherwise the start is visited, and every unvisited stop keeps `MAX_SAFE_INTEGER`. With non-negative edges the start keeps its initial cost and every visited stop is relaxed |
| `Dijkstra.DijkstraAlgorithm.Drain` | src/dijkstra.ts:24-30 | popping until the queue is empty, skipping visited stops, keeps the start visited and ends at the relaxation fixpoint, or stops at a missing code that a visited stop has an edge to |
| `Dijkstra.MissingNotClosed` | src/dijkstra.ts:38-58 | a missing code reached by an edge of a visited stop shows that some edge leads outside the table |
| `Dijkstra.DijkstraAlgorithm.GetMinMaxCost` | src/dijkstra.ts:112-125 | the minimum is at most every cost and is attained, or is `MAX_SAFE_INTEGER`; the maximum is the largest cost below `MAX_SAFE_INTEGER`, or 0 when there is none |
| `ShapeMask.OverlayAdmitsColumnPastEnd` | src/map.ts:272-274 | the column one past the last border column counts as inside the overlay |
| `ShapeMask.OverlayCorrectedGuardsShape` | src/map.ts:266-274 | the corrected overlay test lets through exactly the pixels the shape test can index; it differs from the written test only at that column |
| `ShapeMask.ShapeTest` | src/map.ts:266-270 | with JavaScript's short-circuit `or`, the shape test fails exactly when the row border spans a column past the last `vborder` entry, and inside the columns it is `isOutsideShape` |
| `ShapeMask.HandlerRaisesPastEnd` | src/map.ts:151 | a row whose border reaches the column past the last makes the `mousemove` test as written raise there |
| `ShapeMask.HandlerCorrectedIsShape` | src/map.ts:151 | with the corrected overlay bound the `mousemove` test never raises and reports outside exactly when the pointer is not over the shape |
| `ShapeMask.HandlerAsWrittenAgrees` | src/map.ts:151 | when every row border ends before the column past the last, the test as written equals the corrected one |
| `ShapeMask.PixelBytes` | src/map.ts:257 | the four bytes of pixel `(j, i)` lie inside the `4 * w * h` buffer |
| `ShapeMask.PixelCleared` | src/map.ts:255-259 | a byte of pixel `(j, i)` is cleared exactly when the shape test reports that pixel outside |
| `ShapeMask.SetPixel` | src/map.ts:276-280 | the four bytes at `idx` take the given values, and every other byte is unchanged |
| `ShapeMask.DrawBorders` | src/map.ts:252-264 | every byte of a pixel outside the shape becomes 0, and every other byte keeps its value |
| `ShapeMask.DrawRow` | src/map.ts:256-261 | one row of the pass extends the masked prefix of the buffer by one row |
| `Colors.ColorIndexBounds` | src/map.ts:212 | the bucket is `min(cost - start, steps - 1)`: never past the last bucket, and valid for a stop reached no earlier than the start |
| `Colors.UnreachedInLastBucket` | src/map.ts:208-212 | a stop left at `MAX_SAFE_INTEGER` falls in the last bucket, for every selectable hour |
| `Colors.Lookup` | src/map.ts:213-214 | JavaScript array indexing: the element, or `undefined` outside the array |
| `Colors.Repaint` | src/map.ts:211-215 | each visible stop gets the colour of its bucket from `lookup` and its `#rrggbb` text from `hexLookup`, or `undefined` outside them |
| `Colors.RepaintColorDefined` | src/map.ts:211-215 | with one colour per bucket, every stop reached no earlier than the start gets a defined colour: that of its travel time, or the last |
| `Colors.RgbToHex` | src/map.ts:227-230 | `#` and then two lower-case hex digits per channel, in the order red, green, blue |
| `Colors.PackedBits` | src/map.ts:228-229 | the shifts and bitwise ors add the channels in place, and bit 24 sits above them |
| `Colors.PackedHex` | src/map.ts:229 | the hex text of the packed value is `1` followed by the six channel digits |
| `Colors.RgbToHexRoundTrip` | src/map.ts:227-230 | the colour text reads back as the three channels |
| `Colors.IndexOf` | src/map.ts:166 | the first position holding the text, or -1 exactly when it is absent |
| `Colors.TooltipOfGradientColor` | src/map.ts:166-170 | the label of gradient colour `i` is `i` and then ` min`, or `+ min` on the last bucket |
| `Colors.TooltipOfForeignColor` | src/map.ts:167-170 | white outside the gradient is labelled as bucket 0; any other foreign colour gets no label |
| `VoronoiRoutes.RiverSideOrdered` | src/map.ts:73-76 | the side is 1 exactly east of the river line and -1 otherwise; moving east never leaves the east side |
| `VoronoiRoutes.TravelTime` | src/map.ts:67 | `ceil(dist * 10)` |
| `VoronoiRoutes.InitVoronoiRoutes` | src/map.ts:59-71 | the loop over the edges computes `ApplyEdges` |
| `VoronoiRoutes.LastJoinSymmetric` | src/map.ts:63 | the last edge joining two sites is the same in either direction |
| `VoronoiRoutes.ApplyEdgesWrites` | src/map.ts:59-71 | a walking time between two sites is the time of the last edge joining them, when both sites are present and on the same river side; otherwise the walk is as before |
| `VoronoiRoutes.VoronoiRoutesSymmetric` | src/map.ts:68-69 | a joined pair has the same walking time in both directions |
| `VoronoiRoutes.ApplyEdgesKeepsGraph` | src/map.ts:59-71 | every walk still leads to a known stop and takes no negative time |
| `Settings.OptionTagsMarkSelection` | src/map.ts:379-382 | option `i` is marked selected exactly when its value is the selected value |
| `Settings.MarkDistinguishable` | src/map.ts:381 | the selected and the unselected rendering of an option differ |
| `Settings.CreateSelect` | src/map.ts:376-385 | the opening tag, one option per item in order, and the closing tag, joined |
| `Settings.HourItems` | src/map.ts:368-372 | there are 24 hour items |
| `Settings.HourItemReadsBack` | src/map.ts:368-372 | item `i` submits the text of `i`; its label is five characters, a two-digit hour and then `:00` |
| `Settings.HourValuesDistinct` | src/map.ts:368-372 | the hour items submit pairwise different values |
| `Settings.CreateHourSelect` | src/map.ts:366-374 | the hour selector over the 24 hour items, with hour 17 selected |
| `Settings.HourSelectMarksSeventeen` | src/map.ts:373 | exactly the option of hour 17 is marked selected |
| `Settings.CreateDaySelect` | src/map.ts:358-364 | the day selector over working day, Saturday and Sunday, with the working day selected |
| `Settings.DaySelectMarksWeek` | src/map.ts:363 | exactly the working-day option is marked selected |
| `Settings.SelectedHourFile` | src/map.ts:190-194 | the hour read back from the selected option names that hour's timetable file |
| `ZtmFormat.StripIsTrimmedSlice` | scripts/transport_data.py:44 | `strip()` returns a slice without surrounding white space, and is idempotent |
| `ZtmFormat.FindChar` | scripts/transport_data.py:205 | the first position of the separator, or -1 exactly when it is absent |
| `ZtmFormat.JoinSplit` | scripts/transport_data.py:205 | joining the parts of `split(sep)` with `sep` gives the text back |
| `ZtmFormat.SplitJoin` | scripts/transport_data.py:205 | splitting parts joined by a separator they lack gives the parts back |
| `ZtmFormat.WordsAreWords` | scripts/transport_data.py:180 | `split()` yields non-empty words without white space |
| `ZtmFormat.WordsOfSpaced` | scripts/transport_data.py:180 | `split()` of words joined by single spaces gives the words back |
| `ZtmFormat.FirstStart` | scripts/transport_data.py:45 | the first line from a position that opens a block, and none before it |
| `ZtmFormat.FirstEnd` | scripts/transport_data.py:48 | the first line from a position that closes a block, and none before it |
| `ZtmFormat.RunReadsFramedBlock` | scripts/transport_data.py:39-53 | lines before the opening line are dropped; the stripped lines strictly between the markers are handed over; reading stops after the closing line |
| `ZtmFormat.RunProgress` | scripts/transport_data.py:39-53 | each call consumes at least one line, and a handed-over block contains no closing line |
| `ZtmFormat.RunNoStart` | scripts/transport_data.py:42-43 | with no opening line left, the stream is exhausted and nothing is handed over |
| `ZtmFormat.RunNoEnd` | scripts/transport_data.py:42-43 | with no closing line after the opening one, the stream is exhausted and nothing is handed over |
| `ZtmFormat.ReadBlock` | scripts/transport_data.py:39-53 | the `append_mode` loop computes `RunResult` |
| `ZtmFormat.ZtmFormatIterator.constructor` | scripts/transport_data.py:29-33 | the iterator sits at the given position of the stream, for the given tag |
| `ZtmFormat.ZtmFormatIterator.Run` | scripts/transport_data.py:39-53 | hands over the block `RunResult` gives and advances the shared stream past it |
| `ZtmRecords.AsTime` | scripts/transport_data.py:204-207 | a time is always a minute of the day |
| `ZtmRecords.AsTimeOfClock` | scripts/transport_data.py:204-207 | `H<sep>M` reads as `(H * 60 + M) mod 1440` |
| `ZtmRecords.AsTimeNeedsSeparator` | scripts/transport_data.py:205-206 | text without the separator is not a time |
| `ZtmRecords.AsTimePastMidnight` | scripts/transport_data.py:207 | an hour of 24 or more wraps to the next day |
| `ZtmRecords.FirstDecimal` | scripts/transport_data.py:164-165 | the first match of `\d+\.\d+`, and none before it |
| `ZtmRecords.DecimalTextReadWhole` | scripts/transport_data.py:164-165 | a field that is a whole decimal number matches as a whole |
| `ZtmRecords.NoPointNoDecimal` | scripts/transport_data.py:164-166 | a field without a point has no coordinate |
| `ZtmRecords.TrimCharIsSlice` | scripts/transport_data.py:175 | `strip(",")` returns the slice without surrounding commas |
| `ZtmRecords.StopOf` | scripts/transport_data.py:163-177 | the stop has the record's code and no routes; its location is present exactly when both coordinate fields hold a decimal number |
| `ZtmRecords.ReadRecord` | scripts/transport_data.py:185-188 | a record reads when it has four fields and a time; course, stop, type and time are taken from them |
| `ZtmRecords.CourseEdgesExactly` | scripts/transport_data.py:184-194 | an edge is added for exactly the records that continue the course of the record before them, in order |
| `ZtmRecords.CourseEdgesMatch` | scripts/transport_data.py:189-190 | each added edge runs from the previous record's stop to the record's stop |
| `ZtmRecords.OneCourseEdges` | scripts/transport_data.py:184-194 | within one course, edge `i` joins record `i` to record `i + 1`; the first record adds nothing |
| `ZtmRecords.EdgeAtArrivesLate` | scripts/transport_data.py:188-190 | the edge starts at the later record's time, with duration `later - earlier`, so it arrives one duration after the later record's time |
| `ZtmRecords.AppendRoutesOf` | scripts/transport_data.py:196-202 | the routes of a stop gain exactly the edges from it, in order |
| `ZtmRecords.AppendRoutesConcat` | scripts/transport_data.py:196-202 | adding two batches of edges is adding their concatenation |
| `MetroSchedule.MetroEdgesAt` | scripts/transport_data.py:137-144 | edge `j` of a train runs from station `j` to station `j + 1`. It departs at `start` plus the travel times before it, always before minute 1440. The train stops at the end of the line or at the first departure past midnight |
| `MetroSchedule.MetroFromAt` | scripts/transport_data.py:139-144 | the same, from any station on with the time accumulated so far |
| `MetroSchedule.ParseWindows` | scripts/transport_data.py:110-112 | on success every window has both bounds as minutes of the day |
| `MetroSchedule.ParseWindowsAt` | scripts/transport_data.py:110-112 | each window's bounds are those its texts read as, and its offsets are kept |
| `MetroSchedule.FirstInvalid` | scripts/transport_data.py:129-135 | the number of served windows before the first one without train offsets |
| `MetroSchedule.MidnightFirstWindowSkipped` | scripts/transport_data.py:117-119 | a single first window that ends at midnight is skipped without a train |
| `ZtmReader.ZtmFormatReader.constructor` | scripts/transport_data.py:63-69 | no stops, no routes counted, no route types |
| `ZtmReader.ZtmFormatReader.ReadPoint` | scripts/transport_data.py:163-177 | the stop of the record replaces any stop with its code, and nothing else changes; a line of fewer than six fields raises before anything is stored |
| `ZtmReader.ZtmFormatReader.AddRoute` | scripts/transport_data.py:196-202 | the edge is appended to the stop's routes, the count grows by one, and the type is recorded |
| `ZtmReader.ZtmFormatReader.ReadRoutes` | scripts/transport_data.py:179-194 | the stops gain exactly the course edges of the records, the count grows by their number, and their types are recorded |
| `ZtmReader.ZtmFormatReader.ReadRecords` | scripts/transport_data.py:184-194 | the loop over the split records adds the course edges |
| `ZtmReader.ZtmFormatReader.ReadRecordAt` | scripts/transport_data.py:185-194 | one pass of the loop: it adds the edge when the record continues the course, and moves the previous stop and time on |
| `ZtmReader.ZtmFormatReader.GenerateMetroRoutes` | scripts/transport_data.py:108-135 | adds exactly the edges `MetroRoutes` gives, and completes as `MetroRoutes` says |
| `ZtmReader.ZtmFormatReader.ReadWindows` | scripts/transport_data.py:110-112 | computes `ParseWindows` |
| `ZtmReader.ZtmFormatReader.ServeWindows` | scripts/transport_data.py:114-135 | the window loop adds the edges of the served windows in order |
| `ZtmReader.ZtmFormatReader.ServeWindow` | scripts/transport_data.py:130-132 | one train per offset, leaving at the window's start plus the offset |
| `ZtmReader.ZtmFormatReader.GenerateMetroRoute` | scripts/transport_data.py:137-144 | adds exactly the train's edges, and the count grows by their number |
| `ZtmWriter.WindowKeeps` | scripts/transport_data.py:304-306 | window `i` keeps a departure `d` minutes after its start when `d <= 120`; the two windows that wrap past midnight need `0 < d < 120` |
| `ZtmWriter.WrappingWindowDropsStart` | scripts/transport_data.py:305-306 | the wrapping windows drop a departure at their own start, which the corrected test keeps |
| `ZtmWriter.WindowKeepsCorrected` | scripts/transport_data.py:304-306 | the corrected test keeps exactly the departures at most 120 minutes after the start, for all 24 windows |
| `ZtmWriter.InsertByDeparture` | scripts/transport_data.py:315 | inserting adds one entry |
| `ZtmWriter.SortByDeparture` | scripts/transport_data.py:315 | sorting keeps the length |
| `ZtmWriter.SortKeepsOrder` | scripts/transport_data.py:315 | the sorted departures are non-decreasing |
| `ZtmWriter.SortMultiset` | scripts/transport_data.py:315 | the sort is a permutation |
| `ZtmWriter.SortDepartingAt` | scripts/transport_data.py:315 | the sort is stable: the entries at any one departure time keep their input order |
| `ZtmWriter.SortByDepartureIsStableSort` | scripts/transport_data.py:315 | the three facts together |
| `ZtmWriter.GroupedIsKept` | scripts/transport_data.py:308-314 | grouping fails exactly when a route of a kept type has no start. Otherwise a destination has a list exactly when some route to it is kept, and the list holds the kept trips in input order |
| `ZtmWriter.FilteredTimetable` | scripts/transport_data.py:302-315 | the filtered timetable fails as grouping does. Its destinations are those with kept trips, and each list is a stable sort of the kept trips by departure |
| `ZtmWriter.FilterRoutes` | scripts/transport_data.py:302-315 | the loop and the final comprehension compute `Filtered`, with the corrected window test |
| `ZtmWriter.RoutesFileFails` | scripts/transport_data.py:293-300 | the file fails exactly when the filtering of some stop fails |
| `ZtmWriter.RoutesFileKeys` | scripts/transport_data.py:293-300 | every entry of the file is the non-empty filtered timetable of some stop, under that stop's code |
| `ZtmWriter.RoutesFileEntry` | scripts/transport_data.py:293-300 | for distinct codes, a stop with kept trips appears with its filtered timetable, and a stop without them is omitted |
| `ZtmWriter.WriteRoutesFile` | scripts/transport_data.py:293-300 | the loop over the stops computes `RoutesFile` |
| `ZtmWriter.Jobs` | scripts/transport_data.py:285-291 | there are 72 files, 24 per day type |
| `ZtmWriter.JobsOfDay` | scripts/transport_data.py:285-291 | file `24 * d + i` is window `i` of day type `d`, with that day type's route types |
| `ZtmWriter.FilesAt` | scripts/transport_data.py:279-291 | file `k` is named `routes_<day>_<i>.json` and holds the routes file of window `i`, from `60 * i` to `(60 * i + 120) mod 1440` |
| `ZtmWriter.WriteRoutes` | scripts/transport_data.py:279-291 | the two loops write exactly the files `Files` gives for the 72 windows |
| `ZtmWriter.WriteDay` | scripts/transport_data.py:286-291 | the inner loop writes the 24 windows of one day type |
| `ZtmWriter.RequestedFileIsWritten` | scripts/transport_data.py:287-289 | the file the map requests for a day and an hour is the file written for that day type's window at that hour |
| `ZtmWriter.WalkMapLastWins` | scripts/transport_data.py:320 | the walking map holds exactly the destinations of WALK routes, each with the time of the last such route |
| `ZtmWriter.PointsFileEntries` | scripts/transport_data.py:317-322 | for distinct codes, every stop appears with its location and its walking map |
| `ZtmWriter.WritePoints` | scripts/transport_data.py:317-322 | the loop over the stops computes `PointsFile` |
| `ShapeData.FirstTrue` | scripts/shape_data.py:40-44 | the first matching index from a position on, or none; nothing matches before it |
| `ShapeData.LastTrueDown` | scripts/shape_data.py:45-49 | the last matching index in `[lo, j]`, or none; nothing matches after it |
| `ShapeData.LineBorderBounds` | scripts/shape_data.py:37-50 | `0 <= min <= max`, and `max < size` for a non-empty line. Nothing matches below `min` or above `max`, and every match lies between them. Index 0 is never chosen as the maximum |
| `ShapeData.ProcessLine` | scripts/shape_data.py:37-50 | the two loops with `break` compute `LineBorder` |
| `ShapeData.PassingPixelInsideShape` | scripts/shape_data.py:13-15 | a visible pixel lies inside the shape that its row and column borders describe |
| `ShapeData.HandlerTestOnPicture` | scripts/shape_data.py:13-15 | on the borders of a picture the map's `mousemove` test as written never raises and reports outside exactly when the pointer is not over the shape |
| `ShapeData.RiverLineWithin` | scripts/shape_data.py:19 | each river midpoint lies between the bounds of its row |
| `ShapeData.PaddedShape` | scripts/shape_data.py:21-24 | the corrected padding fails exactly when no entry is positive. Otherwise it keeps the length, fills the entries before the first positive one with that value, keeps the middle, and fills the entries after the last positive one with that value |
| `ShapeData.PaddedAsWrittenTopRow` | scripts/shape_data.py:22-24 | as written, a positive first entry overwrites the last entry |
| `ShapeData.PaddedAsWrittenShifted` | scripts/shape_data.py:22-24 | as written, the suffix fill starts one entry before the last positive one |
| `ShapeData.NegativeSearchFinds` | scripts/shape_data.py:22 | the backward search inspects `river[-idx]` and finds the last positive entry when the first entry is not positive |
| `ShapeData.PaddingCounterexamples` | scripts/shape_data.py:21-24 | concrete rivers on which the written padding and the corrected one differ |
| `ShapeData.FillRange` | scripts/shape_data.py:23-24 | a slice assignment of one repeated value, and nothing else changes |
| `ShapeData.PadRiverAsWritten` | scripts/shape_data.py:21-24 | the array ends as `PaddedAsWritten` says, and is unchanged when no entry is positive |
| `ShapeData.PadRiver` | scripts/shape_data.py:21-24 | the array ends as the corrected `Padded` says, and is unchanged when no entry is positive |

## Left out

- Floating point: `distance` is a caller-supplied map from stop code to a non-negative real. The reals are exact, so
  rounding in `12 * min` and in `dist * 10` is not modelled.
- The colour gradient values (`gradientValue`, `createGradientLookup`) are floating point; the lookup tables are
  parameters.
- `pixelPosition` and the visible-point box test are floating point.
- JavaScript numbers and Python integers are unbounded integers, so JavaScript's rounding above 2^53 is not modelled.
  `MAX_SAFE_INTEGER` (2^53 - 1), the cost of an unreached stop, is only compared against and subtracted from. A
  starting stop's distance is accepted below that bound, so `start + floor(12 * min)` could pass 2^53 in the model;
  real distances and timetable minutes keep every sum far below it.
- The binary heap library is replaced by a sequence-backed queue. Which of several entries of equal least priority pops
  first is left open, so the search is proved for every choice.
- `Object.keys` and dictionary iteration order: the stop table is a map. The order `initState` scans is an explicit
  sequence, and the neighbours in `visit` are taken in any order.
- Leaflet, DOM and canvas plumbing are left out: `initMap`, `initOverlay`, the tooltip's display and position,
  `drawCenter`, `drawVoronoiDiagram`, `toDataURL`, the settings control.
- In `onHover` and `onClick`, only the overlay and shape tests and the tooltip label are modelled.
- `requestRepaint`'s `jQuery.ajax` load and its cache of the last hour and day are left out. Only the address is
  modelled.
- The Voronoi tessellation is an external library. Its edges are an input.
- `randomColor`, `randomSites` and `randomSite` are randomness.
- MetroSchedule.MetroRoutes: the `"rate"` branch of `generate_metro_routes` draws from `random.choice`. A window without
  `"start"` offsets is treated as the raising branch.
- The metro data is JSON loaded by `read_metro` and `read_metro_line`. The stations are assumed known
  (`StationsKnown`), as `read_metro_line` registers them first.
- File, FTP, 7z and JSON I/O are left out: `download_ftp`, `decompress_data`, `read`, `__write_json`, `process_image`'s
  PIL loading and writing, and the `__main__` blocks. The writer returns file names and contents instead.
- `read_points`' line regex and `re.split` are left out. `ReadPoint` takes the split fields.
- `float()` of a coordinate is kept as its matched text.
- `ZtmPostProcessor` (`fill_missing_values`, `add_walk_routes`, `dist`) is floating-point post-processing, and not part
  of this model.
- ZtmReader.ZtmFormatReader.ReadRoutes: requires a non-empty block, that every line splits into at least four fields
  with a time, and that every continuing course starts from a known stop. On an empty block the source raises an
  `IndexError` at `records[0][0]`; on other input it raises an `IndexError`, a `ValueError` or an `AttributeError`.
  The model does not reproduce these.
- ZtmRecords.AsTime: Python's `int()` also accepts surrounding white space and `_` between digits; the model reads
  plain, optionally signed, digit runs.
- Strings are sequences of characters, with no Unicode normalisation. `strip()` and `split()` use Python's full set of
  white-space characters. `\d` and `int()` read only the ASCII digits (`DecimalAt`, `ParseInt`), while Python also
  accepts other Unicode decimal digits; the windows-1250 export holds no others.
- ZtmWriter.RoutesFileEntry: stated for distinct stop codes. The source iterates the values of a dictionary keyed by
  code, so a repeated code cannot occur there. If one did, the source would keep the last non-empty timetable, since
  it skips empty ones, and `RoutesFile` does the same; only the distinct case is proved.
- ZtmWriter.PointsFileEntries: stated for distinct stop codes, for the same reason. With a repeated code both the
  source and `PointsFile` would keep the last stop's entry.
- ZtmWriter.Filtered: Python dictionaries keep insertion order in the JSON text; the model's maps do not.
- ZtmWriter.FilterRoutes: the windows for 22:00 and 23:00 keep the departures at both of their bounds, as the corrected
  window test does (see Findings). As written they drop them; `ZtmWriter.InWindow` keeps the written test.
- `StopIteration` and exceptions become `Option`, `Result` or a `bool` result.
- ZtmReader.ZtmFormatReader.GenerateMetroRoutes: requires a travel time for fewer pairs than there are stations
  (`LineShape`). With as many times as stations, a train that is still running at the last station makes
  `generate_metro_route` raise an `IndexError` after adding part of its edges; the model does not reproduce that.
  It also takes each station to be the table entry of its code. The source appends to the line's own station record,
  which `read_metro_line` registers under its code, so the two are the same object only while no later station of
  the line has the same code. With a repeated code the table keeps the later record, and the edges appended to the
  earlier one are counted but lost from the table; the model gives them to the table entry. The aliasing of the
  line's records with the table is not modelled, so the model is faithful only for lines without a repeated code.
- ZtmReader.ZtmFormatReader.GenerateMetroRoute: requires `LineShape` for the same reason, and appends each edge to the
  table entry of the station's code rather than to the line's own station record; the two differ only on a line
  with a repeated code.
- ZtmReader.ZtmFormatReader.ServeWindows: requires `LineShape`, and takes stations as table entries, as above.
- ZtmReader.ZtmFormatReader.ServeWindow: requires `LineShape`, and takes stations as table entries, as above.
- Dijkstra.DijkstraAlgorithm.Execute: the relaxation fixpoint and the start's final cost are proved only when no edge
  takes negative time. Across midnight `read_routes` can produce such edges, and then the search is not a shortest-path
  search.

## Findings

| source | as written | input that shows it | evidently intended | confidence | as-written member | corrected member |
|---|---|---|---|---|---|---|
| src/dijkstra.ts:71-92 | `routeBinSearch` returns on an exact match at once, which can be a later duplicate of the earliest catchable departure | departures `[5,1]`, `[10,5]`, `[10,7]`, `[10,9]` at time 10: index 2, arriving at 17, where the linear search gives index 1, arriving at 15 | the first catchable index, as `routeLinearSearch` returns | not executed | `Departures.BinSearchPicksLaterDuplicate` | `Departures.RouteLowerBoundSearch` |
| scripts/shape_data.py:22-24 | the backward search reports index `len - 1 - idx` for the entry `river[-idx]`, which sits at `len - idx`, so the suffix fill starts one entry early | river `[0, 3, 4, 0]` pads to `[3, 4, 4, 4]` instead of `[3, 3, 4, 4]`; river `[5, 0, 7, 8]` becomes `[5, 0, 7, 5]` | fill the entries after the last positive one with that value | not executed | `ShapeData.PaddingCounterexamples` | `ShapeData.PaddedShape` |
| scripts/transport_data.py:304-306 | the wrapping windows keep `rs > start or rs < end`, dropping both bounds, while the other windows keep both | a trip departing at 22:00 (minute 1320) is in no file for the 22:00 window | keep the departures from the start to the end inclusive, as in the non-wrapping windows | not executed | `ZtmWriter.WrappingWindowDropsStart` | `ZtmWriter.WindowKeepsCorrected` |
| src/map.ts:272-274 | `isOutsideOverlay` admits column `x == vborder.length`, where `isOutsideShape` reads `vborder[x]` as `undefined`; the `mousemove` test then raises if that row's border spans the column | a row border `[0, vborder.length]` and a pointer in the column just right of the image; on borders that `shape_data.py` computes no row border reaches that column, so there is no observable effect | `x >= vborder.length` counts as outside | not executed | `ShapeMask.HandlerRaisesPastEnd` | `ShapeMask.HandlerCorrectedIsShape` |
