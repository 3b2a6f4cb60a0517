/**
 * `ZtmJsonWriter` of scripts/transport_data.py: the timetable files the
 * routing engine loads, one per day type and two-hour window, and the stop
 * file with the walking edges. Serialising the objects to JSON and writing
 * them to disk are left to the caller: the model computes the objects that
 * are written. The stops are taken in the order the writer's dictionary
 * enumerates them.
 */
module ZtmWriter {
  import opened Common
  import opened Decimal
  import opened ZtmRecords
  import opened Departures
  import Settings

  /** One timetable: the departures of every timetable edge leaving a stop, by destination. */
  type Timetable = map<string, seq<TimedRoute>>

  /**
   * The failure of `filter_routes`: a route of a selected day type without
   * a departure cannot be compared with the window bounds.
   */
  datatype WriteError = UndatedRoute(to: string)

  // ---------------------------------------------------------------------
  // The window test
  // ---------------------------------------------------------------------

  /**
   * The window test of `filter_routes` as written: whether a departure at
   * `rs` is kept. A window that does not wrap past midnight keeps both of its
   * bounds; a wrapping one keeps neither.
   */
  predicate InWindow(rs: int, start: int, end: int)
  {
    if end < start then rs > start || rs < end
    else !(rs < start || rs > end)
  }

  /** The window test as evidently intended: both bounds belong to the window, wrapping or not. */
  predicate InWindowCorrected(rs: int, start: int, end: int)
  {
    if end < start then rs >= start || rs <= end
    else start <= rs <= end
  }

  /** The first minute of window `i` of a day. */
  function WindowStart(i: nat): int
  {
    60 * i
  }

  /** The last minute of window `i`: two hours later, wrapped past midnight. */
  function WindowEnd(i: nat): int
  {
    (60 * i + 120) % MINUTES_PER_DAY
  }

  /**
   * As written, window `i` keeps a departure `d` minutes after its start
   * (counting past midnight) exactly when `d` is at most 120, except for
   * the two windows that wrap past midnight (`i` = 22 and 23), which drop
   * the departures exactly at their start and at their end.
   */
  lemma WindowKeeps(i: nat, rs: int)
    requires i < 24 && 0 <= rs < MINUTES_PER_DAY
    ensures var d := (rs - WindowStart(i)) % MINUTES_PER_DAY;
            InWindow(rs, WindowStart(i), WindowEnd(i)) <==> (if i < 22 then d <= 120 else 0 < d < 120)
  {
  }

  /** The two wrapping windows drop a departure exactly at their start, which the corrected test keeps. */
  lemma WrappingWindowDropsStart(i: nat)
    requires 22 <= i < 24
    ensures !InWindow(WindowStart(i), WindowStart(i), WindowEnd(i))
    ensures InWindowCorrected(WindowStart(i), WindowStart(i), WindowEnd(i))
  {
  }

  /** With the corrected test every window keeps exactly the departures at most 120 minutes after its start. */
  lemma WindowKeepsCorrected(i: nat, rs: int)
    requires i < 24 && 0 <= rs < MINUTES_PER_DAY
    ensures InWindowCorrected(rs, WindowStart(i), WindowEnd(i)) <==> (rs - WindowStart(i)) % MINUTES_PER_DAY <= 120
  {
  }

  // ---------------------------------------------------------------------
  // Sorting by departure
  // ---------------------------------------------------------------------

  /** `s` with `x` inserted after every departure not later than its own. */
  function InsertByDeparture(s: seq<TimedRoute>, x: TimedRoute): (r: seq<TimedRoute>)
    ensures |r| == |s| + 1
  {
    if s == [] || s[|s| - 1].departure <= x.departure then s + [x]
    else InsertByDeparture(s[..|s| - 1], x) + [s[|s| - 1]]
  }

  /** `sorted(s, key=lambda item: item[0])`, a stable sort by departure. */
  function SortByDeparture(s: seq<TimedRoute>): (r: seq<TimedRoute>)
    ensures |r| == |s|
  {
    if s == [] then [] else InsertByDeparture(SortByDeparture(s[..|s| - 1]), s[|s| - 1])
  }

  /** The trips of `s` departing at minute `t`, in order. */
  function DepartingAt(s: seq<TimedRoute>, t: int): seq<TimedRoute>
  {
    if s == [] then []
    else DepartingAt(s[..|s| - 1], t) + (if s[|s| - 1].departure == t then [s[|s| - 1]] else [])
  }

  /** No trip of `s` departs after `d`. */
  predicate AllAtMost(s: seq<TimedRoute>, d: int)
  {
    forall i :: 0 <= i < |s| ==> s[i].departure <= d
  }

  lemma {:induction false} InsertAtMost(s: seq<TimedRoute>, x: TimedRoute, d: int)
    requires AllAtMost(s, d) && x.departure <= d
    ensures AllAtMost(InsertByDeparture(s, x), d)
    decreases |s|
  {
    if s != [] && s[|s| - 1].departure > x.departure {
      InsertAtMost(s[..|s| - 1], x, d);
    }
  }

  lemma {:induction false} InsertKeepsOrder(s: seq<TimedRoute>, x: TimedRoute)
    requires NonDecreasing(s)
    ensures NonDecreasing(InsertByDeparture(s, x))
    decreases |s|
  {
    if s != [] && s[|s| - 1].departure > x.departure {
      var init, last := s[..|s| - 1], s[|s| - 1];
      InsertKeepsOrder(init, x);
      InsertAtMost(init, x, last.departure);
      var r := InsertByDeparture(init, x);
      assert forall i :: 0 <= i < |r| ==> (r + [last])[i] == r[i];
    }
  }

  lemma {:induction false} InsertMultiset(s: seq<TimedRoute>, x: TimedRoute)
    ensures multiset(InsertByDeparture(s, x)) == multiset(s) + multiset{x}
    decreases |s|
  {
    if s != [] && s[|s| - 1].departure > x.departure {
      var init, last := s[..|s| - 1], s[|s| - 1];
      InsertMultiset(init, x);
      assert s == init + [last];
    }
  }

  lemma DepartingAtSnoc(s: seq<TimedRoute>, x: TimedRoute, t: int)
    ensures DepartingAt(s + [x], t) == DepartingAt(s, t) + (if x.departure == t then [x] else [])
  {
    assert (s + [x])[..|s|] == s;
  }

  lemma {:induction false} InsertDepartingAt(s: seq<TimedRoute>, x: TimedRoute, t: int)
    ensures DepartingAt(InsertByDeparture(s, x), t) == DepartingAt(s, t) + (if x.departure == t then [x] else [])
    decreases |s|
  {
    if s == [] || s[|s| - 1].departure <= x.departure {
      DepartingAtSnoc(s, x, t);
    } else {
      var init, last := s[..|s| - 1], s[|s| - 1];
      InsertDepartingAt(init, x, t);
      DepartingAtSnoc(InsertByDeparture(init, x), last, t);
    }
  }

  /**
   * The sort orders the trips by departure, keeps every trip, and keeps
   * the trips departing at the same minute in their input order: it is
   * the stable sort the timetable needs.
   */
  lemma SortByDepartureIsStableSort(s: seq<TimedRoute>, t: int)
    ensures NonDecreasing(SortByDeparture(s))
    ensures multiset(SortByDeparture(s)) == multiset(s)
    ensures DepartingAt(SortByDeparture(s), t) == DepartingAt(s, t)
  {
    SortKeepsOrder(s);
    SortMultiset(s);
    SortDepartingAt(s, t);
  }

  lemma {:induction false} SortKeepsOrder(s: seq<TimedRoute>)
    ensures NonDecreasing(SortByDeparture(s))
    decreases |s|
  {
    if s != [] {
      SortKeepsOrder(s[..|s| - 1]);
      InsertKeepsOrder(SortByDeparture(s[..|s| - 1]), s[|s| - 1]);
    }
  }

  lemma {:induction false} SortMultiset(s: seq<TimedRoute>)
    ensures multiset(SortByDeparture(s)) == multiset(s)
    decreases |s|
  {
    if s != [] {
      var init, last := s[..|s| - 1], s[|s| - 1];
      SortMultiset(init);
      InsertMultiset(SortByDeparture(init), last);
      assert s == init + [last];
    }
  }

  lemma {:induction false} SortDepartingAt(s: seq<TimedRoute>, t: int)
    ensures DepartingAt(SortByDeparture(s), t) == DepartingAt(s, t)
    decreases |s|
  {
    if s != [] {
      SortDepartingAt(s[..|s| - 1], t);
      InsertDepartingAt(SortByDeparture(s[..|s| - 1]), s[|s| - 1], t);
    }
  }

  // ---------------------------------------------------------------------
  // filter_routes
  // ---------------------------------------------------------------------

  /**
   * Whether `filter_routes` keeps `route`: its day type is selected and it
   * departs in the window, both bounds included also when the window wraps.
   */
  predicate Keeps(route: Route, start: int, end: int, types: set<string>)
  {
    route.rtype in types && route.start.Some? && InWindowCorrected(route.start.value, start, end)
  }

  /** A route of a selected day type without a departure, on which `filter_routes` raises. */
  predicate Undated(route: Route, types: set<string>)
  {
    route.rtype in types && route.start.None?
  }

  /** The departure and travel time of every kept route to `to`, in input order. */
  function KeptTo(routes: seq<Route>, start: int, end: int, types: set<string>, to: string): seq<TimedRoute>
  {
    if routes == [] then []
    else
      var r := routes[|routes| - 1];
      KeptTo(routes[..|routes| - 1], start, end, types, to) +
      (if Keeps(r, start, end, types) && r.to == to then [TimedRoute(r.start.value, r.time)] else [])
  }

  /** The lists `filter_routes` collects before sorting: the kept trips by destination, in input order. */
  function Grouped(routes: seq<Route>, start: int, end: int, types: set<string>): Result<Timetable, WriteError>
  {
    if routes == [] then Success(map[])
    else
      match Grouped(routes[..|routes| - 1], start, end, types)
      case Failure(e) => Failure(e)
      case Success(res) =>
        var route := routes[|routes| - 1];
        if route.rtype !in types then Success(res)
        else if route.start.None? then Failure(UndatedRoute(route.to))
        else if !InWindowCorrected(route.start.value, start, end) then Success(res)
        else
          var list := if route.to in res then res[route.to] else [];
          Success(res[route.to := list + [TimedRoute(route.start.value, route.time)]])
  }

  /** What `filter_routes` returns: the collected lists, each sorted by departure. */
  function Filtered(routes: seq<Route>, start: int, end: int, types: set<string>): Result<Timetable, WriteError>
  {
    match Grouped(routes, start, end, types)
    case Failure(e) => Failure(e)
    case Success(res) => Success(map to | to in res :: SortByDeparture(res[to]))
  }

  lemma {:induction false} GroupedFailureSticks(routes: seq<Route>, start: int, end: int, types: set<string>, i: nat)
    requires i <= |routes| && Grouped(routes[..i], start, end, types).Failure?
    ensures Grouped(routes, start, end, types) == Grouped(routes[..i], start, end, types)
    decreases |routes|
  {
    if i < |routes| {
      var init := routes[..|routes| - 1];
      assert init[..i] == routes[..i];
      GroupedFailureSticks(init, start, end, types, i);
    } else {
      assert routes[..i] == routes;
    }
  }

  /**
   * The collected lists hold, for every destination, exactly the kept
   * trips to it in input order, and a destination without kept trips has
   * no list; collecting fails exactly when some route of a selected type
   * has no departure.
   */
  lemma {:induction false} GroupedIsKept(routes: seq<Route>, start: int, end: int, types: set<string>, to: string)
    ensures Grouped(routes, start, end, types).Failure? <==> exists i :: 0 <= i < |routes| && Undated(routes[i], types)
    ensures var g := Grouped(routes, start, end, types);
            g.Success? ==> (to in g.value <==> KeptTo(routes, start, end, types, to) != []) &&
                           (to in g.value ==> g.value[to] == KeptTo(routes, start, end, types, to))
    decreases |routes|
  {
    if routes != [] {
      var init := routes[..|routes| - 1];
      GroupedIsKept(init, start, end, types, to);
      assert forall i :: 0 <= i < |init| ==> init[i] == routes[i];
    }
  }

  /**
   * What `filter_routes` promises the routing engine: for every
   * destination, the kept trips to it and no others, sorted by departure,
   * with the trips departing at the same minute in input order; and a
   * failure exactly when a route of a selected type has no departure.
   */
  lemma FilteredTimetable(routes: seq<Route>, start: int, end: int, types: set<string>, to: string, t: int)
    ensures Filtered(routes, start, end, types).Failure? <==> exists i :: 0 <= i < |routes| && Undated(routes[i], types)
    ensures var f := Filtered(routes, start, end, types);
            f.Success? ==>
              (to in f.value <==> KeptTo(routes, start, end, types, to) != []) &&
              (to in f.value ==>
                 NonDecreasing(f.value[to]) &&
                 multiset(f.value[to]) == multiset(KeptTo(routes, start, end, types, to)) &&
                 DepartingAt(f.value[to], t) == DepartingAt(KeptTo(routes, start, end, types, to), t))
  {
    GroupedIsKept(routes, start, end, types, to);
    SortByDepartureIsStableSort(KeptTo(routes, start, end, types, to), t);
  }

  /**
   * `filter_routes`: collects the kept routes by destination in a loop,
   * then sorts every list by departure. The window test is the corrected
   * one; `InWindow` is the test as written.
   */
  method FilterRoutes(routes: seq<Route>, start: int, end: int, types: set<string>) returns (r: Result<Timetable, WriteError>)
    ensures r == Filtered(routes, start, end, types)
  {
    var res: Timetable := map[];
    for i := 0 to |routes|
      invariant Grouped(routes[..i], start, end, types) == Success(res)
    {
      assert routes[..i + 1][..i] == routes[..i] && routes[..i + 1][i] == routes[i];
      var route := routes[i];
      if route.rtype !in types {
        continue;
      }
      if route.start.None? {
        GroupedFailureSticks(routes, start, end, types, i + 1);
        return Failure(UndatedRoute(route.to));
      }
      if !InWindowCorrected(route.start.value, start, end) {
        continue;
      }
      var list := if route.to in res then res[route.to] else [];
      res := res[route.to := list + [TimedRoute(route.start.value, route.time)]];
    }
    assert routes[..|routes|] == routes;
    r := Success(map to | to in res :: SortByDeparture(res[to]));
  }

  // ---------------------------------------------------------------------
  // write_routes_file and write_routes
  // ---------------------------------------------------------------------

  /** No two stops share a code, as with the values of a dictionary keyed by code. */
  predicate DistinctCodes(stops: seq<Stop>)
  {
    forall i, j :: 0 <= i < j < |stops| ==> stops[i].code != stops[j].code
  }

  /** The object `write_routes_file` writes: the timetable of every stop that keeps any trip, by stop code. */
  function RoutesFile(stops: seq<Stop>, start: int, end: int, types: set<string>): Result<map<string, Timetable>, WriteError>
  {
    if stops == [] then Success(map[])
    else
      match RoutesFile(stops[..|stops| - 1], start, end, types)
      case Failure(e) => Failure(e)
      case Success(res) =>
        var point := stops[|stops| - 1];
        match Filtered(point.routes, start, end, types)
        case Failure(e) => Failure(e)
        case Success(table) => if |table| == 0 then Success(res) else Success(res[point.code := table])
  }

  lemma {:induction false} RoutesFileFailureSticks(stops: seq<Stop>, start: int, end: int, types: set<string>, i: nat)
    requires i <= |stops| && RoutesFile(stops[..i], start, end, types).Failure?
    ensures RoutesFile(stops, start, end, types) == RoutesFile(stops[..i], start, end, types)
    decreases |stops|
  {
    if i < |stops| {
      var init := stops[..|stops| - 1];
      assert init[..i] == stops[..i];
      RoutesFileFailureSticks(init, start, end, types, i);
    } else {
      assert stops[..i] == stops;
    }
  }

  /** Writing the file fails exactly when filtering some stop's routes fails. */
  lemma {:induction false} RoutesFileFails(stops: seq<Stop>, start: int, end: int, types: set<string>)
    ensures RoutesFile(stops, start, end, types).Failure? <==>
            exists i :: 0 <= i < |stops| && Filtered(stops[i].routes, start, end, types).Failure?
    decreases |stops|
  {
    if stops != [] {
      var init, point := stops[..|stops| - 1], stops[|stops| - 1];
      RoutesFileFails(init, start, end, types);
      var prev := RoutesFile(init, start, end, types);
      if prev.Failure? {
        var j :| 0 <= j < |init| && Filtered(init[j].routes, start, end, types).Failure?;
        assert stops[j] == init[j];
      } else {
        forall i | 0 <= i < |init|
          ensures Filtered(stops[i].routes, start, end, types).Success?
        {
          assert stops[i] == init[i];
        }
      }
    }
  }

  /**
   * Every entry of the file is the non-empty filtered timetable of some
   * stop, under that stop's code.
   */
  lemma {:induction false} RoutesFileKeys(stops: seq<Stop>, start: int, end: int, types: set<string>, code: string)
    requires RoutesFile(stops, start, end, types).Success?
    requires code in RoutesFile(stops, start, end, types).value
    ensures exists i :: 0 <= i < |stops| && stops[i].code == code && Filtered(stops[i].routes, start, end, types).Success? &&
              var table := Filtered(stops[i].routes, start, end, types).value;
              |table| > 0 && RoutesFile(stops, start, end, types).value[code] == table
    decreases |stops|
  {
    var init, point := stops[..|stops| - 1], stops[|stops| - 1];
    var prev := RoutesFile(init, start, end, types);
    var f := Filtered(point.routes, start, end, types);
    assert prev.Success? && f.Success?;
    var file := RoutesFile(stops, start, end, types).value;
    assert file == if |f.value| == 0 then prev.value else prev.value[point.code := f.value];
    if code == point.code && |f.value| > 0 {
      assert stops[|stops| - 1] == point && file[code] == f.value;
    } else {
      RoutesFileKeys(init, start, end, types, code);
      var j :| 0 <= j < |init| && init[j].code == code && Filtered(init[j].routes, start, end, types).Success? &&
               |Filtered(init[j].routes, start, end, types).value| > 0 &&
               prev.value[code] == Filtered(init[j].routes, start, end, types).value;
      assert stops[j] == init[j] && file[code] == prev.value[code];
    }
  }

  /**
   * When the file is written, the routes of every stop filter without
   * failure, and the file holds that stop's filtered timetable under its
   * code exactly when the timetable is not empty.
   */
  lemma {:induction false} RoutesFileEntry(stops: seq<Stop>, start: int, end: int, types: set<string>, i: int)
    requires DistinctCodes(stops) && RoutesFile(stops, start, end, types).Success? && 0 <= i < |stops|
    ensures Filtered(stops[i].routes, start, end, types).Success?
    ensures var file, table := RoutesFile(stops, start, end, types).value, Filtered(stops[i].routes, start, end, types).value;
            (stops[i].code in file <==> |table| > 0) && (stops[i].code in file ==> file[stops[i].code] == table)
    decreases |stops|
  {
    var init, point := stops[..|stops| - 1], stops[|stops| - 1];
    var prev := RoutesFile(init, start, end, types);
    var f := Filtered(point.routes, start, end, types);
    assert prev.Success? && f.Success?;
    assert RoutesFile(stops, start, end, types).value ==
           if |f.value| == 0 then prev.value else prev.value[point.code := f.value];
    if i == |stops| - 1 {
      if point.code in prev.value {
        RoutesFileKeys(init, start, end, types, point.code);
        assert false;
      }
    } else {
      assert stops[i] == init[i];
      assert DistinctCodes(init) by {
        forall j, k | 0 <= j < k < |init|
          ensures init[j].code != init[k].code
        {
          assert init[j] == stops[j] && init[k] == stops[k];
        }
      }
      RoutesFileEntry(init, start, end, types, i);
    }
  }

  /** `write_routes_file`: filters the routes of every stop and keeps the non-empty timetables. */
  method WriteRoutesFile(stops: seq<Stop>, start: int, end: int, types: set<string>) returns (r: Result<map<string, Timetable>, WriteError>)
    ensures r == RoutesFile(stops, start, end, types)
  {
    var res: map<string, Timetable> := map[];
    for i := 0 to |stops|
      invariant RoutesFile(stops[..i], start, end, types) == Success(res)
    {
      assert stops[..i + 1][..i] == stops[..i] && stops[..i + 1][i] == stops[i];
      var point := stops[i];
      var routes := FilterRoutes(point.routes, start, end, types);
      if routes.Failure? {
        RoutesFileFailureSticks(stops, start, end, types, i + 1);
        return Failure(routes.error);
      }
      if |routes.value| == 0 {
        continue;
      }
      res := res[point.code := routes.value];
    }
    assert stops[..|stops|] == stops;
    r := Success(res);
  }

  /** The day types of the working days. */
  const WEEK_TYPES: set<string> := {"D1", "D2", "D3", "D4", "D5", "N1", "N2", "N3", "N4", "N7", "DP", "NO", "NS"}
  /** The day types of Saturdays. */
  const SAT_TYPES: set<string> := {"D6", "N5", "SB", "NO", "NP", "NS"}
  /** The day types of Sundays. */
  const SUN_TYPES: set<string> := {"D7", "N6", "DS", "TS", "NO", "NP", "NS"}

  /** The kinds of day `write_routes` writes files for, in order, with their day types. */
  function Days(): seq<(string, set<string>)>
  {
    [("week", WEEK_TYPES), ("sat", SAT_TYPES), ("sun", SUN_TYPES)]
  }

  /** `"routes_%s_%d.json" % (key, idx)`. */
  function RoutesFileName(day: string, idx: nat): string
  {
    "routes_" + day + "_" + NatToString(idx) + ".json"
  }

  /** One file `write_routes` writes: its name and its object. */
  datatype OutputFile = OutputFile(name: string, content: map<string, Timetable>)

  /** One call of `write_routes_file`: the kind of day, the window and the day types. */
  datatype Job = Job(day: string, idx: nat, types: set<string>)

  /** The calls `write_routes` makes, in order: the 24 windows of each kind of day. */
  function Jobs(): (jobs: seq<Job>)
    ensures |jobs| == 72
  {
    seq(72, k requires 0 <= k < 72 => Job(Days()[k / 24].0, k % 24, Days()[k / 24].1))
  }

  /** The files of the first jobs, in order, or the failure of the first that fails. */
  function Files(stops: seq<Stop>, jobs: seq<Job>): Result<seq<OutputFile>, WriteError>
  {
    if jobs == [] then Success([])
    else
      match Files(stops, jobs[..|jobs| - 1])
      case Failure(e) => Failure(e)
      case Success(files) =>
        var job := jobs[|jobs| - 1];
        match RoutesFile(stops, WindowStart(job.idx), WindowEnd(job.idx), job.types)
        case Failure(e) => Failure(e)
        case Success(content) => Success(files + [OutputFile(RoutesFileName(job.day, job.idx), content)])
  }

  /** One more job: its file is appended, or its failure ends the run. */
  lemma FilesStep(stops: seq<Stop>, jobs: seq<Job>, k: nat, files: seq<OutputFile>)
    requires k < |jobs| && Files(stops, jobs[..k]) == Success(files)
    ensures var job := jobs[k];
            var content := RoutesFile(stops, WindowStart(job.idx), WindowEnd(job.idx), job.types);
            Files(stops, jobs[..k + 1]) ==
              if content.Failure? then Failure(content.error)
              else Success(files + [OutputFile(RoutesFileName(job.day, job.idx), content.value)])
  {
    assert jobs[..k + 1][..k] == jobs[..k];
  }

  lemma {:induction false} FilesFailureSticks(stops: seq<Stop>, jobs: seq<Job>, i: nat)
    requires i <= |jobs| && Files(stops, jobs[..i]).Failure?
    ensures Files(stops, jobs) == Files(stops, jobs[..i])
    decreases |jobs|
  {
    if i < |jobs| {
      var init := jobs[..|jobs| - 1];
      assert init[..i] == jobs[..i];
      FilesFailureSticks(stops, init, i);
    } else {
      assert jobs[..i] == jobs;
    }
  }

  /** File `k` is named after its job and holds the timetables of its window. */
  lemma {:induction false} FilesAt(stops: seq<Stop>, jobs: seq<Job>, k: int)
    requires Files(stops, jobs).Success? && 0 <= k < |jobs|
    ensures |Files(stops, jobs).value| == |jobs|
    ensures var job := jobs[k];
            RoutesFile(stops, WindowStart(job.idx), WindowEnd(job.idx), job.types).Success? &&
            Files(stops, jobs).value[k] ==
              OutputFile(RoutesFileName(job.day, job.idx), RoutesFile(stops, WindowStart(job.idx), WindowEnd(job.idx), job.types).value)
    decreases |jobs|
  {
    var init, job := jobs[..|jobs| - 1], jobs[|jobs| - 1];
    var prev := Files(stops, init);
    var content := RoutesFile(stops, WindowStart(job.idx), WindowEnd(job.idx), job.types);
    assert prev.Success? && content.Success?;
    assert Files(stops, jobs).value == prev.value + [OutputFile(RoutesFileName(job.day, job.idx), content.value)];
    if k < |jobs| - 1 {
      FilesAt(stops, init, k);
      assert jobs[k] == init[k];
    } else if init != [] {
      FilesAt(stops, init, 0);
    }
  }

  /**
   * `write_routes` writes, for each kind of day, the 24 files of its
   * windows in order: file `i` of a day covers minutes `60 * i` to
   * `60 * i + 120`, wrapped past midnight, with that day's types.
   */
  lemma JobsOfDay(d: nat, i: nat)
    requires d < 3 && i < 24
    ensures Jobs()[24 * d + i] == Job(Days()[d].0, i, Days()[d].1)
  {
    assert (24 * d + i) / 24 == d && (24 * d + i) % 24 == i;
  }

  /** `write_routes`: the files of every window of every kind of day. */
  method WriteRoutes(stops: seq<Stop>) returns (r: Result<seq<OutputFile>, WriteError>)
    ensures r == Files(stops, Jobs())
  {
    ghost var jobs := Jobs();
    var files: seq<OutputFile> := [];
    for d := 0 to 3
      invariant Files(stops, jobs[..24 * d]) == Success(files)
    {
      var (key, val) := Days()[d];
      forall i | 0 <= i < 24
        ensures jobs[24 * d + i] == Job(key, i, val)
      {
        JobsOfDay(d, i);
      }
      r := WriteDay(stops, jobs, 24 * d, key, val, files);
      if r.Failure? {
        return;
      }
      files := r.value;
    }
    assert jobs[..72] == jobs;
    r := Success(files);
  }

  /** The step of the inner loop of `write_routes`: the file of one more window, or the failure that ends the run. */
  lemma WindowFileStep(stops: seq<Stop>, jobs: seq<Job>, k: nat, files: seq<OutputFile>, content: Result<map<string, Timetable>, WriteError>)
    requires k < |jobs| && Files(stops, jobs[..k]) == Success(files)
    requires content == RoutesFile(stops, WindowStart(jobs[k].idx), WindowEnd(jobs[k].idx), jobs[k].types)
    ensures content.Failure? ==> Files(stops, jobs) == Failure(content.error)
    ensures content.Success? ==>
              Files(stops, jobs[..k + 1]) ==
              Success(files + [OutputFile(RoutesFileName(jobs[k].day, jobs[k].idx), content.value)])
  {
    FilesStep(stops, jobs, k, files);
    if content.Failure? {
      FilesFailureSticks(stops, jobs, k + 1);
    }
  }

  /**
   * The inner loop of `write_routes`: the files of the 24 windows of one
   * kind of day, appended to those of the kinds before it.
   */
  method WriteDay(stops: seq<Stop>, ghost jobs: seq<Job>, ghost base: nat, key: string, val: set<string>, files0: seq<OutputFile>)
    returns (r: Result<seq<OutputFile>, WriteError>)
    requires base + 24 <= |jobs| && Files(stops, jobs[..base]) == Success(files0)
    requires forall i :: 0 <= i < 24 ==> jobs[base + i] == Job(key, i, val)
    ensures r.Success? ==> Files(stops, jobs[..base + 24]) == r
    ensures r.Failure? ==> Files(stops, jobs) == r
  {
    var files := files0;
    for idx := 0 to 24
      invariant Files(stops, jobs[..base + idx]) == Success(files)
    {
      var start, end := WindowStart(idx), WindowEnd(idx);
      var filename := RoutesFileName(key, idx);
      var content := WriteRoutesFile(stops, start, end, val);
      assert jobs[base + idx] == Job(key, idx, val);
      WindowFileStep(stops, jobs, base + idx, files, content);
      if content.Failure? {
        return Failure(content.error);
      }
      files := files + [OutputFile(filename, content.value)];
    }
    r := Success(files);
  }

  /**
   * The file the map requests for a kind of day and an hour is one that
   * `write_routes` writes: the day selector submits the kinds of day in
   * the writer's order, and the address is the writer's file name under
   * `./includes/`.
   */
  lemma RequestedFileIsWritten(d: nat, hour: nat)
    requires d < 3 && hour < 24
    ensures Settings.DayItems()[d].value == Days()[d].0
    ensures Settings.RoutesUrl(Days()[d].0, hour) == "./includes/" + RoutesFileName(Days()[d].0, hour)
    ensures Jobs()[24 * d + hour].day == Days()[d].0 && Jobs()[24 * d + hour].idx == hour
  {
    JobsOfDay(d, hour);
  }

  // ---------------------------------------------------------------------
  // write_points
  // ---------------------------------------------------------------------

  /** What `write_points` writes for one stop: its position and its walking edges. */
  datatype PointEntry = PointEntry(geo: Option<Geo>, routes: map<string, int>)

  /** Whether `route` is a walking edge to `to`. */
  predicate WalksTo(route: Route, to: string)
  {
    route.rtype == "WALK" && route.to == to
  }

  /** `{route["to"]: route["time"] for route in routes if route["type"] == "WALK"}`. */
  function WalkMap(routes: seq<Route>): map<string, int>
  {
    if routes == [] then map[]
    else
      var route := routes[|routes| - 1];
      var prev := WalkMap(routes[..|routes| - 1]);
      if route.rtype == "WALK" then prev[route.to := route.time] else prev
  }

  /**
   * The walking map has an entry for exactly the destinations of walking
   * edges, and the time of the last walking edge to each of them: a later
   * edge to the same stop overwrites an earlier one.
   */
  lemma {:induction false} WalkMapLastWins(routes: seq<Route>, to: string)
    ensures to in WalkMap(routes) <==> exists i :: 0 <= i < |routes| && WalksTo(routes[i], to)
    ensures forall i :: 0 <= i < |routes| && WalksTo(routes[i], to) &&
                        (forall j :: i < j < |routes| ==> !WalksTo(routes[j], to)) ==>
                          WalkMap(routes)[to] == routes[i].time
    decreases |routes|
  {
    if routes != [] {
      var init := routes[..|routes| - 1];
      WalkMapLastWins(init, to);
      assert forall i :: 0 <= i < |init| ==> init[i] == routes[i];
    }
  }

  /** The object `write_points` writes: every stop's entry, by code. */
  function PointsFile(stops: seq<Stop>): map<string, PointEntry>
  {
    if stops == [] then map[]
    else
      var point := stops[|stops| - 1];
      PointsFile(stops[..|stops| - 1])[point.code := PointEntry(point.geo, WalkMap(point.routes))]
  }

  /** Every stop has its entry, under its code, and there is no other entry. */
  lemma {:induction false} PointsFileEntries(stops: seq<Stop>, code: string)
    requires DistinctCodes(stops)
    ensures code in PointsFile(stops) <==> exists i :: 0 <= i < |stops| && stops[i].code == code
    ensures forall i :: 0 <= i < |stops| && stops[i].code == code ==>
                          PointsFile(stops)[code] == PointEntry(stops[i].geo, WalkMap(stops[i].routes))
    decreases |stops|
  {
    if stops != [] {
      var init := stops[..|stops| - 1];
      assert forall i :: 0 <= i < |init| ==> init[i] == stops[i];
      PointsFileEntries(init, code);
    }
  }

  /** `write_points`: the entry of every stop, with its walking edges. */
  method WritePoints(stops: seq<Stop>) returns (res: map<string, PointEntry>)
    ensures res == PointsFile(stops)
  {
    res := map[];
    for i := 0 to |stops|
      invariant res == PointsFile(stops[..i])
    {
      assert stops[..i + 1][..i] == stops[..i] && stops[..i + 1][i] == stops[i];
      var point := stops[i];
      var routes := WalkMap(point.routes);
      res := res[point.code := PointEntry(point.geo, routes)];
    }
    assert stops[..|stops|] == stops;
  }
}
