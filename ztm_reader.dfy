/**
 * `ZtmFormatReader` of scripts/transport_data.py: the table of stops it
 * fills from the stop records, the edges it adds between consecutive
 * stops of every course and along the metro lines, the number of edges
 * and the day types seen. Opening and decompressing the export, reading
 * its encoding and the metro data file are left to the caller, which
 * passes the lines and records here.
 */
module ZtmReader {
  import opened Common
  import opened ZtmRecords
  import opened MetroSchedule

  class ZtmFormatReader {
    /** The stops by code. */
    var points: map<string, Stop>
    /** The number of edges added. */
    var routesNum: nat
    /** The day types of the edges added by `add_route`. */
    var routeTypes: set<string>

    constructor()
      ensures points == map[] && routesNum == 0 && routeTypes == {}
    {
      points := map[];
      routesNum := 0;
      routeTypes := {};
    }

    /**
     * `read_point`: stores the stop of one stop line under its code,
     * replacing a stop stored earlier under the same code. A line split
     * into fewer than six fields makes the source raise `IndexError` before
     * anything is stored: `ok` is false and nothing changes.
     */
    method ReadPoint(arr: seq<string>) returns (ok: bool)
      modifies this
      ensures ok <==> |arr| >= 6
      ensures ok ==> points == old(points)[arr[0] := StopOf(arr)]
      ensures !ok ==> points == old(points)
      ensures routesNum == old(routesNum) && routeTypes == old(routeTypes)
    {
      if |arr| < 6 {
        return false;
      }
      ok := true;
      var lat := FirstDecimalText(arr[4]);
      var lon := FirstDecimalText(arr[5]);
      var geo: Option<Geo>;
      if lon.None? || lat.None? {
        geo := None;
      } else {
        geo := Some(Geo(lat.value, lon.value));
      }
      var code := arr[0];
      var name := TrimChar(arr[2], ',');
      points := points[code := Stop(name, code, geo, [])];
    }

    /**
     * `add_route`: records the day type, appends the edge to the stop it
     * leaves and counts it.
     */
    method AddRoute(from: string, to: string, rtype: string, start: int, duration: int)
      requires from in points
      modifies this
      ensures points == AddEdge(old(points), (from, Route(to, Some(start), duration, rtype)))
      ensures routesNum == old(routesNum) + 1 && routeTypes == old(routeTypes) + {rtype}
    {
      routeTypes := routeTypes + {rtype};
      var res := Route(to, Some(start), duration, rtype);
      var point := points[from];
      points := points[from := point.(routes := point.routes + [res])];
      routesNum := routesNum + 1;
    }

    /**
     * `read_routes`: reads the lines of one course block as records and
     * adds an edge for every record that continues the course of the
     * record before it.
     */
    method ReadRoutes(lines: seq<string>)
      requires |lines| >= 1 && Readable(lines) && CoursesKnown(points, RecordsOf(lines))
      modifies this
      ensures FromKnown(old(points), CourseEdges(RecordsOf(lines), |lines|))
      ensures var edges := CourseEdges(RecordsOf(lines), |lines|);
              points == AppendRoutes(old(points), edges) &&
              routesNum == old(routesNum) + |edges| && routeTypes == old(routeTypes) + TypesOf(edges)
    {
      var records := Records(lines);
      ReadRecords(records, RecordsOf(lines));
    }

    /** The loop of `read_routes`, over the split lines `records`, which read as `read`. */
    method ReadRecords(records: seq<seq<string>>, ghost read: seq<Record>)
      requires |records| >= 1 && ReadAs(records, read) && CoursesKnown(points, read)
      modifies this
      ensures FromKnown(old(points), CourseEdges(read, |read|))
      ensures var edges := CourseEdges(read, |read|);
              points == AppendRoutes(old(points), edges) &&
              routesNum == old(routesNum) + |edges| && routeTypes == old(routeTypes) + TypesOf(edges)
    {
      ghost var points0, routesNum0, routeTypes0 := points, routesNum, routeTypes;
      ReadAsFields(records, read, 0);
      var currentRoute := records[0][0];
      var previousPoint: Option<string> := None;
      var previousTime := 0;
      ghost var edges: seq<(string, Route)> := [];
      for k := 0 to |records|
        invariant edges == CourseEdges(read, k)
        invariant FromKnown(points0, edges) && points == AppendRoutes(points0, edges)
        invariant routesNum == routesNum0 + |edges| && routeTypes == routeTypes0 + TypesOf(edges)
        invariant previousPoint == (if k == 0 then None else Some(read[k - 1].stop))
        invariant currentRoute == read[if k == 0 then 0 else k - 1].course
        invariant k > 0 ==> previousTime == read[k - 1].time
      {
        ghost var continues := read[k].course == currentRoute && previousPoint.Some?;
        if continues {
          assert Continues(read, k);
          AppendRoutesSnoc(points0, edges, EdgeAt(read, k));
        }
        currentRoute, previousPoint, previousTime := ReadRecordAt(records, read, k, currentRoute, previousPoint, previousTime);
        if continues {
          edges := edges + [EdgeAt(read, k)];
        }
      }
    }

    /**
     * One pass of the loop of `read_routes`, over record `k`: when it
     * continues the course of the record before, adds the edge from that
     * record's stop; then remembers its course, stop and time.
     */
    method ReadRecordAt(records: seq<seq<string>>, ghost read: seq<Record>, k: int,
                        currentRoute: string, previousPoint: Option<string>, previousTime: int)
      returns (route': string, point': Option<string>, time': int)
      requires ReadAs(records, read) && 0 <= k < |records|
      requires previousPoint.Some? && read[k].course == currentRoute ==> previousPoint.value in points
      modifies this
      ensures route' == read[k].course && point' == Some(read[k].stop) && time' == read[k].time
      ensures if read[k].course == currentRoute && previousPoint.Some? then
                var t := read[k].time;
                points == AddEdge(old(points), (previousPoint.value, Route(read[k].stop, Some(t), t - previousTime, read[k].rtype))) &&
                routesNum == old(routesNum) + 1 && routeTypes == old(routeTypes) + {read[k].rtype}
              else
                points == old(points) && routesNum == old(routesNum) && routeTypes == old(routeTypes)
    {
      var record := records[k];
      assert ReadRecord(record) == Some(read[k]);
      var route, point, routeType := record[0], record[1], record[2];
      var time := AsTime(record[3], '.').value;
      route' := currentRoute;
      if route == currentRoute && previousPoint.Some? {
        AddRoute(previousPoint.value, point, routeType, time, time - previousTime);
      } else if route != currentRoute {
        route' := route;
      }
      point' := Some(point);
      time' := time;
    }

    /**
     * `generate_metro_routes`: reads the bounds of every window of the
     * schedule as times, then serves the windows in order.
     */
    method GenerateMetroRoutes(codes: seq<string>, times: seq<int>, trains: seq<Window>, routeType: string) returns (ok: bool)
      requires LineShape(codes, times) && StationsKnown(points, codes)
      modifies this
      ensures var (edges, completes) := MetroRoutes(codes, times, routeType, trains);
              ok == completes && FromKnown(old(points), edges) && points == AppendRoutes(old(points), edges) &&
              routesNum == old(routesNum) + |edges| && routeTypes == old(routeTypes)
    {
      var parsed := ReadWindows(trains);
      if parsed.None? || |parsed.value| == 0 {
        return false;
      }
      ok := ServeWindows(codes, times, parsed.value, routeType);
    }

    /** The first loop of `generate_metro_routes`: reads the bounds of every window as times, failing at the first that is not one. */
    method ReadWindows(trains: seq<Window>) returns (parsed: Option<seq<TimedWindow>>)
      ensures parsed == ParseWindows(trains)
    {
      var read: seq<TimedWindow> := [];
      for i := 0 to |trains|
        invariant ParseWindows(trains[..i]) == Some(read)
      {
        var from := AsTime(trains[i].from, ':');
        var to := AsTime(trains[i].to, ':');
        assert trains[..i + 1][..i] == trains[..i] && trains[..i + 1][i] == trains[i];
        if from.None? || to.None? {
          ParseWindowsPrefixFails(trains, i + 1);
          return None;
        }
        read := read + [TimedWindow(from.value, to.value, trains[i].starts)];
      }
      assert trains[..|trains|] == trains;
      return Some(read);
    }

    /**
     * The main loop of `generate_metro_routes`: from minute 0, moves to the
     * next window once the time has reached the end of the current one, and
     * serves a window by adding the trains leaving at its start plus each of
     * its offsets, after which the time is the window's end. A window
     * without trains raises.
     */
    method ServeWindows(codes: seq<string>, times: seq<int>, parsed: seq<TimedWindow>, routeType: string) returns (ok: bool)
      requires LineShape(codes, times) && StationsKnown(points, codes) && |parsed| >= 1
      requires forall i :: 0 <= i < |parsed| ==> Bounded(parsed[i])
      modifies this
      ensures var (edges, completes) := ServedRoutes(codes, times, routeType, parsed);
              ok == completes && FromKnown(old(points), edges) && points == AppendRoutes(old(points), edges) &&
              routesNum == old(routesNum) + |edges| && routeTypes == old(routeTypes)
    {
      ghost var points0, routesNum0 := points, routesNum;
      ghost var served := Served(parsed);
      ghost var skip := if parsed[0].to == 0 then 1 else 0;
      ghost var n := FirstInvalid(served);
      ghost var done := 0;
      ghost var edges: seq<(string, Route)> := [];
      var currentTime := 0;
      var idx := 0;
      var window := parsed[0];
      while currentTime < MINUTES_PER_DAY
        invariant 0 <= idx < |parsed| && window == parsed[idx] && 0 <= currentTime < MINUTES_PER_DAY
        invariant (idx == 0 && currentTime == 0 && done == 0) || (currentTime == window.to && done == idx + 1 - skip)
        invariant done <= n
        invariant edges == ServedEdges(codes, times, routeType, served, done)
        invariant FromKnown(points0, edges) && points == AppendRoutes(points0, edges)
        invariant routesNum == routesNum0 + |edges| && routeTypes == old(routeTypes)
        decreases 2 * (|parsed| - idx) + (if currentTime < window.to then 1 else 0)
      {
        if currentTime >= window.to {
          idx := idx + 1;
          if idx >= |parsed| {
            assert done == |served| == n;
            assert ServedRoutes(codes, times, routeType, parsed) == (edges, true);
            return true;
          }
          window := parsed[idx];
        }
        assert done == idx - skip && served[done] == window;
        if currentTime < window.from {
          currentTime := window.from;
        }
        if window.starts.None? {
          assert done == n < |served|;
          assert ServedRoutes(codes, times, routeType, parsed) == (edges, false);
          return false;
        }
        assert done < n;
        ghost var trains := OffsetEdges(codes, times, routeType, window.from, window.starts.value);
        assert ServedEdges(codes, times, routeType, served, done + 1) == edges + trains;
        ServedEdgesKnown(points0, codes, times, routeType, served, done + 1);
        AppendRoutesConcat(points0, edges, trains);
        ServeWindow(codes, times, routeType, window.from, window.starts.value);
        currentTime := window.to;
        done := done + 1;
        edges := edges + trains;
      }
      assert false;
    }

    /** The `start` branch of `generate_metro_routes`: a train for each offset, in order. */
    method ServeWindow(codes: seq<string>, times: seq<int>, routeType: string, from: int, offsets: seq<int>)
      requires LineShape(codes, times) && StationsKnown(points, codes)
      modifies this
      ensures var edges := OffsetEdges(codes, times, routeType, from, offsets);
              FromKnown(old(points), edges) && points == AppendRoutes(old(points), edges) &&
              routesNum == old(routesNum) + |edges| && routeTypes == old(routeTypes)
    {
      ghost var points0, routesNum0 := points, routesNum;
      ghost var edges: seq<(string, Route)> := [];
      for j := 0 to |offsets|
        invariant edges == OffsetEdges(codes, times, routeType, from, offsets[..j])
        invariant FromKnown(points0, edges) && points == AppendRoutes(points0, edges)
        invariant routesNum == routesNum0 + |edges| && routeTypes == old(routeTypes)
      {
        assert offsets[..j + 1][..j] == offsets[..j] && offsets[..j + 1][j] == offsets[j];
        var start := from + offsets[j];
        ghost var train := MetroEdges(codes, times, routeType, start);
        assert OffsetEdges(codes, times, routeType, from, offsets[..j + 1]) == edges + train;
        OffsetEdgesKnown(points0, codes, times, routeType, from, offsets[..j + 1]);
        AppendRoutesConcat(points0, edges, train);
        assert StationsKnown(points, codes);
        GenerateMetroRoute(codes, times, routeType, start);
        edges := edges + train;
      }
      assert offsets[..|offsets|] == offsets;
    }

    /**
     * `generate_metro_route`: the edges of one train along the line, from
     * the station each edge leaves.
     */
    method GenerateMetroRoute(codes: seq<string>, times: seq<int>, routeType: string, start: int)
      requires LineShape(codes, times) && StationsKnown(points, codes)
      modifies this
      ensures FromKnown(old(points), MetroEdges(codes, times, routeType, start))
      ensures var edges := MetroEdges(codes, times, routeType, start);
              points == AppendRoutes(old(points), edges) &&
              routesNum == old(routesNum) + |edges| && routeTypes == old(routeTypes)
    {
      ghost var edges := MetroEdges(codes, times, routeType, start);
      MetroFromKnown(points, codes, times, routeType, 0, start);
      ghost var done: seq<(string, Route)> := [];
      var currentTime := start;
      for idx := 0 to |times|
        invariant done + MetroFrom(codes, times, routeType, idx, currentTime) == edges
        invariant FromKnown(old(points), done) && points.Keys == old(points).Keys
        invariant points == AppendRoutes(old(points), done)
        invariant routesNum == old(routesNum) + |done| && routeTypes == old(routeTypes)
      {
        if currentTime >= MINUTES_PER_DAY {
          assert done == edges;
          return;
        }
        var route := Route(codes[idx + 1], Some(currentTime), times[idx], routeType);
        ghost var rest := MetroFrom(codes, times, routeType, idx + 1, currentTime + times[idx]);
        assert done + ([(codes[idx], route)] + rest) == edges;
        assert done + [(codes[idx], route)] + rest == edges;
        AppendRoutesSnoc(old(points), done, (codes[idx], route));
        var point := points[codes[idx]];
        points := points[codes[idx] := point.(routes := point.routes + [route])];
        routesNum := routesNum + 1;
        done := done + [(codes[idx], route)];
        currentTime := currentTime + times[idx];
      }
      assert done == edges;
    }
  }
}
