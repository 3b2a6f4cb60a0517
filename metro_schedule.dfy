/**
 * The metro timetable of scripts/transport_data.py: the metro has no
 * timetable in the export, so the reader generates its edges from the
 * travel times between consecutive stations and a schedule of time
 * windows, each listing the offsets at which trains leave the first
 * station.
 */
module MetroSchedule {
  import opened Common
  import opened ZtmRecords

  /** The sum of the travel times. */
  function Sum(s: seq<int>): int
  {
    if s == [] then 0 else Sum(s[..|s| - 1]) + s[|s| - 1]
  }

  /** The line has a travel time for each pair of consecutive stations it uses. */
  predicate LineShape(codes: seq<string>, times: seq<int>)
  {
    |times| < |codes|
  }

  /**
   * The edges `generate_metro_route` adds for a train that is at station
   * `i` at minute `t`: one edge to the next station per travel time, until
   * the train would leave at or after midnight.
   */
  function MetroFrom(codes: seq<string>, times: seq<int>, rtype: string, i: nat, t: int): (edges: seq<(string, Route)>)
    requires LineShape(codes, times) && i <= |times|
    ensures |edges| <= |times| - i
    decreases |times| - i
  {
    if i == |times| || t >= MINUTES_PER_DAY then []
    else [(codes[i], Route(codes[i + 1], Some(t), times[i], rtype))] + MetroFrom(codes, times, rtype, i + 1, t + times[i])
  }

  /** The edges of one train leaving the first station at minute `start`. */
  function MetroEdges(codes: seq<string>, times: seq<int>, rtype: string, start: int): seq<(string, Route)>
    requires LineShape(codes, times)
  {
    MetroFrom(codes, times, rtype, 0, start)
  }

  lemma SumSnoc(s: seq<int>, i: nat)
    requires i < |s|
    ensures Sum(s[..i + 1]) == Sum(s[..i]) + s[i]
  {
    assert s[..i + 1][..i] == s[..i];
  }

  lemma {:induction false} MetroFromAt(codes: seq<string>, times: seq<int>, rtype: string, i: nat, start: int, t: int)
    requires LineShape(codes, times) && i <= |times| && t == start + Sum(times[..i])
    ensures var edges := MetroFrom(codes, times, rtype, i, t);
            (forall k :: 0 <= k < |edges| ==> MetroEdgeIs(codes, times, rtype, start, i + k, edges[k])) &&
            (i + |edges| == |times| || start + Sum(times[..i + |edges|]) >= MINUTES_PER_DAY)
    decreases |times| - i
  {
    if i < |times| && t < MINUTES_PER_DAY {
      SumSnoc(times, i);
      MetroFromAt(codes, times, rtype, i + 1, start, t + times[i]);
      var rest := MetroFrom(codes, times, rtype, i + 1, t + times[i]);
      var edges := MetroFrom(codes, times, rtype, i, t);
      assert edges == [(codes[i], Route(codes[i + 1], Some(t), times[i], rtype))] + rest;
      forall k | 0 <= k < |edges|
        ensures MetroEdgeIs(codes, times, rtype, start, i + k, edges[k])
      {
        if k > 0 {
          assert edges[k] == rest[k - 1];
          assert i + 1 + (k - 1) == i + k;
        }
      }
    }
  }

  /** Edge `e` is the one from station `j` to station `j + 1`, leaving before midnight at `start` plus the travel times before `j`. */
  predicate MetroEdgeIs(codes: seq<string>, times: seq<int>, rtype: string, start: int, j: int, e: (string, Route))
    requires LineShape(codes, times)
  {
    0 <= j < |times| &&
    var d := start + Sum(times[..j]);
    d < MINUTES_PER_DAY && e == (codes[j], Route(codes[j + 1], Some(d), times[j], rtype))
  }

  /**
   * Edge `j` of a train leaves station `j` for station `j + 1` at the
   * start plus the travel times before it, always before midnight; the
   * train stops at the end of the line or at the first departure at or
   * after midnight.
   */
  lemma MetroEdgesAt(codes: seq<string>, times: seq<int>, rtype: string, start: int)
    requires LineShape(codes, times)
    ensures var edges := MetroEdges(codes, times, rtype, start);
            (forall j :: 0 <= j < |edges| ==> MetroEdgeIs(codes, times, rtype, start, j, edges[j])) &&
            (|edges| == |times| || start + Sum(times[..|edges|]) >= MINUTES_PER_DAY)
  {
    assert times[..0] == [];
    MetroFromAt(codes, times, rtype, 0, start, start);
  }

  /** Every station of the line is a known stop. */
  predicate StationsKnown(points: map<string, Stop>, codes: seq<string>)
  {
    forall i :: 0 <= i < |codes| ==> codes[i] in points
  }

  lemma {:induction false} MetroFromKnown(points: map<string, Stop>, codes: seq<string>, times: seq<int>, rtype: string, i: nat, t: int)
    requires LineShape(codes, times) && i <= |times| && StationsKnown(points, codes)
    ensures FromKnown(points, MetroFrom(codes, times, rtype, i, t))
    decreases |times| - i
  {
    if i < |times| && t < MINUTES_PER_DAY {
      MetroFromKnown(points, codes, times, rtype, i + 1, t + times[i]);
    }
  }

  lemma FromKnownConcat(points: map<string, Stop>, first: seq<(string, Route)>, second: seq<(string, Route)>)
    requires FromKnown(points, first) && FromKnown(points, second)
    ensures FromKnown(points, first + second)
  {
    assert forall i :: |first| <= i < |first + second| ==> (first + second)[i] == second[i - |first|];
  }

  /** A window of a train schedule as the metro data writes it: its bounds and, when it lists them, the offsets of its trains. */
  datatype Window = Window(from: string, to: string, starts: Option<seq<int>>)

  /** A window with its bounds read as minutes of the day. */
  datatype TimedWindow = TimedWindow(from: int, to: int, starts: Option<seq<int>>)

  /** Both bounds of the window are minutes of the day. */
  predicate Bounded(w: TimedWindow)
  {
    0 <= w.from < MINUTES_PER_DAY && 0 <= w.to < MINUTES_PER_DAY
  }

  /** The windows with their bounds read with `as_time(..., sep=":")`; `None` when a bound is not a time. */
  function ParseWindows(trains: seq<Window>): (r: Option<seq<TimedWindow>>)
    ensures r.Some? ==> |r.value| == |trains|
    ensures r.Some? ==> forall i :: 0 <= i < |r.value| ==> Bounded(r.value[i])
  {
    if trains == [] then Some([])
    else
      var w := trains[|trains| - 1];
      match ParseWindows(trains[..|trains| - 1])
      case None => None
      case Some(prefix) =>
        match (AsTime(w.from, ':'), AsTime(w.to, ':'))
        case (Some(from), Some(to)) => Some(prefix + [TimedWindow(from, to, w.starts)])
        case _ => None
  }

  /** Every window reads as minutes of the day, in order. */
  lemma {:induction false} ParseWindowsAt(trains: seq<Window>)
    requires ParseWindows(trains).Some?
    ensures forall i :: 0 <= i < |trains| ==>
              var w := ParseWindows(trains).value[i];
              AsTime(trains[i].from, ':') == Some(w.from) && AsTime(trains[i].to, ':') == Some(w.to) &&
              w.starts == trains[i].starts
  {
    if trains != [] {
      ParseWindowsAt(trains[..|trains| - 1]);
    }
  }

  /**
   * The windows `generate_metro_routes` serves: all of them, except the
   * first when it ends at midnight, since the search starts at minute 0
   * and leaves a window as soon as the time has reached its end.
   */
  function Served(parsed: seq<TimedWindow>): (served: seq<TimedWindow>)
    requires |parsed| >= 1
  {
    if parsed[0].to == 0 then parsed[1..] else parsed
  }

  /** The number of served windows before the first that lists no trains. */
  function FirstInvalid(served: seq<TimedWindow>): (n: nat)
    ensures n <= |served| && (n < |served| ==> served[n].starts.None?)
    ensures forall i :: 0 <= i < n ==> served[i].starts.Some?
  {
    if served == [] then 0
    else if served[0].starts.None? then 0
    else 1 + FirstInvalid(served[1..])
  }

  /** The edges of the trains leaving at `from` plus each offset, in order. */
  function OffsetEdges(codes: seq<string>, times: seq<int>, rtype: string, from: int, offsets: seq<int>): seq<(string, Route)>
    requires LineShape(codes, times)
  {
    if offsets == [] then []
    else OffsetEdges(codes, times, rtype, from, offsets[..|offsets| - 1]) +
         MetroEdges(codes, times, rtype, from + offsets[|offsets| - 1])
  }

  /** The edges of the first `n` served windows. */
  function ServedEdges(codes: seq<string>, times: seq<int>, rtype: string, served: seq<TimedWindow>, n: nat): seq<(string, Route)>
    requires LineShape(codes, times) && n <= |served|
    requires forall i :: 0 <= i < n ==> served[i].starts.Some?
  {
    if n == 0 then []
    else ServedEdges(codes, times, rtype, served, n - 1) +
         OffsetEdges(codes, times, rtype, served[n - 1].from, served[n - 1].starts.value)
  }

  /**
   * The edges `generate_metro_routes` adds for a schedule read as minutes
   * of the day, and whether it completes: a served window without trains
   * raises after the edges of the windows served before it.
   */
  function ServedRoutes(codes: seq<string>, times: seq<int>, rtype: string, parsed: seq<TimedWindow>): (seq<(string, Route)>, bool)
    requires LineShape(codes, times) && |parsed| >= 1
  {
    var served := Served(parsed);
    var n := FirstInvalid(served);
    (ServedEdges(codes, times, rtype, served, n), n == |served|)
  }

  /**
   * What `generate_metro_routes` does with a schedule: the edges it adds
   * and whether it completes. A bound that is not a time and an empty
   * schedule raise before any edge is added.
   */
  function MetroRoutes(codes: seq<string>, times: seq<int>, rtype: string, trains: seq<Window>): (seq<(string, Route)>, bool)
    requires LineShape(codes, times)
  {
    match ParseWindows(trains)
    case None => ([], false)
    case Some(parsed) => if parsed == [] then ([], false) else ServedRoutes(codes, times, rtype, parsed)
  }

  /** Once a prefix of the schedule fails to read, the whole schedule does. */
  lemma {:induction false} ParseWindowsPrefixFails(trains: seq<Window>, i: nat)
    requires i <= |trains| && ParseWindows(trains[..i]).None?
    ensures ParseWindows(trains).None?
    decreases |trains|
  {
    if i < |trains| {
      var init := trains[..|trains| - 1];
      assert init[..i] == trains[..i];
      ParseWindowsPrefixFails(init, i);
    } else {
      assert trains[..i] == trains;
    }
  }

  lemma {:induction false} OffsetEdgesKnown(points: map<string, Stop>, codes: seq<string>, times: seq<int>, rtype: string,
                                            from: int, offsets: seq<int>)
    requires LineShape(codes, times) && StationsKnown(points, codes)
    ensures FromKnown(points, OffsetEdges(codes, times, rtype, from, offsets))
    decreases |offsets|
  {
    if offsets != [] {
      OffsetEdgesKnown(points, codes, times, rtype, from, offsets[..|offsets| - 1]);
      MetroFromKnown(points, codes, times, rtype, 0, from + offsets[|offsets| - 1]);
      FromKnownConcat(points, OffsetEdges(codes, times, rtype, from, offsets[..|offsets| - 1]),
                      MetroEdges(codes, times, rtype, from + offsets[|offsets| - 1]));
    }
  }

  lemma {:induction false} ServedEdgesKnown(points: map<string, Stop>, codes: seq<string>, times: seq<int>, rtype: string,
                                            served: seq<TimedWindow>, n: nat)
    requires LineShape(codes, times) && StationsKnown(points, codes) && n <= |served|
    requires forall i :: 0 <= i < n ==> served[i].starts.Some?
    ensures FromKnown(points, ServedEdges(codes, times, rtype, served, n))
    decreases n
  {
    if n > 0 {
      ServedEdgesKnown(points, codes, times, rtype, served, n - 1);
      OffsetEdgesKnown(points, codes, times, rtype, served[n - 1].from, served[n - 1].starts.value);
      FromKnownConcat(points, ServedEdges(codes, times, rtype, served, n - 1),
                      OffsetEdges(codes, times, rtype, served[n - 1].from, served[n - 1].starts.value));
    }
  }

  /**
   * A first window that ends at midnight (`24:00` reads as minute 0) is
   * never served: a schedule of that one window adds no edge at all, even
   * though it lists trains.
   */
  lemma MidnightFirstWindowSkipped(codes: seq<string>, times: seq<int>, rtype: string, w: Window)
    requires LineShape(codes, times)
    requires AsTime(w.from, ':').Some? && AsTime(w.to, ':') == Some(0) && w.starts.Some?
    ensures MetroRoutes(codes, times, rtype, [w]) == ([], true)
  {
    assert [w][..0] == [] && [w][0] == w;
    assert ParseWindows([]) == Some([]);
    var tw := TimedWindow(AsTime(w.from, ':').value, 0, w.starts);
    assert [] + [tw] == [tw];
    assert ParseWindows([w]) == Some([tw]);
  }
}
