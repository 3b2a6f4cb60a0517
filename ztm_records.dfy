/**
 * The records of the timetable export as scripts/transport_data.py reads
 * them: times of day, stop records and the edges between consecutive
 * stops of a course, with the edge lists they append to.
 */
module ZtmRecords {
  import opened Common
  import opened Decimal
  import opened ZtmFormat

  /** Minutes in a day; every time of day is reduced modulo this. */
  const MINUTES_PER_DAY := 1440

  /**
   * A timetable edge: the next stop, the departure in minutes of the day
   * when the edge has one, the travel time in minutes and the day type.
   */
  datatype Route = Route(to: string, start: Option<int>, time: int, rtype: string)

  /** The decimal texts read for latitude and longitude. */
  datatype Geo = Geo(lat: string, lon: string)

  /** A stop: its name, its code, its position when the export has one, and its outgoing edges. */
  datatype Stop = Stop(name: string, code: string, geo: Option<Geo>, routes: seq<Route>)

  /** Every part reads as an integer. */
  predicate AllParse(parts: seq<string>)
  {
    forall i :: 0 <= i < |parts| ==> ParseInt(parts[i]).Some?
  }

  /**
   * `as_time`: the text split at `sep`, every part read as an integer, and
   * the first two taken as hours and minutes, reduced to a minute of the
   * day. Too few parts or a part that is not an integer raise in the
   * source (`None` here). The divisor is positive, so Python's floored
   * `%` agrees with the remainder used here also for negative values.
   */
  function AsTime(value: string, sep: char): (t: Option<int>)
    ensures t.Some? ==> 0 <= t.value < MINUTES_PER_DAY
  {
    var parts := Split(value, sep);
    if |parts| >= 2 && AllParse(parts) then
      Some((ParseInt(parts[0]).value * 60 + ParseInt(parts[1]).value) % MINUTES_PER_DAY)
    else None
  }

  /** A clock time written as hours, separator, minutes reads as that minute of the day, wrapped past midnight. */
  lemma {:induction false} AsTimeOfClock(h: nat, m: nat, sep: char)
    requires !IsDigit(sep)
    ensures AsTime(NatToString(h) + [sep] + NatToString(m), sep) == Some((h * 60 + m) % MINUTES_PER_DAY)
  {
    var hs, ms := NatToString(h), NatToString(m);
    assert sep !in hs && sep !in ms;
    SplitJoin([hs, ms], sep);
    JoinCons(hs, [ms], sep);
    assert Split(hs + [sep] + ms, sep) == [hs, ms];
    ParseIntOfNatToString(h);
    ParseIntOfNatToString(m);
  }

  /** A text without the separator is not a time. */
  lemma AsTimeNeedsSeparator(value: string, sep: char)
    requires sep !in value
    ensures AsTime(value, sep) == None
  {
    assert FindChar(value, sep) == -1;
  }

  /**
   * The export writes times past midnight with hours from 24 on; they read
   * as the same minute of the day as the hour 24 earlier.
   */
  lemma {:induction false} AsTimePastMidnight(h: nat, m: nat, sep: char)
    requires !IsDigit(sep) && h >= 24
    ensures AsTime(NatToString(h) + [sep] + NatToString(m), sep) ==
            AsTime(NatToString(h - 24) + [sep] + NatToString(m), sep)
  {
    AsTimeOfClock(h, m, sep);
    AsTimeOfClock(h - 24, m, sep);
    assert h * 60 + m == (h - 24) * 60 + m + MINUTES_PER_DAY;
    ModAddDay((h - 24) * 60 + m);
  }

  lemma ModAddDay(x: int)
    ensures (x + MINUTES_PER_DAY) % MINUTES_PER_DAY == x % MINUTES_PER_DAY
  {
  }

  /** The end of the run of digits that starts at `i`. */
  function DigitRunEnd(s: string, i: nat): (j: nat)
    requires i <= |s|
    ensures i <= j <= |s| && (j < |s| ==> !IsDigit(s[j]))
    ensures forall k :: i <= k < j ==> IsDigit(s[k])
    decreases |s| - i
  {
    if i < |s| && IsDigit(s[i]) then DigitRunEnd(s, i + 1) else i
  }

  /**
   * A match of `\d+\.\d+` starting at `i`: the position of the point and
   * the end of the match. Both runs of digits are taken as long as they go,
   * as the greedy pattern does.
   */
  function DecimalAt(s: string, i: nat): (r: Option<(nat, nat)>)
    requires i <= |s|
    ensures r.Some? ==> var (dot, end) := r.value;
              i < dot < end <= |s| && s[dot] == '.' &&
              (forall k :: i <= k < end && k != dot ==> IsDigit(s[k])) &&
              (end < |s| ==> !IsDigit(s[end]))
  {
    var dot := DigitRunEnd(s, i);
    if i < dot < |s| && s[dot] == '.' then
      var end := DigitRunEnd(s, dot + 1);
      if end > dot + 1 then Some((dot, end)) else None
    else None
  }

  /**
   * The first element of `re.findall(r"\d+\.\d+", s)`, as the bounds of
   * the leftmost match at or after `from`.
   */
  function FirstDecimal(s: string, from: nat): (r: Option<(nat, nat)>)
    requires from <= |s|
    ensures r.Some? ==> from <= r.value.0 <= |s| && DecimalAt(s, r.value.0).Some? && r.value.1 == DecimalAt(s, r.value.0).value.1
    ensures forall p :: from <= p <= |s| && (r.None? || p < r.value.0) ==> DecimalAt(s, p).None?
    decreases |s| - from
  {
    if from == |s| then None
    else match DecimalAt(s, from)
      case Some((_, end)) => Some((from, end))
      case None => FirstDecimal(s, from + 1)
  }

  /** The text of the first decimal number in `s`, if any. */
  function FirstDecimalText(s: string): Option<string>
  {
    match FirstDecimal(s, 0)
    case None => None
    case Some((i, j)) => Some(s[i..j])
  }

  /** A number written as digits, a point and digits, is read whole. */
  lemma DecimalTextReadWhole(a: string, b: string)
    requires |a| >= 1 && |b| >= 1 && AllDigits(a) && AllDigits(b)
    ensures FirstDecimalText(a + "." + b) == Some(a + "." + b)
  {
    var s := a + "." + b;
    assert s[|a|] == '.';
    assert forall k :: 0 <= k < |a| ==> s[k] == a[k];
    assert forall k :: |a| < k < |s| ==> s[k] == b[k - |a| - 1];
    assert DigitRunEnd(s, 0) == |a|;
    assert DigitRunEnd(s, |a| + 1) == |s|;
    assert s[0..|s|] == s;
  }

  /** A text without a point holds no decimal number. */
  lemma NoPointNoDecimal(s: string)
    requires '.' !in s
    ensures FirstDecimalText(s) == None
  {
  }

  /** The text with the leading occurrences of `c` removed. */
  function TrimStart(s: string, c: char): (r: string)
    ensures |r| <= |s| && (r == [] || r[0] != c)
  {
    if s != [] && s[0] == c then TrimStart(s[1..], c) else s
  }

  /** The text with the trailing occurrences of `c` removed. */
  function TrimEnd(s: string, c: char): (r: string)
    ensures |r| <= |s| && (r == [] || r[|r| - 1] != c)
  {
    if s != [] && s[|s| - 1] == c then TrimEnd(s[..|s| - 1], c) else s
  }

  /** `s.strip(c)`. */
  function TrimChar(s: string, c: char): string
  {
    TrimEnd(TrimStart(s, c), c)
  }

  lemma {:induction false} TrimStartIsSuffix(s: string, c: char)
    ensures var r := TrimStart(s, c);
            r == s[|s| - |r|..] && forall k :: 0 <= k < |s| - |r| ==> s[k] == c
    decreases |s|
  {
    if s != [] && s[0] == c {
      TrimStartIsSuffix(s[1..], c);
    }
  }

  lemma {:induction false} TrimEndIsPrefix(s: string, c: char)
    ensures var r := TrimEnd(s, c);
            r == s[..|r|] && forall k :: |r| <= k < |s| ==> s[k] == c
    decreases |s|
  {
    if s != [] && s[|s| - 1] == c {
      TrimEndIsPrefix(s[..|s| - 1], c);
    }
  }

  /**
   * The stripped name is the slice of the original between leading and
   * trailing runs of `c`, and neither starts nor ends with `c`.
   */
  lemma TrimCharIsSlice(s: string, c: char)
    ensures var r := TrimChar(s, c);
            var lo := |s| - |TrimStart(s, c)|;
            lo + |r| <= |s| && r == s[lo..lo + |r|] &&
            (forall k :: 0 <= k < lo ==> s[k] == c) &&
            (forall k :: lo + |r| <= k < |s| ==> s[k] == c) &&
            (r == [] || (r[0] != c && r[|r| - 1] != c))
  {
    var a := TrimStart(s, c);
    var r := TrimEnd(a, c);
    TrimStartIsSuffix(s, c);
    TrimEndIsPrefix(a, c);
    var lo := |s| - |a|;
    assert r == s[lo..lo + |r|];
    forall k | lo + |r| <= k < |s|
      ensures s[k] == c
    {
      assert s[k] == a[k - lo];
    }
    if r != [] {
      assert r[0] == a[0];
    }
  }

  /**
   * The stop `read_point` stores for the fields of one stop line: the code
   * from field 0, the name from field 2 without surrounding commas, and
   * the first decimal numbers of fields 4 and 5 as latitude and longitude,
   * or no position when either is missing. The stop has no edges yet.
   */
  function StopOf(arr: seq<string>): (stop: Stop)
    requires |arr| >= 6
    ensures stop.code == arr[0] && stop.routes == []
    ensures stop.geo.Some? <==> FirstDecimalText(arr[4]).Some? && FirstDecimalText(arr[5]).Some?
  {
    var lat, lon := FirstDecimalText(arr[4]), FirstDecimalText(arr[5]);
    var geo := if lon.None? || lat.None? then None else Some(Geo(lat.value, lon.value));
    Stop(TrimChar(arr[2], ','), arr[0], geo, [])
  }

  /** `[line.split() for line in lines]`. */
  function Records(lines: seq<string>): (records: seq<seq<string>>)
    ensures |records| == |lines|
  {
    seq(|lines|, i requires 0 <= i < |lines| => Words(lines[i]))
  }

  /** What `read_routes` takes from one record: course, stop, day type and time of day. */
  datatype Record = Record(course: string, stop: string, rtype: string, time: int)

  /**
   * The record as `read_routes` reads it: the first three words and the
   * fourth read as a time of day; `None` where the record is too short or
   * its fourth word is not a time, on which `read_routes` raises.
   */
  function ReadRecord(words: seq<string>): (r: Option<Record>)
    ensures r.Some? <==> |words| >= 4 && AsTime(words[3], '.').Some?
    ensures r.Some? ==> r.value.course == words[0] && r.value.stop == words[1] && r.value.rtype == words[2]
    ensures r.Some? ==> 0 <= r.value.time < MINUTES_PER_DAY && Some(r.value.time) == AsTime(words[3], '.')
  {
    if |words| >= 4 && AsTime(words[3], '.').Some? then
      Some(Record(words[0], words[1], words[2], AsTime(words[3], '.').value))
    else None
  }

  /** `records` is what `read_routes` reads from the split lines `words`. */
  predicate ReadAs(words: seq<seq<string>>, records: seq<Record>)
  {
    |words| == |records| &&
    forall i {:trigger ReadRecord(words[i])} :: 0 <= i < |words| ==> ReadRecord(words[i]) == Some(records[i])
  }

  /** Record `k` of `read` holds the first three words of line `k`. */
  lemma ReadAsFields(words: seq<seq<string>>, records: seq<Record>, k: int)
    requires ReadAs(words, records) && 0 <= k < |words|
    ensures |words[k]| >= 4 && words[k][0] == records[k].course && words[k][1] == records[k].stop && words[k][2] == records[k].rtype
  {
    assert ReadRecord(words[k]) == Some(records[k]);
  }

  /** Every line of a course block reads as a record. */
  predicate Readable(lines: seq<string>)
  {
    forall i {:trigger Words(lines[i])} :: 0 <= i < |lines| ==> ReadRecord(Words(lines[i])).Some?
  }

  /** The records of the lines of a course block. */
  function RecordsOf(lines: seq<string>): (records: seq<Record>)
    requires Readable(lines)
    ensures ReadAs(Records(lines), records)
  {
    var records := seq(|lines|, i requires 0 <= i < |lines| => ReadRecord(Words(lines[i])).value);
    assert forall i :: 0 <= i < |lines| ==> Records(lines)[i] == Words(lines[i]);
    records
  }

  /** Whether record `k` belongs to the same course as the record before it. */
  predicate Continues(records: seq<Record>, k: int)
    requires 1 <= k < |records|
  {
    records[k].course == records[k - 1].course
  }

  /**
   * The edge `read_routes` adds at record `k`: from the stop of the record
   * before to the stop of this one, with this record's time as the
   * departure, the difference of the two times as the travel time, and
   * this record's day type.
   */
  function EdgeAt(records: seq<Record>, k: int): (string, Route)
    requires 1 <= k < |records|
  {
    var t, t' := records[k - 1].time, records[k].time;
    (records[k - 1].stop, Route(records[k].stop, Some(t'), t' - t, records[k].rtype))
  }

  /** The edges `read_routes` adds while reading the records before `n`, in order. */
  function CourseEdges(records: seq<Record>, n: nat): (edges: seq<(string, Route)>)
    requires n <= |records|
    decreases n
  {
    if n <= 1 then []
    else CourseEdges(records, n - 1) + (if Continues(records, n - 1) then [EdgeAt(records, n - 1)] else [])
  }

  /** The positions of the records before `n` that continue a course, in increasing order. */
  function ContinuingRecords(records: seq<Record>, n: nat): seq<nat>
    requires n <= |records|
    decreases n
  {
    if n <= 1 then []
    else ContinuingRecords(records, n - 1) + (if Continues(records, n - 1) then [n - 1] else [])
  }

  /**
   * The edges are exactly one per record that continues the course of the
   * record before it, in the order of the records: the first record of
   * every course adds nothing.
   */
  lemma {:induction false} CourseEdgesExactly(records: seq<Record>, n: nat)
    requires n <= |records|
    ensures var edges, ks := CourseEdges(records, n), ContinuingRecords(records, n);
            |edges| == |ks| &&
            (forall i :: 0 <= i < |ks| ==> 1 <= ks[i] < n && Continues(records, ks[i]) && edges[i] == EdgeAt(records, ks[i]))
    ensures ContinuingRecordsOrdered(records, n)
    decreases n
  {
    CourseEdgesMatch(records, n);
    ContinuingRecordsAreOrdered(records, n);
  }

  lemma {:induction false} CourseEdgesMatch(records: seq<Record>, n: nat)
    requires n <= |records|
    ensures var edges, ks := CourseEdges(records, n), ContinuingRecords(records, n);
            |edges| == |ks| &&
            (forall i :: 0 <= i < |ks| ==> 1 <= ks[i] < n && Continues(records, ks[i]) && edges[i] == EdgeAt(records, ks[i]))
    decreases n
  {
    if n > 1 {
      CourseEdgesMatch(records, n - 1);
      var edges, ks := CourseEdges(records, n - 1), ContinuingRecords(records, n - 1);
      if Continues(records, n - 1) {
        var edges', ks' := edges + [EdgeAt(records, n - 1)], ks + [n - 1];
        assert forall i :: 0 <= i < |ks| ==> ks'[i] == ks[i] && edges'[i] == edges[i];
        assert ks'[|ks|] == n - 1 && edges'[|ks|] == EdgeAt(records, n - 1);
      }
    }
  }

  lemma {:induction false} ContinuingRecordsAreOrdered(records: seq<Record>, n: nat)
    requires n <= |records|
    ensures ContinuingRecordsOrdered(records, n)
    decreases n
  {
    if n > 1 {
      ContinuingRecordsAreOrdered(records, n - 1);
      var ks := ContinuingRecords(records, n - 1);
      if Continues(records, n - 1) {
        var ks' := ks + [n - 1];
        assert forall i :: 0 <= i < |ks| ==> ks'[i] == ks[i];
        assert ks'[|ks|] == n - 1;
      }
    }
  }

  /** The positions are increasing, and every continuing record before `n` is among them. */
  predicate ContinuingRecordsOrdered(records: seq<Record>, n: nat)
    requires n <= |records|
  {
    var ks := ContinuingRecords(records, n);
    (forall i :: 0 <= i < |ks| ==> 1 <= ks[i] < n) &&
    (forall i, j :: 0 <= i < j < |ks| ==> ks[i] < ks[j]) &&
    (forall k :: 1 <= k < n && Continues(records, k) ==> k in ks)
  }

  /** Records of a single course give one edge per pair of consecutive records. */
  lemma {:induction false} OneCourseEdges(records: seq<Record>, n: nat)
    requires n <= |records|
    requires forall k :: 0 <= k < |records| ==> records[k].course == records[0].course
    ensures var edges := CourseEdges(records, n);
            |edges| == if n == 0 then 0 else n - 1
    ensures forall i :: 0 <= i < |CourseEdges(records, n)| ==> CourseEdges(records, n)[i] == EdgeAt(records, i + 1)
    decreases n
  {
    if n > 1 {
      OneCourseEdges(records, n - 1);
      assert Continues(records, n - 1);
    }
  }

  /**
   * The edge departs at the time of the later record, so its departure
   * plus its travel time lies `t' - t` minutes after the time the course
   * reaches the later stop.
   */
  lemma EdgeAtArrivesLate(records: seq<Record>, k: int)
    requires 1 <= k < |records|
    ensures var (_, r) := EdgeAt(records, k);
            r.start.Some? && r.start.value + r.time ==
              records[k].time + (records[k].time - records[k - 1].time)
    ensures var (_, r) := EdgeAt(records, k);
            records[k].time != records[k - 1].time ==>
              r.start.value + r.time != records[k].time && r.start.value != records[k - 1].time
  {
  }

  /** Every edge leaves a known stop. */
  predicate FromKnown(points: map<string, Stop>, edges: seq<(string, Route)>)
  {
    forall i :: 0 <= i < |edges| ==> edges[i].0 in points
  }

  /** The stops after appending each edge, in order, to the edges of the stop it leaves. */
  function AppendRoutes(points: map<string, Stop>, edges: seq<(string, Route)>): (r: map<string, Stop>)
    requires FromKnown(points, edges)
    ensures r.Keys == points.Keys
    decreases |edges|
  {
    if edges == [] then points
    else AddEdge(AppendRoutes(points, edges[..|edges| - 1]), edges[|edges| - 1])
  }

  /** The stops after appending edge `e` to the edges of the stop it leaves. */
  function AddEdge(points: map<string, Stop>, e: (string, Route)): (r: map<string, Stop>)
    requires e.0 in points
    ensures r.Keys == points.Keys
  {
    points[e.0 := points[e.0].(routes := points[e.0].routes + [e.1])]
  }

  /** The routes of the edges leaving `code`, in order. */
  function RoutesFrom(edges: seq<(string, Route)>, code: string): seq<Route>
  {
    if edges == [] then []
    else RoutesFrom(edges[..|edges| - 1], code) + (if edges[|edges| - 1].0 == code then [edges[|edges| - 1].1] else [])
  }

  /** The day types of the edges. */
  function TypesOf(edges: seq<(string, Route)>): set<string>
  {
    if edges == [] then {} else TypesOf(edges[..|edges| - 1]) + {edges[|edges| - 1].1.rtype}
  }

  /**
   * Appending keeps every stop's name, code and position, and extends its
   * edges by exactly the edges leaving it, in order.
   */
  lemma {:induction false} AppendRoutesOf(points: map<string, Stop>, edges: seq<(string, Route)>, code: string)
    requires FromKnown(points, edges) && code in points
    ensures AppendRoutes(points, edges)[code] ==
            points[code].(routes := points[code].routes + RoutesFrom(edges, code))
    decreases |edges|
  {
    if edges != [] {
      AppendRoutesOf(points, edges[..|edges| - 1], code);
    }
  }

  /** Appending two lists of edges one after the other is appending their concatenation. */
  lemma {:induction false} AppendRoutesConcat(points: map<string, Stop>, first: seq<(string, Route)>, second: seq<(string, Route)>)
    requires FromKnown(points, first + second)
    ensures FromKnown(points, first) && FromKnown(AppendRoutes(points, first), second)
    ensures AppendRoutes(points, first + second) == AppendRoutes(AppendRoutes(points, first), second)
    decreases |second|
  {
    assert forall i :: 0 <= i < |first| ==> (first + second)[i] == first[i];
    assert forall i :: 0 <= i < |second| ==> (first + second)[|first| + i] == second[i];
    if second == [] {
      assert first + second == first;
    } else {
      var init := second[..|second| - 1];
      assert (first + second)[..|first + second| - 1] == first + init;
      AppendRoutesConcat(points, first, init);
    }
  }

  /** Every edge of the records leaves a known stop, as `add_route` needs. */
  predicate CoursesKnown(points: map<string, Stop>, records: seq<Record>)
  {
    forall k :: 1 <= k < |records| && Continues(records, k) ==> records[k - 1].stop in points
  }

  lemma {:induction false} CourseEdgesKnown(points: map<string, Stop>, records: seq<Record>, n: nat)
    requires CoursesKnown(points, records) && n <= |records|
    ensures FromKnown(points, CourseEdges(records, n))
    decreases n
  {
    if n > 1 {
      CourseEdgesKnown(points, records, n - 1);
    }
  }

  lemma AppendRoutesSnoc(points: map<string, Stop>, edges: seq<(string, Route)>, e: (string, Route))
    requires FromKnown(points, edges) && e.0 in points
    ensures FromKnown(points, edges + [e])
    ensures AppendRoutes(points, edges + [e]) == AddEdge(AppendRoutes(points, edges), e)
    ensures TypesOf(edges + [e]) == TypesOf(edges) + {e.1.rtype}
  {
    var all := edges + [e];
    assert all[..|all| - 1] == edges;
    assert forall i :: 0 <= i < |edges| ==> all[i] == edges[i];
    assert all[|edges|] == e;
  }
}
