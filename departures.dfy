/**
 * The departure lookup of the routing engine (src/dijkstra.ts): given the
 * departures of one timetable edge and the time a traveller is at the stop,
 * find the earliest departure that can still be caught.
 */
module Departures {

  /** One scheduled trip on an edge: `[departure, duration]`, both in minutes. */
  datatype TimedRoute = TimedRoute(departure: int, duration: int)

  /** The time a traveller taking `r` reaches the other end of the edge. */
  function Arrival(r: TimedRoute): int {
    r.departure + r.duration
  }

  /** The order the timetable writer produces for every edge. */
  predicate NonDecreasing(costs: seq<TimedRoute>) {
    forall i, j :: 0 <= i <= j < |costs| ==> costs[i].departure <= costs[j].departure
  }

  predicate StrictlyIncreasing(costs: seq<TimedRoute>) {
    forall i, j :: 0 <= i < j < |costs| ==> costs[i].departure < costs[j].departure
  }

  /**
   * The index of the first departure at or after `current` among positions
   * `i..`, or -1 when every one of them is earlier.
   */
  function EarliestFrom(costs: seq<TimedRoute>, current: int, i: nat): (r: int)
    requires i <= |costs|
    ensures r == -1 || i <= r < |costs|
    ensures r >= 0 ==> current <= costs[r].departure
    ensures r >= 0 ==> forall j :: i <= j < r ==> costs[j].departure < current
    ensures r == -1 ==> forall j :: i <= j < |costs| ==> costs[j].departure < current
    decreases |costs| - i
  {
    if i == |costs| then -1
    else if costs[i].departure >= current then i
    else EarliestFrom(costs, current, i + 1)
  }

  /**
   * The index of the first departure at or after `current`, or -1 when every
   * departure is earlier (in particular for an empty timetable): the earliest
   * departure a traveller at the stop at time `current` can still catch.
   */
  function EarliestCatchable(costs: seq<TimedRoute>, current: int): (r: int)
    ensures -1 <= r < |costs|
    ensures r >= 0 ==> current <= costs[r].departure
    ensures r >= 0 ==> forall j :: 0 <= j < r ==> costs[j].departure < current
    ensures r == -1 ==> forall j :: 0 <= j < |costs| ==> costs[j].departure < current
  {
    EarliestFrom(costs, current, 0)
  }

  /** `routeLinearSearch`: a forward scan that stops at the first catchable departure. */
  method RouteLinearSearch(costs: seq<TimedRoute>, current: int) returns (idx: int)
    ensures idx == EarliestCatchable(costs, current)
  {
    idx := 0;
    while idx < |costs|
      invariant 0 <= idx <= |costs|
      invariant forall j :: 0 <= j < idx ==> costs[j].departure < current
    {
      if costs[idx].departure >= current {
        return;
      }
      idx := idx + 1;
    }
    idx := -1;
  }

  /**
   * The `while (m <= n)` loop of `routeBinSearch`, one iteration per call.
   * `(n + m) >> 1` is halving, since both bounds are small non-negative numbers.
   */
  function BinSearchLoop(costs: seq<TimedRoute>, current: int, m: int, n: int): (r: int)
    requires 1 <= m && n < |costs|
    ensures r >= 0 ==> m <= r <= n && current <= costs[r].departure
    decreases n - m + 1
  {
    if m > n then -m - 1
    else
      var k := (n + m) / 2;
      if current > costs[k].departure then BinSearchLoop(costs, current, k + 1, n)
      else if current < costs[k].departure then
        if current > costs[k - 1].departure then k else BinSearchLoop(costs, current, m, k - 1)
      else k
  }

  /**
   * `routeBinSearch`, as written: -1 on an empty timetable, 0 when the first
   * departure is catchable, a catchable index when one is found, and the
   * negative value `-m-1` otherwise.
   */
  function BinSearch(costs: seq<TimedRoute>, current: int): (r: int)
    ensures |costs| == 0 ==> r == -1
    ensures |costs| > 0 && costs[0].departure >= current ==> r == 0
    ensures r >= 0 ==> r < |costs| && current <= costs[r].departure
  {
    if |costs| == 0 then -1
    else if costs[0].departure >= current then 0
    else BinSearchLoop(costs, current, 1, |costs| - 1)
  }

  /** The loop of `routeBinSearch`, proved to compute `BinSearch`. */
  method RouteBinSearch(costs: seq<TimedRoute>, current: int) returns (r: int)
    ensures r == BinSearch(costs, current)
  {
    if |costs| == 0 {
      return -1;
    }
    if costs[0].departure >= current {
      return 0;
    }
    var m := 1;
    var n := |costs| - 1;
    while m <= n
      invariant 1 <= m && n < |costs|
      invariant BinSearchLoop(costs, current, m, n) == BinSearch(costs, current)
      decreases n - m + 1
    {
      var k := (n + m) / 2;
      if current > costs[k].departure {
        m := k + 1;
      } else if current < costs[k].departure {
        if current > costs[k - 1].departure {
          return k;
        } else {
          n := k - 1;
        }
      } else {
        return k;
      }
    }
    return -m - 1;
  }

  /** The earliest catchable index is pinned down by its two defining facts. */
  lemma EarliestCatchableAt(costs: seq<TimedRoute>, current: int, i: int)
    requires 0 <= i < |costs| && current <= costs[i].departure
    requires forall j :: 0 <= j < i ==> costs[j].departure < current
    ensures EarliestCatchable(costs, current) == i
  {
  }

  /** On a non-decreasing timetable, everything before an uncatchable departure is uncatchable too. */
  lemma UncatchableBefore(costs: seq<TimedRoute>, current: int, i: int)
    requires NonDecreasing(costs)
    requires 0 <= i < |costs| && costs[i].departure < current
    ensures forall j :: 0 <= j <= i ==> costs[j].departure < current
  {
    forall j | 0 <= j <= i
      ensures costs[j].departure < current
    {
      assert costs[j].departure <= costs[i].departure;
    }
  }

  /** A departure at exactly `current` has the earliest catchable departure time. */
  lemma ExactMatchIsEarliestTime(costs: seq<TimedRoute>, current: int, k: int)
    requires NonDecreasing(costs)
    requires 0 <= k < |costs| && costs[k].departure == current
    ensures 0 <= EarliestCatchable(costs, current) <= k
    ensures costs[EarliestCatchable(costs, current)].departure == current
  {
    var lb := EarliestCatchable(costs, current);
    assert costs[lb].departure <= costs[k].departure;
  }

  /**
   * `r` is a search result that agrees with the linear search: it is negative
   * exactly when nothing is catchable, and otherwise an index no earlier than
   * the earliest catchable one whose departure is at the same time.
   */
  predicate AgreesWithEarliest(costs: seq<TimedRoute>, current: int, r: int)
  {
    var lb := EarliestCatchable(costs, current);
    (r < 0 <==> lb < 0) && (r >= 0 ==> lb <= r < |costs| && costs[r].departure == costs[lb].departure)
  }

  /**
   * On a non-decreasing timetable each step of the loop keeps the earliest
   * catchable index inside the search window, so the loop finds a catchable
   * departure exactly when one exists, and the departure it finds has the
   * earliest catchable departure time (though possibly a later index).
   */
  lemma {:induction false} BinSearchLoopOnSorted(costs: seq<TimedRoute>, current: int, m: int, n: int)
    requires NonDecreasing(costs)
    requires 1 <= m <= n + 1 && n < |costs|
    requires costs[m - 1].departure < current
    requires n + 1 < |costs| ==> current <= costs[n].departure
    ensures AgreesWithEarliest(costs, current, BinSearchLoop(costs, current, m, n))
    decreases n - m + 1
  {
    if m > n {
      UncatchableBefore(costs, current, n);
    } else {
      var k := (n + m) / 2;
      if current > costs[k].departure {
        BinSearchLoopOnSorted(costs, current, k + 1, n);
      } else if current < costs[k].departure && current <= costs[k - 1].departure {
        BinSearchLoopOnSorted(costs, current, m, k - 1);
      } else {
        FoundAgrees(costs, current, k);
      }
    }
  }

  /** The index where the loop stops agrees with the linear search. */
  lemma FoundAgrees(costs: seq<TimedRoute>, current: int, k: int)
    requires NonDecreasing(costs)
    requires 1 <= k < |costs| && current <= costs[k].departure
    requires current < costs[k].departure ==> costs[k - 1].departure < current
    ensures AgreesWithEarliest(costs, current, k)
  {
    if current == costs[k].departure {
      ExactMatchIsEarliestTime(costs, current, k);
    } else {
      UncatchableBefore(costs, current, k - 1);
      EarliestCatchableAt(costs, current, k);
    }
  }

  /**
   * On any non-decreasing timetable the binary search succeeds exactly when
   * the linear search does, and finds a departure at the same time.
   */
  lemma BinSearchOnSorted(costs: seq<TimedRoute>, current: int)
    requires NonDecreasing(costs)
    ensures AgreesWithEarliest(costs, current, BinSearch(costs, current))
  {
    if |costs| == 0 {
    } else if costs[0].departure >= current {
      EarliestCatchableAt(costs, current, 0);
    } else {
      BinSearchLoopOnSorted(costs, current, 1, |costs| - 1);
    }
  }

  /** A window of uncatchable departures ends the loop with `-n-2`. */
  lemma {:induction false} BinSearchLoopAllEarlier(costs: seq<TimedRoute>, current: int, m: int, n: int)
    requires 1 <= m <= n + 1 && n < |costs|
    requires forall j :: m <= j <= n ==> costs[j].departure < current
    ensures BinSearchLoop(costs, current, m, n) == -n - 2
    decreases n - m + 1
  {
    if m <= n {
      BinSearchLoopAllEarlier(costs, current, (n + m) / 2 + 1, n);
    }
  }

  /**
   * When every departure has already left, `routeBinSearch` returns
   * `-|costs|-1`, one below minus the number of entries.
   */
  lemma BinSearchAllEarlier(costs: seq<TimedRoute>, current: int)
    requires forall j :: 0 <= j < |costs| ==> costs[j].departure < current
    ensures BinSearch(costs, current) == -|costs| - 1
  {
    if |costs| > 0 {
      BinSearchLoopAllEarlier(costs, current, 1, |costs| - 1);
    }
  }

  /** With strictly increasing departures the two searches return the same index. */
  lemma BinSearchAgreesOnStrictlyIncreasing(costs: seq<TimedRoute>, current: int)
    requires StrictlyIncreasing(costs)
    ensures BinSearch(costs, current) >= 0 ==> BinSearch(costs, current) == EarliestCatchable(costs, current)
    ensures BinSearch(costs, current) < 0 <==> EarliestCatchable(costs, current) == -1
  {
    BinSearchOnSorted(costs, current);
  }

  /**
   * With repeated departure times the binary search may return a later
   * duplicate, whose trip has a different duration: here it picks index 2
   * (arrival 17) where the linear search picks index 1 (arrival 15).
   */
  lemma BinSearchPicksLaterDuplicate()
    ensures var costs := [TimedRoute(5, 1), TimedRoute(10, 5), TimedRoute(10, 7), TimedRoute(10, 9)];
            NonDecreasing(costs) &&
            BinSearch(costs, 10) == 2 && Arrival(costs[2]) == 17 &&
            EarliestCatchable(costs, 10) == 1 && Arrival(costs[1]) == 15
  {
    var costs := [TimedRoute(5, 1), TimedRoute(10, 5), TimedRoute(10, 7), TimedRoute(10, 9)];
    assert BinSearchLoop(costs, 10, 1, 3) == 2;
    EarliestCatchableAt(costs, 10, 1);
  }

  /**
   * A binary search that keeps looking left on equality, so that on a
   * non-decreasing timetable it returns the first catchable index, exactly as
   * the linear search does.
   */
  method RouteLowerBoundSearch(costs: seq<TimedRoute>, current: int) returns (idx: int)
    requires NonDecreasing(costs)
    ensures idx == EarliestCatchable(costs, current)
  {
    var lo, hi := 0, |costs|;
    while lo < hi
      invariant 0 <= lo <= hi <= |costs|
      invariant forall j :: 0 <= j < lo ==> costs[j].departure < current
      invariant forall j :: hi <= j < |costs| ==> current <= costs[j].departure
    {
      var mid := (lo + hi) / 2;
      if costs[mid].departure < current {
        lo := mid + 1;
      } else {
        hi := mid;
      }
    }
    if lo < |costs| {
      EarliestCatchableAt(costs, current, lo);
      idx := lo;
    } else {
      idx := -1;
    }
  }
}
