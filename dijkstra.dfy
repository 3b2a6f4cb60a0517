/**
 * The routing engine of src/dijkstra.ts: a label-setting search over stops
 * with walking edges (fixed duration) and timetable edges (relaxed through
 * the earliest catchable departure), pruning stale queue entries when they
 * are popped.
 *
 * A stop record of the source carries both its walking edges and the
 * search state the engine overwrites. The engine never writes the edges,
 * so the model keeps them in the constant map `walks` and keeps the search
 * state, by stop code, in the mutable map `points`. `order` is the order
 * in which stop codes are enumerated, and the distance from the chosen
 * centre to every stop is an input.
 */
module Dijkstra {
  import opened Common
  import opened Departures
  import opened PriorityQueue

  /** `Number.MAX_SAFE_INTEGER`, the cost of a stop not reached yet. */
  const MAX_SAFE_INTEGER: int := 9007199254740991

  /** The search state of a stop: expanded or not, and the best arrival time known. */
  datatype Point = Point(visited: bool, cost: int)

  /** Walking edges by origin code: destination code to minutes. */
  type Walks = map<string, map<string, int>>

  /** The departures of every timetable edge leaving one stop, by destination. */
  type TimedRoutes = map<string, seq<TimedRoute>>

  /** Timetable edges by origin code. */
  type Routes = map<string, TimedRoutes>

  /**
   * The run-time failures: no stop qualifies as the starting stop, or an
   * expanded stop has an edge to a code missing from the table, whose
   * record the source then reads as `undefined`.
   */
  datatype EngineError = NoStartingStop | UnknownStop(code: string)

  /** The walking edges leaving `code`. */
  function Walking(walks: Walks, code: string): map<string, int>
  {
    if code in walks then walks[code] else map[]
  }

  /** The timetable edges leaving `code`; a stop without any has none. */
  function Driving(routes: Routes, code: string): TimedRoutes
  {
    if code in routes then routes[code] else map[]
  }

  /** `order` lists exactly the stop codes. */
  predicate Enumerates(order: seq<string>, walks: Walks)
  {
    (forall k :: k in order ==> k in walks) && (forall k :: k in walks ==> k in order)
  }

  /** Every edge of every stop leads to a known stop. */
  predicate Closed(walks: Walks, routes: Routes)
  {
    forall code :: code in walks ==> walks[code].Keys <= walks.Keys && Driving(routes, code).Keys <= walks.Keys
  }

  /**
   * Expanding `code` at cost `c` reaches no missing stop: every walking
   * neighbour is in `keys`, and no missing timetable neighbour has a trip
   * catchable at `c`.
   */
  predicate Expandable(walks: Walks, routes: Routes, keys: set<string>, code: string, c: int)
  {
    Walking(walks, code).Keys <= keys &&
    forall k :: k in Driving(routes, code) && k !in keys ==> EarliestCatchable(Driving(routes, code)[k], c) < 0
  }

  predicate WalkNonNegative(walk: map<string, int>)
  {
    forall k :: k in walk ==> walk[k] >= 0
  }

  predicate DriveNonNegative(drive: TimedRoutes)
  {
    forall k, i :: k in drive && 0 <= i < |drive[k]| ==> drive[k][i].duration >= 0
  }

  /** No edge leads back in time: walks and trips take no negative time. */
  predicate NonNegativeEdges(walks: Walks, routes: Routes)
  {
    forall code :: code in walks ==> WalkNonNegative(walks[code]) && DriveNonNegative(Driving(routes, code))
  }

  /** The cost of `k`, previously `base`, after the walk to it from a stop reached at `c` is offered. */
  function WalkOffer(walk: map<string, int>, c: int, k: string, base: int): int
  {
    if k in walk && base > c + walk[k] then c + walk[k] else base
  }

  /**
   * The cost of `k`, previously `base`, after the timetable edge to it from
   * a stop reached at time `c` is offered: the arrival of the earliest
   * catchable trip, if any.
   */
  function DriveOffer(drive: TimedRoutes, c: int, k: string, base: int): int
  {
    if k in drive && EarliestCatchable(drive[k], c) >= 0 && base > Arrival(drive[k][EarliestCatchable(drive[k], c)])
    then Arrival(drive[k][EarliestCatchable(drive[k], c)])
    else base
  }

  /** The cost of `k`, previously `base`, once a stop reached at `c` has been expanded. */
  function Expanded(walk: map<string, int>, drive: TimedRoutes, c: int, k: string, base: int): int
  {
    DriveOffer(drive, c, k, WalkOffer(walk, c, k, base))
  }

  /**
   * No edge out of `code` offers any neighbour a cost below the one it has:
   * the relaxation condition at a settled stop.
   */
  predicate Relaxed(walks: Walks, routes: Routes, points: map<string, Point>, code: string)
    requires code in points
  {
    var c := points[code].cost;
    var walk := Walking(walks, code);
    var drive := Driving(routes, code);
    (forall k :: k in walk && k in points ==> points[k].cost <= c + walk[k]) &&
    (forall k :: k in drive && k in points && EarliestCatchable(drive[k], c) >= 0 ==>
       points[k].cost <= Arrival(drive[k][EarliestCatchable(drive[k], c)]))
  }

  /** Every visited stop satisfies the relaxation condition. */
  predicate Fixpoint(walks: Walks, routes: Routes, points: map<string, Point>)
  {
    forall code :: code in points && points[code].visited ==> Relaxed(walks, routes, points, code)
  }

  /** The flags after expanding `code`: it is visited, and no other flag changed. */
  predicate MarksVisited(before: map<string, Point>, after: map<string, Point>, code: string)
  {
    after.Keys == before.Keys &&
    forall k :: k in after ==> after[k].visited == (k == code || before[k].visited)
  }

  predicate CostsDecrease(before: map<string, Point>, after: map<string, Point>)
  {
    forall k :: k in after && k in before ==> after[k].cost <= before[k].cost
  }

  /**
   * Every queue entry `added` by an expansion names an unvisited stop whose
   * cost it strictly improved, and which has not got worse since.
   */
  predicate Pushed(before: map<string, Point>, after: map<string, Point>, added: seq<PointPriority>)
  {
    forall e :: e in added ==>
      e.code in before && e.code in after && !after[e.code].visited &&
      after[e.code].cost <= e.priority < before[e.code].cost
  }

  /** Every unvisited stop whose cost an expansion improved was queued with its new cost. */
  predicate Announced(before: map<string, Point>, after: map<string, Point>, added: seq<PointPriority>)
  {
    forall k :: k in after && k in before && !after[k].visited && after[k].cost < before[k].cost ==>
      PointPriority(k, after[k].cost) in added
  }

  /** Every stop has the cost the expansion of a stop reached at `c` gives it. */
  predicate ExpandedCosts(before: map<string, Point>, after: map<string, Point>,
                          walk: map<string, int>, drive: TimedRoutes, c: int)
  {
    forall k :: k in after && k in before ==> after[k].cost == Expanded(walk, drive, c, k, before[k].cost)
  }

  predicate AtLeast(q: seq<PointPriority>, c: int)
  {
    forall x :: x in q ==> c <= x.priority
  }

  /** Unvisited stops have not gone above the initial cost. */
  predicate Bounded(points: map<string, Point>)
  {
    forall k :: k in points && !points[k].visited ==> points[k].cost <= MAX_SAFE_INTEGER
  }

  /** Every queue entry names a known stop whose cost is at most its priority, below the initial cost. */
  predicate QueueInv(points: map<string, Point>, q: seq<PointPriority>)
  {
    forall x :: x in q ==> x.code in points && points[x.code].cost <= x.priority < MAX_SAFE_INTEGER
  }

  /** Every unvisited stop that has been reached is queued with its current cost. */
  predicate PendingInv(points: map<string, Point>, q: seq<PointPriority>)
  {
    forall k :: k in points && !points[k].visited && points[k].cost < MAX_SAFE_INTEGER ==>
      PointPriority(k, points[k].cost) in q
  }

  /**
   * Visited stops cost at most `f` and are relaxed, and no queue entry is
   * below `f`: what holds at every step when edges are non-negative.
   */
  predicate Settled(walks: Walks, routes: Routes, points: map<string, Point>, q: seq<PointPriority>, f: int)
  {
    (forall k :: k in points && points[k].visited ==> points[k].cost <= f && Relaxed(walks, routes, points, k)) &&
    AtLeast(q, f)
  }

  function Unvisited(points: map<string, Point>): set<string>
  {
    set k | k in points && !points[k].visited
  }

  /**
   * Position `j` of the enumeration order names a stop that may start the
   * search: it has walking edges and is nearer than the initial bound.
   */
  predicate Candidate(order: seq<string>, walks: Walks, distances: map<string, real>, j: int)
  {
    0 <= j < |order| && order[j] in walks && order[j] in distances &&
    |walks[order[j]]| > 0 && distances[order[j]] < MAX_SAFE_INTEGER as real
  }

  /**
   * Position `i` names the starting stop: a candidate strictly nearer than
   * every earlier candidate and no farther than any later one.
   */
  predicate AnchorAt(order: seq<string>, walks: Walks, distances: map<string, real>, i: int)
  {
    Candidate(order, walks, distances, i) &&
    (forall j :: 0 <= j < i && Candidate(order, walks, distances, j) ==> distances[order[i]] < distances[order[j]]) &&
    (forall j :: i < j < |order| && Candidate(order, walks, distances, j) ==> distances[order[i]] <= distances[order[j]])
  }

  predicate NoAnchor(order: seq<string>, walks: Walks, distances: map<string, real>)
  {
    forall j :: 0 <= j < |order| ==> !Candidate(order, walks, distances, j)
  }

  /** There is at most one starting stop. */
  lemma AnchorUnique(order: seq<string>, walks: Walks, distances: map<string, real>, i: int, i': int)
    requires AnchorAt(order, walks, distances, i) && AnchorAt(order, walks, distances, i')
    ensures i == i'
  {
  }

  /** A walking offer never raises a cost, and it is the better of the old cost and the walk. */
  lemma WalkOfferBounds(walk: map<string, int>, c: int, k: string, base: int)
    ensures WalkOffer(walk, c, k, base) <= base
    ensures k in walk ==> WalkOffer(walk, c, k, base) <= c + walk[k]
    ensures WalkNonNegative(walk) ==> WalkOffer(walk, c, k, base) >= if base < c then base else c
  {
  }

  /**
   * An expansion never raises a cost, and with non-negative edges it never
   * takes a cost below the expanded stop's own cost `c`.
   */
  lemma ExpandedBounds(walk: map<string, int>, drive: TimedRoutes, c: int, k: string, base: int)
    ensures Expanded(walk, drive, c, k, base) <= base
    ensures WalkNonNegative(walk) && DriveNonNegative(drive) ==>
              Expanded(walk, drive, c, k, base) >= if base < c then base else c
  {
    WalkOfferBounds(walk, c, k, base);
    if k in drive && EarliestCatchable(drive[k], c) >= 0 {
      var idx := EarliestCatchable(drive[k], c);
      if DriveNonNegative(drive) {
        assert drive[k][idx].duration >= 0;
      }
    }
  }

  /** After an expansion at `c` that leaves the stop at `c`, the stop is relaxed. */
  lemma {:induction false} ExpandedRelaxes(walks: Walks, routes: Routes, before: map<string, Point>,
                                           after: map<string, Point>, code: string)
    requires code in before && code in after && after.Keys == before.Keys
    requires ExpandedCosts(before, after, Walking(walks, code), Driving(routes, code), before[code].cost)
    requires after[code].cost == before[code].cost
    ensures Relaxed(walks, routes, after, code)
  {
    var c := before[code].cost;
    var walk := Walking(walks, code);
    var drive := Driving(routes, code);
    forall k | k in walk && k in after
      ensures after[k].cost <= c + walk[k]
    {
      WalkOfferBounds(walk, c, k, before[k].cost);
      assert after[k].cost == DriveOffer(drive, c, k, WalkOffer(walk, c, k, before[k].cost));
    }
    forall k | k in drive && k in after && EarliestCatchable(drive[k], c) >= 0
      ensures after[k].cost <= Arrival(drive[k][EarliestCatchable(drive[k], c)])
    {
      assert after[k].cost == DriveOffer(drive, c, k, WalkOffer(walk, c, k, before[k].cost));
    }
  }

  /** A relaxed stop whose cost did not change stays relaxed while other costs fall. */
  lemma {:induction false} RelaxedKept(walks: Walks, routes: Routes, before: map<string, Point>,
                                       after: map<string, Point>, code: string)
    requires code in before && code in after && after.Keys == before.Keys && CostsDecrease(before, after)
    requires Relaxed(walks, routes, before, code) && after[code].cost == before[code].cost
    ensures Relaxed(walks, routes, after, code)
  {
    var c := after[code].cost;
    var walk := Walking(walks, code);
    var drive := Driving(routes, code);
    forall k | k in walk && k in after
      ensures after[k].cost <= c + walk[k]
    {
      assert before[k].cost <= c + walk[k];
    }
    forall k | k in drive && k in after && EarliestCatchable(drive[k], c) >= 0
      ensures after[k].cost <= Arrival(drive[k][EarliestCatchable(drive[k], c)])
    {
      assert before[k].cost <= Arrival(drive[k][EarliestCatchable(drive[k], c)]);
    }
  }

  /** Expanding an unvisited stop removes exactly that stop from the unvisited ones. */
  lemma UnvisitedShrinks(before: map<string, Point>, after: map<string, Point>, code: string)
    requires code in before && !before[code].visited && MarksVisited(before, after, code)
    ensures Unvisited(after) == Unvisited(before) - {code}
    ensures |Unvisited(after)| < |Unvisited(before)|
  {
    assert Unvisited(after) == Unvisited(before) - {code};
  }

  /**
   * Popping the entry `e` of an unvisited stop `k`: the remaining queue still
   * satisfies the queue invariants except for `k`, whose cost equals the
   * popped priority, and with non-negative edges `k` lies at the frontier.
   */
  lemma {:induction false} PopFresh(walks: Walks, routes: Routes, points: map<string, Point>, q: seq<PointPriority>,
                                    rest: seq<PointPriority>, e: PointPriority, f: int, nn: bool)
    requires QueueInv(points, q) && PendingInv(points, q) && (nn ==> Settled(walks, routes, points, q, f))
    requires e in q && IsMinimal(e, q)
    requires forall x :: x in rest ==> x in q
    requires forall x :: x in q && x != e ==> x in rest
    requires e.code in points && !points[e.code].visited
    ensures QueueInv(points, rest)
    ensures points[e.code].cost == e.priority
    ensures forall k :: k in points && k != e.code && !points[k].visited && points[k].cost < MAX_SAFE_INTEGER ==>
              PointPriority(k, points[k].cost) in rest
    ensures nn ==> forall k :: k in points && points[k].visited ==>
              points[k].cost <= e.priority && Relaxed(walks, routes, points, k)
    ensures AtLeast(rest, e.priority)
  {
    var k := e.code;
    assert PointPriority(k, points[k].cost) in q;
  }

  /** Popping the entry of a visited stop keeps every invariant. */
  lemma {:induction false} PopStale(walks: Walks, routes: Routes, points: map<string, Point>, q: seq<PointPriority>,
                                    rest: seq<PointPriority>, e: PointPriority, f: int, nn: bool)
    requires QueueInv(points, q) && PendingInv(points, q) && (nn ==> Settled(walks, routes, points, q, f))
    requires forall x :: x in rest ==> x in q
    requires forall x :: x in q && x != e ==> x in rest
    requires e.code in points && points[e.code].visited
    ensures QueueInv(points, rest) && PendingInv(points, rest) && (nn ==> Settled(walks, routes, points, rest, f))
  {
  }

  /**
   * Expanding the unvisited stop `code`, against a queue `rest` that records
   * every other reached unvisited stop, restores the queue invariants on
   * `rest` plus the entries the expansion added.
   */
  lemma {:induction false} ExpandKeepsQueue(before: map<string, Point>, after: map<string, Point>,
                                            rest: seq<PointPriority>, added: seq<PointPriority>, code: string)
    requires code in before && !before[code].visited
    requires forall k :: k in before && k != code && !before[k].visited ==> before[k].cost <= MAX_SAFE_INTEGER
    requires QueueInv(before, rest)
    requires forall k :: k in before && k != code && !before[k].visited && before[k].cost < MAX_SAFE_INTEGER ==>
               PointPriority(k, before[k].cost) in rest
    requires MarksVisited(before, after, code) && CostsDecrease(before, after)
    requires Pushed(before, after, added) && Announced(before, after, added)
    ensures Bounded(after) && QueueInv(after, rest + added) && PendingInv(after, rest + added)
  {
    forall x | x in rest + added
      ensures x.code in after && after[x.code].cost <= x.priority < MAX_SAFE_INTEGER
    {
      if x in added {
        assert x.code != code;
      }
    }
    forall k | k in after && !after[k].visited && after[k].cost < MAX_SAFE_INTEGER
      ensures PointPriority(k, after[k].cost) in rest + added
    {
      if after[k].cost < before[k].cost {
        assert PointPriority(k, after[k].cost) in added;
      } else {
        assert PointPriority(k, before[k].cost) in rest;
      }
    }
  }

  /**
   * With non-negative edges, expanding the stop at the frontier `c` keeps
   * every visited cost, keeps every visited stop relaxed, relaxes the new
   * one, and queues nothing below `c`.
   */
  lemma {:induction false} ExpandKeepsSettled(walks: Walks, routes: Routes, before: map<string, Point>,
                                              after: map<string, Point>, rest: seq<PointPriority>,
                                              added: seq<PointPriority>, code: string)
    requires code in before
    requires WalkNonNegative(Walking(walks, code)) && DriveNonNegative(Driving(routes, code))
    requires forall k :: k in before && before[k].visited ==>
               before[k].cost <= before[code].cost && Relaxed(walks, routes, before, k)
    requires AtLeast(rest, before[code].cost)
    requires MarksVisited(before, after, code) && CostsDecrease(before, after)
    requires ExpandedCosts(before, after, Walking(walks, code), Driving(routes, code), before[code].cost)
    requires AtLeast(added, before[code].cost)
    ensures Settled(walks, routes, after, rest + added, before[code].cost)
    ensures forall k :: k in before && before[k].visited ==> after[k].cost == before[k].cost
  {
    var c := before[code].cost;
    var walk := Walking(walks, code);
    var drive := Driving(routes, code);
    ExpandedBounds(walk, drive, c, code, c);
    ExpandedRelaxes(walks, routes, before, after, code);
    forall k | k in before && before[k].visited
      ensures after[k].cost == before[k].cost
    {
      ExpandedBounds(walk, drive, c, k, before[k].cost);
    }
    forall k | k in after && after[k].visited
      ensures after[k].cost <= c && Relaxed(walks, routes, after, k)
    {
      if k != code {
        RelaxedKept(walks, routes, before, after, k);
      }
    }
  }

  /** A stop as `initState` leaves it when it is not the start. */
  predicate IsReset(p: Point)
  {
    !p.visited && p.cost == MAX_SAFE_INTEGER
  }

  /** The state of `initState` after resetting `order[..i]`. */
  predicate Resetting(order: seq<string>, before: map<string, Point>, points: map<string, Point>, i: int)
  {
    0 <= i <= |order| && points.Keys == before.Keys &&
    (forall j :: 0 <= j < i ==> order[j] in points && IsReset(points[order[j]]))
  }

  /**
   * The choice of `initState` after scanning `order[..i]`: either nothing
   * qualified so far, or `at` is the position of the nearest candidate seen,
   * the first one among equally near ones, and `min` its distance.
   */
  predicate Scanned(order: seq<string>, walks: Walks, distances: map<string, real>, i: int,
                    anchor: Option<string>, at: int, min: real)
    requires 0 <= i <= |order|
  {
    if anchor.None? then
      min == MAX_SAFE_INTEGER as real && forall j :: 0 <= j < i ==> !Candidate(order, walks, distances, j)
    else
      0 <= at < i && order[at] == anchor.value && Candidate(order, walks, distances, at) &&
      min == distances[anchor.value] &&
      (forall j :: 0 <= j < at && Candidate(order, walks, distances, j) ==> min < distances[order[j]]) &&
      (forall j :: at < j < i && Candidate(order, walks, distances, j) ==> min <= distances[order[j]])
  }

  lemma ResetStep(order: seq<string>, before: map<string, Point>, points: map<string, Point>, i: int)
    requires Resetting(order, before, points, i) && i < |order| && order[i] in points
    ensures Resetting(order, before, points[order[i] := Point(false, MAX_SAFE_INTEGER)], i + 1)
  {
  }

  lemma ScanStep(order: seq<string>, walks: Walks, distances: map<string, real>, i: int,
                 anchor: Option<string>, at: int, min: real)
    requires 0 <= i < |order| && order[i] in walks && order[i] in distances
    requires Scanned(order, walks, distances, i, anchor, at, min)
    ensures var key := order[i];
            if distances[key] < min && |walks[key]| > 0
            then Scanned(order, walks, distances, i + 1, Some(key), i, distances[key])
            else Scanned(order, walks, distances, i + 1, anchor, at, min)
  {
  }

  /** The scan and the resets, once complete, give what `initState` promises. */
  lemma {:induction false} InitDone(order: seq<string>, walks: Walks, before: map<string, Point>, reset: map<string, Point>,
                                    distances: map<string, real>, start: int, i: int, anchor: Option<string>, at: int,
                                    min: real, after: map<string, Point>)
    requires Enumerates(order, walks) && before.Keys == walks.Keys
    requires i == |order|
    requires Resetting(order, before, reset, i) && Scanned(order, walks, distances, i, anchor, at, min)
    requires anchor.None? ==> after == reset
    requires anchor.Some? ==> anchor.value in reset
    requires anchor.Some? ==> after == reset[anchor.value := Point(false, start + (12.0 * min).Floor)]
    ensures Initialised(order, walks, distances, start, anchor, after)
  {
    forall k | k in reset
      ensures IsReset(reset[k])
    {
      var j :| 0 <= j < |order| && order[j] == k;
    }
  }

  /**
   * The state of `visit` on `code` between edges: the flags are final, costs
   * have only fallen, and the queue has grown by well-formed entries that
   * announce every improved unvisited stop.
   */
  predicate Expanding(before: map<string, Point>, code: string, q0: seq<PointPriority>,
                      points: map<string, Point>, q: seq<PointPriority>)
  {
    MarksVisited(before, points, code) && CostsDecrease(before, points) &&
    |q0| <= |q| && q[..|q0|] == q0 &&
    Pushed(before, points, q[|q0|..]) && Announced(before, points, q[|q0|..])
  }

  /**
   * One offer of `cost` to `key`: taken when strictly better, and then
   * queued when `key` is unvisited.
   */
  predicate Offer(points: map<string, Point>, q: seq<PointPriority>, key: string, cost: int,
                  points': map<string, Point>, q': seq<PointPriority>)
  {
    key in points &&
    if points[key].cost > cost then
      points' == points[key := points[key].(cost := cost)] &&
      q' == if points[key].visited then q else q + [PointPriority(key, cost)]
    else
      points' == points && q' == q
  }

  /** The costs after an offer of `cost` to `key`: only `key` may fall, to `cost`. */
  predicate CostUpdate(points: map<string, Point>, points': map<string, Point>, key: string, cost: int)
  {
    points'.Keys == points.Keys &&
    forall k :: k in points' ==> points'[k].cost == if k == key && points[key].cost > cost then cost else points[k].cost
  }

  lemma VisitStart(before: map<string, Point>, code: string, q0: seq<PointPriority>)
    requires code in before
    ensures Expanding(before, code, q0, before[code := before[code].(visited := true)], q0)
  {
    assert q0[|q0|..] == [];
  }

  /** An offer keeps the state of `visit` well-formed. */
  lemma {:induction false} OfferKeepsExpanding(before: map<string, Point>, code: string, q0: seq<PointPriority>,
                                               points: map<string, Point>, q: seq<PointPriority>,
                                               key: string, cost: int, points': map<string, Point>,
                                               q': seq<PointPriority>, c: int)
    requires Expanding(before, code, q0, points, q)
    requires Offer(points, q, key, cost, points', q')
    ensures Expanding(before, code, q0, points', q')
    ensures CostUpdate(points, points', key, cost)
    ensures AtLeast(q[|q0|..], c) && c <= cost ==> AtLeast(q'[|q0|..], c)
  {
    if points[key].cost > cost && !points[key].visited {
      assert q'[|q0|..] == q[|q0|..] + [PointPriority(key, cost)];
      assert q'[..|q0|] == q[..|q0|];
    }
  }

  /**
   * With non-negative walks, the costs while walking: `code` stays at `c`,
   * walked neighbours have had their offer, the others are untouched.
   */
  predicate Walked(before: map<string, Point>, points: map<string, Point>, code: string,
                   walk: map<string, int>, c: int, todo: set<string>)
  {
    code in points && points[code].cost == c &&
    forall k :: k in points && k in before ==>
      points[k].cost == if k in todo then before[k].cost else WalkOffer(walk, c, k, before[k].cost)
  }

  lemma {:induction false} WalkStep(before: map<string, Point>, points: map<string, Point>, code: string,
                                    walk: map<string, int>, c: int, todo: set<string>, key: string,
                                    cost: int, points': map<string, Point>)
    requires WalkNonNegative(walk) && code in before && before[code].cost == c
    requires Walked(before, points, code, walk, c, todo) && key in todo && todo <= walk.Keys
    requires cost == points[code].cost + walk[key]
    requires CostUpdate(points, points', key, cost)
    ensures Walked(before, points', code, walk, c, todo - {key})
    ensures c <= cost
  {
  }

  /** With non-negative edges, the costs while taking timetable edges, after the walks. */
  predicate Driven(before: map<string, Point>, points: map<string, Point>, code: string,
                   drive: TimedRoutes, c: int, todo: set<string>)
  {
    code in points && points[code].cost == c &&
    forall k :: k in points && k in before ==>
      points[k].cost == if k in todo then before[k].cost else DriveOffer(drive, c, k, before[k].cost)
  }

  /** A timetable edge with a catchable trip offers the trip's arrival. */
  lemma {:induction false} DriveStep(before: map<string, Point>, points: map<string, Point>, code: string,
                                     drive: TimedRoutes, c: int, todo: set<string>, key: string,
                                     idx: int, cost: int, points': map<string, Point>)
    requires DriveNonNegative(drive) && code in before && before[code].cost == c
    requires Driven(before, points, code, drive, c, todo) && key in todo && todo <= drive.Keys
    requires idx == EarliestCatchable(drive[key], points[code].cost) && idx >= 0
    requires cost == drive[key][idx].departure + drive[key][idx].duration
    requires CostUpdate(points, points', key, cost)
    ensures Driven(before, points', code, drive, c, todo - {key})
    ensures c <= cost
  {
    assert drive[key][idx].duration >= 0;
  }

  /** A timetable edge without a catchable trip offers nothing. */
  lemma DriveSkip(before: map<string, Point>, points: map<string, Point>, code: string,
                  drive: TimedRoutes, c: int, todo: set<string>, key: string)
    requires Driven(before, points, code, drive, c, todo) && key in todo && todo <= drive.Keys
    requires EarliestCatchable(drive[key], points[code].cost) < 0
    ensures Driven(before, points, code, drive, c, todo - {key})
  {
  }

  /** Taking one element out of a finite set makes it smaller. */
  lemma Shrinks(todo: set<string>, key: string)
    requires key in todo
    ensures |todo - {key}| < |todo|
  {
  }

  /** The walks followed by the timetable edges give every stop its expanded cost. */
  lemma VisitDone(before: map<string, Point>, walked: map<string, Point>, points: map<string, Point>, code: string,
                  walk: map<string, int>, drive: TimedRoutes, c: int)
    requires walked.Keys == before.Keys
    requires Walked(before, walked, code, walk, c, {}) && Driven(walked, points, code, drive, c, {})
    ensures ExpandedCosts(before, points, walk, drive, c)
  {
  }

  /** What `visit` on `code` promises, as a relation between the states before and after. */
  predicate Visited(walks: Walks, routes: Routes, before: map<string, Point>, code: string, q0: seq<PointPriority>,
                    after: map<string, Point>, q: seq<PointPriority>)
    requires code in before
  {
    Expanding(before, code, q0, after, q) &&
    (WalkNonNegative(Walking(walks, code)) && DriveNonNegative(Driving(routes, code)) ==>
       ExpandedCosts(before, after, Walking(walks, code), Driving(routes, code), before[code].cost) &&
       AtLeast(q[|q0|..], before[code].cost))
  }

  /**
   * The state of `execute` between iterations of its loop: the starting
   * stop is visited, and with non-negative edges it keeps the cost `a` it
   * started with.
   */
  predicate Searching(walks: Walks, routes: Routes, code: string, a: int,
                      points: map<string, Point>, q: seq<PointPriority>, f: int, nn: bool)
  {
    code in points && points[code].visited &&
    Bounded(points) && QueueInv(points, q) && PendingInv(points, q) &&
    (nn ==> points[code].cost == a && Settled(walks, routes, points, q, f))
  }

  /** Expanding the starting stop, with an empty queue, sets up the loop of `execute`. */
  lemma {:induction false} SearchStart(walks: Walks, routes: Routes, before: map<string, Point>,
                                       code: string, after: map<string, Point>, q: seq<PointPriority>, nn: bool)
    requires before.Keys == walks.Keys && code in before
    requires forall k :: k in before ==> !before[k].visited
    requires forall k :: k in before && k != code ==> before[k].cost == MAX_SAFE_INTEGER
    requires nn ==> NonNegativeEdges(walks, routes)
    requires Visited(walks, routes, before, code, [], after, q)
    ensures Searching(walks, routes, code, before[code].cost, after, q, before[code].cost, nn)
  {
    assert q[0..] == q;
    ExpandKeepsQueue(before, after, [], q, code);
    if nn {
      assert WalkNonNegative(Walking(walks, code)) && DriveNonNegative(Driving(routes, code));
      ExpandKeepsSettled(walks, routes, before, after, [], q, code);
      ExpandedBounds(Walking(walks, code), Driving(routes, code), before[code].cost, code, before[code].cost);
    }
  }

  /**
   * One iteration of the loop of `execute` that pops the entry `e` of an
   * unvisited stop and expands it keeps the loop invariant, with the popped
   * priority as the new frontier, and leaves one stop fewer unvisited.
   */
  lemma {:induction false} SearchStep(walks: Walks, routes: Routes, code: string, a: int,
                                      points: map<string, Point>, q: seq<PointPriority>, f: int, nn: bool,
                                      e: PointPriority, rest: seq<PointPriority>,
                                      after: map<string, Point>, q': seq<PointPriority>)
    requires Searching(walks, routes, code, a, points, q, f, nn) && points.Keys == walks.Keys
    requires nn ==> NonNegativeEdges(walks, routes)
    requires e in q && IsMinimal(e, q)
    requires forall x :: x in rest ==> x in q
    requires forall x :: x in q && x != e ==> x in rest
    requires e.code in points && !points[e.code].visited
    requires Visited(walks, routes, points, e.code, rest, after, q')
    ensures Searching(walks, routes, code, a, after, q', if nn then e.priority else f, nn)
    ensures |Unvisited(after)| < |Unvisited(points)|
  {
    PopFresh(walks, routes, points, q, rest, e, f, nn);
    var added := q'[|rest|..];
    assert q' == rest + added;
    ExpandKeepsQueue(points, after, rest, added, e.code);
    if nn {
      assert WalkNonNegative(Walking(walks, e.code)) && DriveNonNegative(Driving(routes, e.code));
      ExpandKeepsSettled(walks, routes, points, after, rest, added, e.code);
    }
    UnvisitedShrinks(points, after, e.code);
  }

  /** Popping the entry of a visited stop keeps the loop invariant of `execute`. */
  lemma SearchSkip(walks: Walks, routes: Routes, code: string, a: int,
                   points: map<string, Point>, q: seq<PointPriority>, f: int, nn: bool,
                   e: PointPriority, rest: seq<PointPriority>)
    requires Searching(walks, routes, code, a, points, q, f, nn)
    requires forall x :: x in rest ==> x in q
    requires forall x :: x in q && x != e ==> x in rest
    requires e.code in points && points[e.code].visited
    ensures Searching(walks, routes, code, a, points, rest, f, nn)
  {
    PopStale(walks, routes, points, q, rest, e, f, nn);
  }

  /**
   * When the queue is empty, every unvisited stop is unreached, and with
   * non-negative edges the relaxation fixpoint holds.
   */
  lemma SearchDone(walks: Walks, routes: Routes, code: string, a: int, points: map<string, Point>, f: int, nn: bool)
    requires Searching(walks, routes, code, a, points, [], f, nn)
    ensures forall k :: k in points && !points[k].visited ==> points[k].cost == MAX_SAFE_INTEGER
    ensures nn ==> Fixpoint(walks, routes, points)
  {
  }

  /** `key` is missing from the table, and some expanded stop has an edge to it. */
  predicate MissingFrom(walks: Walks, routes: Routes, points: map<string, Point>, key: string)
  {
    key !in points &&
    exists s :: s in points && points[s].visited && (key in Walking(walks, s) || key in Driving(routes, s))
  }

  /** A stop missing from the table but reached by an edge shows the graph is not closed. */
  lemma MissingNotClosed(walks: Walks, routes: Routes, points: map<string, Point>, key: string)
    requires points.Keys == walks.Keys
    ensures MissingFrom(walks, routes, points, key) ==> !Closed(walks, routes)
  {
    if MissingFrom(walks, routes, points, key) {
      var s :| s in points && points[s].visited && (key in Walking(walks, s) || key in Driving(routes, s));
      assert s in walks;
    }
  }

  /** What `initState` promises about the table it leaves and the starting stop it picks. */
  predicate Initialised(order: seq<string>, walks: Walks, distances: map<string, real>, start: int,
                        anchor: Option<string>, points: map<string, Point>)
  {
    points.Keys == walks.Keys &&
    (forall k :: k in points ==> !points[k].visited) &&
    (anchor.None? <==> NoAnchor(order, walks, distances)) &&
    (anchor.Some? ==>
       (exists j :: 0 <= j < |order| && AnchorAt(order, walks, distances, j) && order[j] == anchor.value) &&
       anchor.value in points && anchor.value in distances &&
       points[anchor.value].cost == start + (12.0 * distances[anchor.value]).Floor) &&
    (forall k :: k in points && (anchor.None? || k != anchor.value) ==> points[k].cost == MAX_SAFE_INTEGER)
  }

  /**
   * The loop of `initState` over the stop codes: every stop is reset, and
   * the nearest stop with walking edges, the first among equally near ones,
   * becomes the start.
   */
  method ResetTable(order: seq<string>, walks: Walks, points: map<string, Point>,
                    distances: map<string, real>, start: int)
    returns (table: map<string, Point>, anchor: Option<string>)
    requires Enumerates(order, walks) && points.Keys == walks.Keys
    requires forall k :: k in walks ==> k in distances
    ensures Initialised(order, walks, distances, start, anchor, table)
  {
    table := points;
    var min: real := MAX_SAFE_INTEGER as real;
    anchor := None;
    ghost var at := -1;
    var i := 0;
    while i < |order|
      invariant Resetting(order, points, table, i)
      invariant Scanned(order, walks, distances, i, anchor, at, min)
    {
      var key := order[i];
      ResetStep(order, points, table, i);
      ScanStep(order, walks, distances, i, anchor, at, min);
      table := table[key := Point(false, MAX_SAFE_INTEGER)];
      var dist := distances[key];
      if dist < min && |walks[key]| > 0 {
        min := dist;
        anchor := Some(key);
        at := i;
      }
      i := i + 1;
    }
    ghost var reset := table;
    if anchor.Some? {
      var key := anchor.value;
      assert key in reset;
      table := table[key := Point(false, start + (12.0 * min).Floor)];
      InitDone(order, walks, points, reset, distances, start, i, anchor, at, min, table);
    } else {
      InitDone(order, walks, points, reset, distances, start, i, anchor, at, min, table);
    }
  }

  class DijkstraAlgorithm {
    /** The search state of every stop, by code. */
    var points: map<string, Point>
    /** The walking edges of every stop, by code. */
    const walks: Walks
    /** The order in which the stop codes are enumerated. */
    const order: seq<string>
    const routes: Routes
    const start: int

    ghost predicate Valid()
      reads this
    {
      Enumerates(order, walks) && points.Keys == walks.Keys
    }

    constructor (points: map<string, Point>, walks: Walks, order: seq<string>, routes: Routes, start: int)
      requires Enumerates(order, walks) && points.Keys == walks.Keys
      ensures Valid()
      ensures this.points == points && this.walks == walks && this.order == order
      ensures this.routes == routes && this.start == start
    {
      this.points := points;
      this.walks := walks;
      this.order := order;
      this.routes := routes;
      this.start := start;
    }

    /**
     * `initState`: resets every stop to unvisited at the initial cost and
     * picks the starting stop, which gets the start time plus twelve minutes
     * per unit of distance, rounded down. `None` is the case in which the
     * source fails because no stop qualifies.
     */
    method InitState(distances: map<string, real>) returns (anchor: Option<string>)
      requires Valid()
      requires forall k :: k in walks ==> k in distances
      modifies this
      ensures Valid()
      ensures Initialised(order, walks, distances, start, anchor, points)
    {
      points, anchor := ResetTable(order, walks, points, distances, start);
    }

    /**
     * `visit`: marks `code` visited, then offers every walking neighbour the
     * stop's cost plus the walk, and every timetable neighbour the arrival of
     * the earliest catchable trip; a strictly better offer lowers the
     * neighbour's cost and, when the neighbour is unvisited, queues it.
     * The neighbours are taken in any order. An offer to a code missing from
     * the table stops the visit and names that code: the source fails there
     * reading the cost of an `undefined` record. Without one, and with
     * non-negative edges out of `code`, every stop ends with its `Expanded`
     * cost and nothing below `code`'s cost is queued.
     */
    method Visit(code: string, next: MinQueue) returns (missing: Option<string>)
      requires Valid() && code in points
      modifies this, next
      ensures Valid()
      ensures Expanding(old(points), code, old(next.elements), points, next.elements)
      ensures missing.None? ==> Visited(walks, routes, old(points), code, old(next.elements), points, next.elements)
      ensures missing.None? ==> Expandable(walks, routes, points.Keys, code, old(points)[code].cost)
      ensures missing.Some? ==>
                missing.value !in points && (missing.value in Walking(walks, code) || missing.value in Driving(routes, code))
      ensures (WalkNonNegative(Walking(walks, code)) && DriveNonNegative(Driving(routes, code)) &&
               Expandable(walks, routes, points.Keys, code, old(points)[code].cost)) ==> missing.None?
    {
      ghost var P0 := points;
      ghost var Q0 := next.elements;
      ghost var c0 := points[code].cost;
      var walking := Walking(walks, code);
      var driving := Driving(routes, code);
      ghost var nn := WalkNonNegative(walking) && DriveNonNegative(driving);
      VisitStart(P0, code, Q0);
      points := points[code := points[code].(visited := true)];

      missing := WalkEdges(code, walking, next, P0, Q0, c0, nn);
      if missing.Some? {
        return;
      }
      ghost var P1 := points;
      missing := DriveEdges(code, driving, next, P0, Q0, P1, c0, nn);
      if missing.None? && nn {
        VisitDone(P0, P1, points, code, walking, driving, c0);
      }
    }

    /**
     * The first loop of `visit`: offers every walking neighbour of `code`
     * the stop's cost plus the walk, and stops at a neighbour missing from
     * the table. `P0` and `Q0` are the table and the queue before the
     * visit, `c0` the stop's cost, and `nn` says that the walks take no
     * negative time.
     */
    method WalkEdges(code: string, walking: map<string, int>, next: MinQueue,
                     ghost P0: map<string, Point>, ghost Q0: seq<PointPriority>, ghost c0: int, ghost nn: bool)
      returns (missing: Option<string>)
      requires Valid() && code in points && code in P0 && P0[code].cost == c0
      requires walking == Walking(walks, code) && (nn ==> WalkNonNegative(walking))
      requires Expanding(P0, code, Q0, points, next.elements)
      requires nn ==> Walked(P0, points, code, walking, c0, walking.Keys) && AtLeast(next.elements[|Q0|..], c0)
      modifies this, next
      ensures Valid() && code in points
      ensures Expanding(P0, code, Q0, points, next.elements)
      ensures missing.None? <==> walking.Keys <= points.Keys
      ensures missing.Some? ==> missing.value in walking && missing.value !in points
      ensures missing.None? && nn ==> Walked(P0, points, code, walking, c0, {}) && AtLeast(next.elements[|Q0|..], c0)
    {
      var todo := walking.Keys;
      while todo != {}
        invariant todo <= walking.Keys
        invariant walking.Keys - todo <= points.Keys
        invariant Expanding(P0, code, Q0, points, next.elements)
        invariant nn ==> Walked(P0, points, code, walking, c0, todo) && AtLeast(next.elements[|Q0|..], c0)
        decreases |todo|
      {
        var key :| key in todo;
        ghost var pts, q := points, next.elements;
        var cost := points[code].cost + walking[key];
        var known := Improve(key, cost, next);
        if !known {
          return Some(key);
        }
        OfferKeepsExpanding(P0, code, Q0, pts, q, key, cost, points, next.elements, c0);
        if nn {
          WalkStep(P0, pts, code, walking, c0, todo, key, cost, points);
        }
        Shrinks(todo, key);
        todo := todo - {key};
      }
      missing := None;
    }

    /**
     * The second loop of `visit`: offers every timetable neighbour of
     * `code` the arrival of the earliest trip catchable at the stop's cost,
     * and stops at a neighbour missing from the table that has one.
     * `P1` is the table after the walks.
     */
    method DriveEdges(code: string, driving: TimedRoutes, next: MinQueue,
                      ghost P0: map<string, Point>, ghost Q0: seq<PointPriority>, ghost P1: map<string, Point>,
                      ghost c0: int, ghost nn: bool)
      returns (missing: Option<string>)
      requires Valid() && code in points && code in P0 && P0[code].cost == c0
      requires driving == Driving(routes, code) && (nn ==> DriveNonNegative(driving))
      requires Expanding(P0, code, Q0, points, next.elements)
      requires nn ==> P1 == points && Driven(P1, points, code, driving, c0, driving.Keys) && AtLeast(next.elements[|Q0|..], c0)
      modifies this, next
      ensures Valid()
      ensures Expanding(P0, code, Q0, points, next.elements)
      ensures missing.Some? ==> missing.value in driving && missing.value !in points
      ensures missing.None? ==> forall k :: k in driving && k !in points ==> EarliestCatchable(driving[k], c0) < 0
      ensures nn && (forall k :: k in driving && k !in points ==> EarliestCatchable(driving[k], c0) < 0) ==> missing.None?
      ensures missing.None? && nn ==> Driven(P1, points, code, driving, c0, {}) && AtLeast(next.elements[|Q0|..], c0)
    {
      var todo := driving.Keys;
      while todo != {}
        invariant todo <= driving.Keys
        invariant forall k :: k in driving && k !in todo && k !in points ==> EarliestCatchable(driving[k], c0) < 0
        invariant Expanding(P0, code, Q0, points, next.elements)
        invariant nn ==> Driven(P1, points, code, driving, c0, todo) && AtLeast(next.elements[|Q0|..], c0)
        decreases |todo|
      {
        var key :| key in todo;
        ghost var pts, q := points, next.elements;
        var tr := driving[key];
        var idx := RouteLinearSearch(tr, points[code].cost);
        if idx >= 0 {
          var cost := tr[idx].departure + tr[idx].duration;
          var known := Improve(key, cost, next);
          if !known {
            assert nn ==> EarliestCatchable(driving[key], c0) >= 0;
            return Some(key);
          }
          OfferKeepsExpanding(P0, code, Q0, pts, q, key, cost, points, next.elements, c0);
          if nn {
            DriveStep(P1, pts, code, driving, c0, todo, key, idx, cost, points);
          }
        } else {
          if key !in points {
            assert points[code].cost <= c0;
          }
          if nn {
            DriveSkip(P1, points, code, driving, c0, todo, key);
          }
        }
        Shrinks(todo, key);
        todo := todo - {key};
      }
      missing := None;
    }

    /**
     * The body of both loops of `visit`: a strictly better offer of `cost`
     * lowers the cost of `key`, and queues `key` when it is unvisited.
     * `known` is false, and nothing changes, when `key` is missing from the
     * table.
     */
    method Improve(key: string, cost: int, next: MinQueue) returns (known: bool)
      modifies this, next
      ensures known <==> key in old(points)
      ensures known ==> Offer(old(points), old(next.elements), key, cost, points, next.elements)
      ensures !known ==> points == old(points) && next.elements == old(next.elements)
    {
      if key !in points {
        return false;
      }
      known := true;
      if points[key].cost > cost {
        points := points[key := points[key].(cost := cost)];
        if !points[key].visited {
          next.Push(PointPriority(key, cost));
        }
      }
    }

    /**
     * `execute`: initialises the state, expands the starting stop, then
     * repeatedly pops an entry of least priority and expands its stop unless
     * that stop is already visited. It fails with `NoStartingStop` exactly
     * when no stop qualifies as the start, and with `UnknownStop` when an
     * expanded stop offers a cost to a code missing from the table, which
     * never happens when every edge leads to a known stop. Otherwise every
     * reached stop ends up visited, and with non-negative edges the starting
     * stop keeps its initial cost and every visited stop satisfies the
     * relaxation condition.
     */
    method Execute(distances: map<string, real>) returns (r: Result<string, EngineError>)
      requires Valid()
      requires forall k :: k in walks ==> k in distances
      modifies this
      ensures Valid()
      ensures r == Failure(NoStartingStop) <==> NoAnchor(order, walks, distances)
      ensures r == Failure(NoStartingStop) ==> forall k :: k in points ==> IsReset(points[k])
      ensures r.Failure? && r.error.UnknownStop? ==> MissingFrom(walks, routes, points, r.error.code)
      ensures Closed(walks, routes) ==> (r.Failure? <==> NoAnchor(order, walks, distances))
      ensures r.Success? ==>
                (exists j :: AnchorAt(order, walks, distances, j) && order[j] == r.value) &&
                r.value in points && points[r.value].visited
      ensures r.Success? ==> forall k :: k in points && !points[k].visited ==> points[k].cost == MAX_SAFE_INTEGER
      ensures r.Success? && NonNegativeEdges(walks, routes) ==>
                points[r.value].cost == start + (12.0 * distances[r.value]).Floor && Fixpoint(walks, routes, points)
    {
      var anchor := InitState(distances);
      if anchor.None? {
        return Failure(NoStartingStop);
      }
      var code := anchor.value;
      var next := new MinQueue();
      ghost var PI := points;
      ghost var nn := NonNegativeEdges(walks, routes);
      var missing := Visit(code, next);
      if missing.Some? {
        assert points[code].visited;
        assert MissingFrom(walks, routes, points, missing.value);
      } else {
        SearchStart(walks, routes, PI, code, points, next.elements, nn);
        missing := Drain(next, code, PI[code].cost, PI[code].cost);
      }
      if missing.Some? {
        MissingNotClosed(walks, routes, points, missing.value);
        return Failure(UnknownStop(missing.value));
      }
      return Success(code);
    }

    /**
     * The loop of `execute`: pops entries until the queue is empty, expanding
     * the stop of every entry that is not visited yet, and stops at a visit
     * that reaches a code missing from the table. `code` is the starting
     * stop, `a` its cost and `f0` the frontier reached so far.
     */
    method Drain(next: MinQueue, ghost code: string, ghost a: int, ghost f0: int) returns (missing: Option<string>)
      requires Valid()
      requires Searching(walks, routes, code, a, points, next.elements, f0, NonNegativeEdges(walks, routes))
      modifies this, next
      ensures Valid()
      ensures code in points && points[code].visited
      ensures missing.Some? ==> MissingFrom(walks, routes, points, missing.value)
      ensures missing.None? ==> forall k :: k in points && !points[k].visited ==> points[k].cost == MAX_SAFE_INTEGER
      ensures missing.None? && NonNegativeEdges(walks, routes) ==> points[code].cost == a && Fixpoint(walks, routes, points)
    {
      ghost var nn := NonNegativeEdges(walks, routes);
      ghost var f := f0;
      missing := None;
      while |next.elements| > 0
        invariant Valid()
        invariant missing.None?
        invariant Searching(walks, routes, code, a, points, next.elements, f, nn)
        decreases |Unvisited(points)|, |next.elements|
      {
        ghost var q := next.elements;
        var e := next.Pop();
        if !points[e.code].visited {
          ghost var before := points;
          ghost var rest := next.elements;
          missing := Visit(e.code, next);
          if missing.Some? {
            assert points[e.code].visited && points[code].visited;
            return;
          }
          SearchStep(walks, routes, code, a, before, q, f, nn, e, rest, points, next.elements);
          if nn {
            f := e.priority;
          }
        } else {
          SearchSkip(walks, routes, code, a, points, q, f, nn, e, next.elements);
        }
      }
      SearchDone(walks, routes, code, a, points, f, nn);
    }

    /**
     * `getMinMaxCost`: the least cost of any stop (at most the initial
     * cost), and the largest cost below the initial cost, or 0.
     */
    method GetMinMaxCost() returns (minCost: int, maxCost: int)
      requires Valid()
      ensures minCost <= MAX_SAFE_INTEGER && forall k :: k in points ==> minCost <= points[k].cost
      ensures minCost == MAX_SAFE_INTEGER || exists k :: k in points && points[k].cost == minCost
      ensures 0 <= maxCost && forall k :: k in points && points[k].cost < MAX_SAFE_INTEGER ==> points[k].cost <= maxCost
      ensures maxCost == 0 || exists k :: k in points && points[k].cost == maxCost && maxCost < MAX_SAFE_INTEGER
    {
      minCost := MAX_SAFE_INTEGER;
      maxCost := 0;
      var i := 0;
      while i < |order|
        invariant 0 <= i <= |order|
        invariant minCost <= MAX_SAFE_INTEGER && forall j :: 0 <= j < i ==> minCost <= points[order[j]].cost
        invariant minCost == MAX_SAFE_INTEGER || exists k :: k in points && points[k].cost == minCost
        invariant 0 <= maxCost
        invariant forall j :: 0 <= j < i && points[order[j]].cost < MAX_SAFE_INTEGER ==> points[order[j]].cost <= maxCost
        invariant maxCost == 0 || exists k :: k in points && points[k].cost == maxCost && maxCost < MAX_SAFE_INTEGER
      {
        var cost := points[order[i]].cost;
        if cost > maxCost && cost < MAX_SAFE_INTEGER {
          maxCost := cost;
        }
        if cost < minCost {
          minCost := cost;
        }
        i := i + 1;
      }
      forall k | k in points
        ensures minCost <= points[k].cost
        ensures points[k].cost < MAX_SAFE_INTEGER ==> points[k].cost <= maxCost
      {
        var j :| 0 <= j < |order| && order[j] == k;
      }
    }
  }
}
