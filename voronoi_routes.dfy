/**
 * The extra walking edges of src/map.ts (`initVoronoiRoutes`): two stops
 * whose Voronoi cells share an edge, and that lie on the same side of the
 * river, can walk to each other in a time derived from their distance.
 * The tessellation itself and the geographic distance come from outside;
 * each edge carries the distance between its two sites.
 */
module VoronoiRoutes {
  import opened Common
  import Dijkstra

  /** A stop as a site of the tessellation: its code and its pixel position. */
  datatype Site = Site(code: string, x: int, y: int)

  /** An edge of the tessellation with the sites on its two sides, when present, and their distance. */
  datatype Edge = Edge(lSite: Option<Site>, rSite: Option<Site>, dist: real)

  /**
   * `riverSide`: 1 east of the river line in row `y`, -1 otherwise. A row
   * the river line does not cover compares against `undefined`, which is
   * never smaller, so it counts as west.
   */
  function RiverSide(river: seq<int>, x: int, y: int): int
  {
    if 0 <= y < |river| && x > river[y] then 1 else -1
  }

  /**
   * The side is determined by the position relative to the river line:
   * moving east never leaves the east side, and two points of a covered
   * row are on the same side exactly when both or neither lie east of it.
   */
  lemma RiverSideOrdered(river: seq<int>, x: int, x': int, y: int)
    requires x <= x'
    ensures RiverSide(river, x, y) == 1 ==> RiverSide(river, x', y) == 1
    ensures RiverSide(river, x, y) == 1 || RiverSide(river, x, y) == -1
    ensures 0 <= y < |river| ==> (RiverSide(river, x, y) == RiverSide(river, x', y) <==> (x > river[y]) == (x' > river[y]))
  {
  }

  /** `Math.ceil(dist * 10)`: the walking time in minutes. */
  function TravelTime(dist: real): (t: int)
    ensures (t - 1) as real < dist * 10.0 <= t as real
  {
    -((-dist * 10.0).Floor)
  }

  lemma TravelTimeNonNegative(dist: real)
    requires dist >= 0.0
    ensures TravelTime(dist) >= 0
  {
  }

  /** Whether the edge adds walking routes: both sites are present and on the same side of the river. */
  predicate Joins(e: Edge, river: seq<int>)
  {
    e.lSite.Some? && e.rSite.Some? &&
    RiverSide(river, e.lSite.value.x, e.lSite.value.y) == RiverSide(river, e.rSite.value.x, e.rSite.value.y)
  }

  /** Every site of every edge is a known stop. */
  predicate SitesKnown(walks: Dijkstra.Walks, edges: seq<Edge>)
  {
    forall i :: 0 <= i < |edges| ==>
      (edges[i].lSite.Some? ==> edges[i].lSite.value.code in walks) &&
      (edges[i].rSite.Some? ==> edges[i].rSite.value.code in walks)
  }

  /** The walking edges after handling one tessellation edge. */
  function ApplyEdge(walks: Dijkstra.Walks, e: Edge, river: seq<int>): (r: Dijkstra.Walks)
    requires e.lSite.Some? ==> e.lSite.value.code in walks
    requires e.rSite.Some? ==> e.rSite.value.code in walks
    ensures r.Keys == walks.Keys
  {
    if !Joins(e, river) then walks
    else
      var a, b, t := e.lSite.value.code, e.rSite.value.code, TravelTime(e.dist);
      var w1 := walks[a := walks[a][b := t]];
      w1[b := w1[b][a := t]]
  }

  /** The walking edges after handling `edges` in order. */
  function ApplyEdges(walks: Dijkstra.Walks, edges: seq<Edge>, river: seq<int>): (r: Dijkstra.Walks)
    requires SitesKnown(walks, edges)
    ensures r.Keys == walks.Keys
  {
    if edges == [] then walks
    else
      var w := ApplyEdges(walks, edges[..|edges| - 1], river);
      ApplyEdge(w, edges[|edges| - 1], river)
  }

  /**
   * `initVoronoiRoutes`: for every edge whose two sites are present and on
   * the same side of the river, writes the travel time into the walking
   * edges of both sites.
   */
  method InitVoronoiRoutes(walks: Dijkstra.Walks, edges: seq<Edge>, river: seq<int>) returns (result: Dijkstra.Walks)
    requires SitesKnown(walks, edges)
    ensures result == ApplyEdges(walks, edges, river)
  {
    result := walks;
    for i := 0 to |edges|
      invariant result == ApplyEdges(walks, edges[..i], river)
    {
      assert edges[..i + 1][..i] == edges[..i];
      var edge := edges[i];
      if edge.lSite.None? || edge.rSite.None? {
        continue;
      }
      var first, second := edge.lSite.value, edge.rSite.value;
      if RiverSide(river, first.x, first.y) != RiverSide(river, second.x, second.y) {
        continue;
      }
      var time := TravelTime(edge.dist);
      result := result[first.code := result[first.code][second.code := time]];
      result := result[second.code := result[second.code][first.code := time]];
    }
    assert edges[..|edges|] == edges;
  }

  /** Whether the edge joins the stops `a` and `b`, in either orientation. */
  predicate Connects(e: Edge, river: seq<int>, a: string, b: string)
  {
    Joins(e, river) &&
    ((e.lSite.value.code == a && e.rSite.value.code == b) || (e.lSite.value.code == b && e.rSite.value.code == a))
  }

  /** The travel time of the last edge joining `a` and `b`, if any. */
  function LastJoin(edges: seq<Edge>, river: seq<int>, a: string, b: string): Option<int>
  {
    if edges == [] then None
    else if Connects(edges[|edges| - 1], river, a, b) then Some(TravelTime(edges[|edges| - 1].dist))
    else LastJoin(edges[..|edges| - 1], river, a, b)
  }

  /** The last joining edge of a pair does not depend on the orientation. */
  lemma {:induction false} LastJoinSymmetric(edges: seq<Edge>, river: seq<int>, a: string, b: string)
    ensures LastJoin(edges, river, a, b) == LastJoin(edges, river, b, a)
  {
    if edges != [] {
      LastJoinSymmetric(edges[..|edges| - 1], river, a, b);
    }
  }

  /**
   * After the pass, the walking time from `a` to `b` is the travel time of
   * the last edge joining them; a pair no edge joins keeps its walking edge,
   * or the lack of one.
   */
  lemma {:induction false} ApplyEdgesWrites(walks: Dijkstra.Walks, edges: seq<Edge>, river: seq<int>, a: string, b: string)
    requires SitesKnown(walks, edges) && a in walks
    ensures var r := ApplyEdges(walks, edges, river);
            match LastJoin(edges, river, a, b)
            case Some(t) => b in r[a] && r[a][b] == t
            case None => (b in r[a] <==> b in walks[a]) && (b in walks[a] ==> r[a][b] == walks[a][b])
  {
    if edges != [] {
      ApplyEdgesWrites(walks, edges[..|edges| - 1], river, a, b);
    }
  }

  /**
   * The times are written in both directions: whenever an edge joins `a`
   * and `b`, walking from `a` to `b` takes as long as from `b` to `a`.
   */
  lemma VoronoiRoutesSymmetric(walks: Dijkstra.Walks, edges: seq<Edge>, river: seq<int>, a: string, b: string)
    requires SitesKnown(walks, edges) && a in walks && b in walks
    requires LastJoin(edges, river, a, b).Some?
    ensures var r := ApplyEdges(walks, edges, river);
            b in r[a] && a in r[b] && r[a][b] == r[b][a] == LastJoin(edges, river, a, b).value
  {
    LastJoinSymmetric(edges, river, a, b);
    ApplyEdgesWrites(walks, edges, river, a, b);
    ApplyEdgesWrites(walks, edges, river, b, a);
  }

  /** The walking edges lead to known stops and take no negative time. */
  predicate WalkGraph(walks: Dijkstra.Walks)
  {
    forall code :: code in walks ==> walks[code].Keys <= walks.Keys && Dijkstra.WalkNonNegative(walks[code])
  }

  /**
   * When the distances are non-negative, the new edges lead to known stops
   * and take no negative time, so the walking graph stays one the routing
   * engine accepts.
   */
  lemma {:induction false} ApplyEdgesKeepsGraph(walks: Dijkstra.Walks, edges: seq<Edge>, river: seq<int>)
    requires SitesKnown(walks, edges) && WalkGraph(walks)
    requires forall i :: 0 <= i < |edges| ==> edges[i].dist >= 0.0
    ensures WalkGraph(ApplyEdges(walks, edges, river))
  {
    if edges != [] {
      var prefix := edges[..|edges| - 1];
      ApplyEdgesKeepsGraph(walks, prefix, river);
      ApplyEdgeKeepsGraph(ApplyEdges(walks, prefix, river), edges[|edges| - 1], river);
    }
  }

  lemma ApplyEdgeKeepsGraph(walks: Dijkstra.Walks, e: Edge, river: seq<int>)
    requires e.lSite.Some? ==> e.lSite.value.code in walks
    requires e.rSite.Some? ==> e.rSite.value.code in walks
    requires WalkGraph(walks) && e.dist >= 0.0
    ensures WalkGraph(ApplyEdge(walks, e, river))
  {
    TravelTimeNonNegative(e.dist);
  }
}
