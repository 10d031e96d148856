/**
 The roadmap the motion planner node draws: the waypoints of an 11 by 11
 grid, listed row by row (first coordinate in the outer loop, second in the
 inner one). The node stores the coordinates in doubles, but they are always
 whole numbers, so a point here has integer coordinates.
 */
module Roadmap {

  /** The largest coordinate on either axis; both loops run up to and including it. */
  const GridMax: nat := 10

  /** Number of waypoints along one axis. */
  const GridSide: nat := GridMax + 1

  datatype Point = Point(x: int, y: int)

  /** `p` is one of the grid's waypoints. */
  predicate OnGrid(p: Point)
  {
    0 <= p.x <= GridMax && 0 <= p.y <= GridMax
  }

  /** The waypoint list in generation order: index `k` holds row `k / GridSide`, column `k % GridSide`. */
  function RoadmapPoints(): seq<Point>
  {
    seq(GridSide * GridSide, k requires 0 <= k => Point(k / GridSide, k % GridSide))
  }

  /** Row `i`, column `j` sits at index `i * GridSide + j`. */
  lemma RoadmapCellAt(i: int, j: int)
    requires 0 <= i <= GridMax && 0 <= j <= GridMax
    ensures i * GridSide + j < |RoadmapPoints()|
    ensures RoadmapPoints()[i * GridSide + j] == Point(i, j)
  {
  }

  /** There are 121 waypoints and each of them lies on the grid. */
  lemma RoadmapOnGrid()
    ensures |RoadmapPoints()| == 121
    ensures forall k :: 0 <= k < |RoadmapPoints()| ==> OnGrid(RoadmapPoints()[k])
  {
  }

  /** Row-major order is strictly lexicographic, so no waypoint is listed twice. */
  lemma RoadmapLexicographic(a: int, b: int)
    requires 0 <= a < b < |RoadmapPoints()|
    ensures var p, q := RoadmapPoints()[a], RoadmapPoints()[b];
            p.x < q.x || (p.x == q.x && p.y < q.y)
  {
  }

  /** No waypoint appears at two indices. */
  lemma RoadmapDistinct()
    ensures Distinct(RoadmapPoints())
  {
    var pts := RoadmapPoints();
    forall a, b | 0 <= a < b < |pts| ensures pts[a] != pts[b] {
      RoadmapLexicographic(a, b);
    }
  }

  /** Every grid cell appears exactly once, and nothing off the grid appears. */
  lemma RoadmapExactlyOnce(p: Point)
    ensures multiset(RoadmapPoints())[p] == if OnGrid(p) then 1 else 0
  {
    var pts := RoadmapPoints();
    RoadmapDistinct();
    DistinctCount(pts, p);
    if OnGrid(p) {
      RoadmapCellAt(p.x, p.y);
    } else {
      RoadmapOnGrid();
    }
  }

  /** No element of `s` is repeated. */
  predicate Distinct(s: seq<Point>)
  {
    forall a, b :: 0 <= a < b < |s| ==> s[a] != s[b]
  }

  /** In a sequence without repeats, every value occurs at most once. */
  lemma {:induction false} DistinctCount(s: seq<Point>, v: Point)
    requires Distinct(s)
    ensures multiset(s)[v] == if v in s then 1 else 0
  {
    if s != [] {
      assert s == [s[0]] + s[1..];
      assert Distinct(s[1..]);
      DistinctCount(s[1..], v);
      assert s[0] !in s[1..];
    }
  }
}
