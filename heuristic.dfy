/**
 * The Manhattan heuristic between tile nodes, and the `Heuristic` object
 * that fixes the goal it estimates towards.
 */
module Heuristic {
  import opened Wrappers
  import opened Graph

  function Abs(i: int): nat { if i < 0 then -i else i }

  /**
   * `estimate_between`: the Manhattan distance when both arguments are tile
   * nodes, 0 otherwise (a plain node, or a missing player node, `None`).
   */
  function EstimateBetween(a: Option<Node>, b: Option<Node>): nat {
    if a.Some? && a.value.TileNode? && b.Some? && b.value.TileNode? then
      Abs(a.value.x - b.value.x) + Abs(a.value.y - b.value.y)
    else
      0
  }

  /** Two tile nodes sit on the same tile. */
  predicate SameTile(a: Node, b: Node) {
    a.TileNode? && b.TileNode? && a.x == b.x && a.y == b.y
  }

  /** Two tile nodes are 4-neighbours: one step apart along exactly one axis. */
  predicate Adjacent(a: Node, b: Node) {
    a.TileNode? && b.TileNode? && Abs(a.x - b.x) + Abs(a.y - b.y) == 1
  }

  /** A missing node or a plain node contributes no estimate at all. */
  lemma EstimateOffTiles(a: Option<Node>, b: Option<Node>)
    requires a.None? || b.None? || a.value.Node? || b.value.Node?
    ensures EstimateBetween(a, b) == 0
  {
  }

  lemma EstimateSymmetric(a: Option<Node>, b: Option<Node>)
    ensures EstimateBetween(a, b) == EstimateBetween(b, a)
  {
  }

  /** Between tile nodes the estimate is zero exactly on the same tile. */
  lemma EstimateZeroIffSameTile(a: Node, b: Node)
    requires a.TileNode? && b.TileNode?
    ensures EstimateBetween(Some(a), Some(b)) == 0 <==> SameTile(a, b)
  {
  }

  lemma EstimateTriangle(a: Node, b: Node, c: Node)
    requires a.TileNode? && b.TileNode? && c.TileNode?
    ensures EstimateBetween(Some(a), Some(c)) <= EstimateBetween(Some(a), Some(b)) + EstimateBetween(Some(b), Some(c))
  {
  }

  /**
   * Across one unit edge between neighbouring tiles the estimate towards any
   * tile changes by exactly one; so it never overestimates a unit step.
   */
  lemma {:induction false} EstimateAcrossEdge(a: Node, b: Node, t: Node)
    requires Adjacent(a, b) && t.TileNode?
    ensures EstimateBetween(Some(a), Some(t)) == EstimateBetween(Some(b), Some(t)) + 1
         || EstimateBetween(Some(b), Some(t)) == EstimateBetween(Some(a), Some(t)) + 1
  {
    if a.x == b.x {
      assert Abs(a.y - b.y) == 1;
      StepChangesByOne(a.y, b.y, t.y);
    } else {
      assert a.y == b.y && Abs(a.x - b.x) == 1;
      StepChangesByOne(a.x, b.x, t.x);
    }
  }

  lemma StepChangesByOne(p: int, q: int, t: int)
    requires Abs(p - q) == 1
    ensures Abs(p - t) == Abs(q - t) + 1 || Abs(q - t) == Abs(p - t) + 1
  {
  }

  /** `Heuristic(goal_node)`: `estimate(n)` is `estimate_between(n, goal_node)`. */
  datatype Heuristic = Heuristic(goalNode: Option<Node>)
  {
    function Estimate(n: Option<Node>): nat {
      EstimateBetween(n, goalNode)
    }
  }

  /**
   * Towards a tile goal the estimate vanishes on the goal's tile and is
   * consistent with unit edges: it drops by at most one per step.
   */
  lemma EstimateConsistent(h: Heuristic, a: Node, b: Node)
    requires h.goalNode.Some? && h.goalNode.value.TileNode? && Adjacent(a, b)
    ensures h.Estimate(Some(a)) <= 1 + h.Estimate(Some(b))
    ensures h.Estimate(Some(h.goalNode.value)) == 0
  {
    EstimateAcrossEdge(a, b, h.goalNode.value);
  }
}
