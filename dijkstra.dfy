/**
 * Dijkstra's search over the adjacency-map graph, with the linear-scan open
 * and closed lists of `NodeRecord`s.
 *
 * Python's records are mutable objects that the search rewrites in place. A
 * record here is a value; rewriting the record an open list holds is
 * replacing the element at its index, and "the current record" is read back
 * from the open list by its index, so an in-place update of it would be seen.
 */
module Dijkstra {
  import opened Wrappers
  import opened Graph
  import opened Sequences

  /** `NodeRecord(node, connection, cost_so_far)`; dataclass equality is field equality. */
  datatype NodeRecord = NodeRecord(node: Node, connection: Option<Connection>, costSoFar: real)

  /** Some record of `rs` is about node `n`. */
  predicate HasNode(rs: seq<NodeRecord>, n: Node) {
    exists i :: 0 <= i < |rs| && rs[i].node == n
  }

  /** The index of the first record about `n`. */
  function IndexOfNode(rs: seq<NodeRecord>, n: Node): (i: nat)
    requires HasNode(rs, n)
    ensures i < |rs| && rs[i].node == n
    ensures forall j :: 0 <= j < i ==> rs[j].node != n
  {
    IndexFrom(rs, n, 0)
  }

  function IndexFrom(rs: seq<NodeRecord>, n: Node, k: nat): (i: nat)
    requires k <= |rs| && exists i :: k <= i < |rs| && rs[i].node == n
    ensures k <= i < |rs| && rs[i].node == n
    ensures forall j :: k <= j < i ==> rs[j].node != n
    decreases |rs| - k
  {
    if rs[k].node == n then k else IndexFrom(rs, n, k + 1)
  }

  /** The set of nodes the records are about. */
  function NodesOf(rs: seq<NodeRecord>): set<Node> {
    set i | 0 <= i < |rs| :: rs[i].node
  }

  /** No two records are about the same node. */
  predicate Distinct(rs: seq<NodeRecord>) {
    forall i, j :: 0 <= i < j < |rs| ==> rs[i].node != rs[j].node
  }

  /** No open record is about a closed node. */
  predicate Disjoint(closed: seq<NodeRecord>, open: seq<NodeRecord>) {
    forall j :: 0 <= j < |open| ==> !HasNode(closed, open[j].node)
  }

  /**
   * `PathfindingList`: a list of records scanned linearly.
   */
  class PathfindingList {
    var records: seq<NodeRecord>

    constructor ()
      ensures records == []
    {
      records := [];
    }

    /** `len(list)` */
    function Length(): nat
      reads this
    {
      |records|
    }

    method Add(record: NodeRecord)
      modifies this
      ensures records == old(records) + [record]
    {
      records := records + [record];
    }

    /**
     * `records.remove(record)`: drops the first record equal to `record`;
     * `removed` is false where Python raises `ValueError` (no equal record).
     */
    method Remove(record: NodeRecord) returns (removed: bool)
      modifies this
      ensures removed <==> record in old(records)
      ensures removed ==> records == old(records)[..FirstIndex(old(records), record)] + old(records)[FirstIndex(old(records), record) + 1..]
      ensures !removed ==> records == old(records)
    {
      removed := record in records;
      if removed {
        var i := FirstIndex(records, record);
        records := records[..i] + records[i + 1..];
      }
    }

    /** `any(record.node == node for record in records)` */
    method Contains(node: Node) returns (b: bool)
      ensures b <==> HasNode(records, node)
    {
      b := false;
      var i := 0;
      while i < |records| && !b
        invariant 0 <= i <= |records|
        invariant b <==> exists j :: 0 <= j < i && records[j].node == node
      {
        b := records[i].node == node;
        i := i + 1;
      }
    }

    /** The first record about `node`, or None exactly when there is none. */
    method Find(node: Node) returns (r: Option<NodeRecord>)
      ensures r.None? <==> !HasNode(records, node)
      ensures r.Some? ==> r.value == records[IndexOfNode(records, node)]
    {
      for i := 0 to |records|
        invariant forall j :: 0 <= j < i ==> records[j].node != node
      {
        if records[i].node == node {
          return Some(records[i]);
        }
      }
      return None;
    }

    /**
     * `min(records, key=cost_so_far)`: the first record of least cost; None
     * where Python's `min` raises on an empty list.
     */
    method SmallestElement() returns (r: Option<NodeRecord>)
      ensures r.None? <==> records == []
      ensures r.Some? ==> exists i :: (0 <= i < |records| && records[i] == r.value
        && (forall j :: 0 <= j < |records| ==> r.value.costSoFar <= records[j].costSoFar)
        && (forall j :: 0 <= j < i ==> r.value.costSoFar < records[j].costSoFar))
    {
      if |records| == 0 {
        return None;
      }
      var best := 0;
      for i := 1 to |records|
        invariant 0 <= best < i
        invariant forall j :: 0 <= j < i ==> records[best].costSoFar <= records[j].costSoFar
        invariant forall j :: 0 <= j < best ==> records[best].costSoFar < records[j].costSoFar
      {
        if records[i].costSoFar < records[best].costSoFar {
          best := i;
        }
      }
      return Some(records[best]);
    }

    /** `record.cost_so_far = ...; record.connection = ...` on the record held at index `i`. */
    method Set(i: nat, record: NodeRecord)
      requires i < |records|
      modifies this
      ensures records == old(records)[i := record]
    {
      records := records[i := record];
    }
  }

  /** No self-loop has a negative cost (otherwise a node becomes its own predecessor). */
  ghost predicate NoNegativeSelfLoops(adj: Adjacency) {
    forall n, i :: n in adj && 0 <= i < |adj[n]| && adj[n][i].toNode == n ==> adj[n][i].cost >= 0.0
  }

  /** Every node the search can ever hold a record for: the start and every edge's end. */
  ghost function Universe(adj: Adjacency, start: Node): set<Node> {
    {start} + set n, i | n in adj && 0 <= i < |adj[n]| :: adj[n][i].toNode
  }

  /**
   * A record is accounted for: it is the start record (no connection, cost 0)
   * exactly when it is about `start`; otherwise its connection is a graph edge
   * into its node from a node closed at a position below `bound`, and its cost
   * is that closed record's cost plus the edge's.
   */
  ghost predicate Justified(adj: Adjacency, start: Node, closed: seq<NodeRecord>, bound: nat, r: NodeRecord) {
    (r.node == start <==> r.connection.None?)
    && (r.connection.None? ==> r.costSoFar == 0.0)
    && (r.connection.Some? ==>
          var c := r.connection.value;
          c.toNode == r.node && c in Outgoing(adj, c.fromNode)
          && HasNode(closed, c.fromNode) && IndexOfNode(closed, c.fromNode) < bound
          && r.costSoFar == closed[IndexOfNode(closed, c.fromNode)].costSoFar + c.cost)
  }

  /** Edge `e` out of a node of cost `u` has its end closed, or open at cost at most `u + e.cost`. */
  ghost predicate EdgeCovered(closed: seq<NodeRecord>, open: seq<NodeRecord>, u: real, e: Connection) {
    HasNode(closed, e.toNode)
    || (HasNode(open, e.toNode) && open[IndexOfNode(open, e.toNode)].costSoFar <= u + e.cost)
  }

  /** Every edge of `es`, leaving a node of cost `u`, is covered. */
  ghost predicate Covers(closed: seq<NodeRecord>, open: seq<NodeRecord>, u: real, es: seq<Connection>) {
    forall i :: 0 <= i < |es| ==> EdgeCovered(closed, open, u, es[i])
  }

  /** Every edge out of `r`'s node is covered. */
  ghost predicate Frontier(adj: Adjacency, closed: seq<NodeRecord>, open: seq<NodeRecord>, r: NodeRecord) {
    Covers(closed, open, r.costSoFar, Outgoing(adj, r.node))
  }

  /** No path from `start` to `r`'s node costs less than `r`. */
  ghost predicate Cheapest(adj: Adjacency, start: Node, r: NodeRecord) {
    forall p :: IsPath(adj, p, start, r.node) ==> r.costSoFar <= PathCost(p)
  }

  /** Each closed record is accounted for by the records closed before it. */
  ghost predicate ClosedJustified(adj: Adjacency, start: Node, closed: seq<NodeRecord>) {
    forall k {:trigger Justified(adj, start, closed, k, closed[k])} ::
      0 <= k < |closed| ==> Justified(adj, start, closed, k, closed[k])
  }

  /** Each open record is accounted for by the closed records below `bound`. */
  ghost predicate OpenJustified(adj: Adjacency, start: Node, closed: seq<NodeRecord>, bound: nat, open: seq<NodeRecord>) {
    forall j {:trigger Justified(adj, start, closed, bound, open[j])} ::
      0 <= j < |open| ==> Justified(adj, start, closed, bound, open[j])
  }

  /** The edges out of every closed node are covered. */
  ghost predicate ClosedFrontier(adj: Adjacency, closed: seq<NodeRecord>, open: seq<NodeRecord>) {
    forall k {:trigger Frontier(adj, closed, open, closed[k])} ::
      0 <= k < |closed| ==> Frontier(adj, closed, open, closed[k])
  }

  /** No path undercuts a closed record. */
  ghost predicate ClosedCheapest(adj: Adjacency, start: Node, closed: seq<NodeRecord>) {
    forall k {:trigger Cheapest(adj, start, closed[k])} :: 0 <= k < |closed| ==> Cheapest(adj, start, closed[k])
  }

  /** Every listed node is one the search can reach a record for. */
  ghost predicate WithinUniverse(adj: Adjacency, start: Node, closed: seq<NodeRecord>, open: seq<NodeRecord>) {
    NodesOf(closed) + NodesOf(open) <= Universe(adj, start)
  }

  /** What holds of the open and closed lists at the head of the main loop. */
  ghost predicate SearchInv(adj: Adjacency, start: Node, goal: Node, closed: seq<NodeRecord>, open: seq<NodeRecord>) {
    Distinct(closed) && Distinct(open) && Disjoint(closed, open)
    && ClosedJustified(adj, start, closed)
    && OpenJustified(adj, start, closed, |closed|, open)
    && (HasNode(closed, start) || (closed == [] && open == [NodeRecord(start, None, 0.0)]))
    && !HasNode(closed, goal)
    && ClosedFrontier(adj, closed, open)
    && (NonNegativeCosts(adj) ==> ClosedCheapest(adj, start, closed))
    && WithinUniverse(adj, start, closed, open)
  }

  /**
   * What holds while the edges of `current` (open at index `ci`) are relaxed:
   * the edges in `done` are covered, and new or rewritten records name
   * `current` as their predecessor, as if it were already closed.
   */
  ghost predicate RelaxInv(adj: Adjacency, start: Node, closed: seq<NodeRecord>, current: NodeRecord, ci: nat,
                           open: seq<NodeRecord>, done: seq<Connection>) {
    ci < |open| && open[ci] == current
    && Distinct(open) && Disjoint(closed, open)
    && OpenJustified(adj, start, closed + [current], |closed| + 1, open)
    && (HasNode(closed, start) || current.node == start)
    && ClosedFrontier(adj, closed, open)
    && Covers(closed, open, current.costSoFar, done)
    && WithinUniverse(adj, start, closed, open)
  }

  /**
   * One pass of the inner loop for edge `c` out of the current record
   * `open[ci]`: skip a closed end; rewrite an open end only when the new cost
   * is strictly lower; otherwise append a fresh record.
   */
  function Relax(closed: seq<NodeRecord>, ci: nat, open: seq<NodeRecord>, c: Connection): seq<NodeRecord>
    requires ci < |open|
  {
    var cost := open[ci].costSoFar + c.cost;
    if HasNode(closed, c.toNode) then open
    else if HasNode(open, c.toNode) then
      (var j := IndexOfNode(open, c.toNode);
       if open[j].costSoFar <= cost then open else open[j := NodeRecord(c.toNode, Some(c), cost)])
    else open + [NodeRecord(c.toNode, Some(c), cost)]
  }

  /** An edge into a closed node changes nothing: closed nodes are never re-opened. */
  lemma RelaxSkipsClosed(closed: seq<NodeRecord>, ci: nat, open: seq<NodeRecord>, c: Connection)
    requires ci < |open| && HasNode(closed, c.toNode)
    ensures Relax(closed, ci, open, c) == open
  {
  }

  /**
   * Relaxing rewrites at most the one open record of the edge's end, and only
   * to a strictly lower cost, which is then the current cost plus the edge's;
   * a record is appended only for a node that has none.
   */
  lemma RelaxChanges(closed: seq<NodeRecord>, ci: nat, open: seq<NodeRecord>, c: Connection)
    requires ci < |open|
    ensures var r := Relax(closed, ci, open, c);
      && |open| <= |r| <= |open| + 1
      && (forall j :: 0 <= j < |open| && r[j] != open[j] ==>
            && r[j] == NodeRecord(c.toNode, Some(c), open[ci].costSoFar + c.cost)
            && r[j].costSoFar < open[j].costSoFar
            && open[j].node == c.toNode)
      && (|r| == |open| + 1 ==>
            (r == open + [NodeRecord(c.toNode, Some(c), open[ci].costSoFar + c.cost)]
             && !HasNode(open, c.toNode) && !HasNode(closed, c.toNode)))
  {
  }

  /** Relaxing keeps at most one open record per node. */
  lemma RelaxKeepsDistinct(closed: seq<NodeRecord>, ci: nat, open: seq<NodeRecord>, c: Connection)
    requires ci < |open| && Distinct(open)
    ensures Distinct(Relax(closed, ci, open, c))
  {
    var r := Relax(closed, ci, open, c);
    RelaxChanges(closed, ci, open, c);
    forall i, j | 0 <= i < j < |r|
      ensures r[i].node != r[j].node
    {
      assert r[i].node == open[i].node;
      if j < |open| {
        assert r[j].node == open[j].node;
      }
    }
  }

  lemma NodesOfAppend(rs: seq<NodeRecord>, r: NodeRecord)
    ensures NodesOf(rs + [r]) == NodesOf(rs) + {r.node}
  {
    var s := rs + [r];
    assert s[|rs|].node == r.node;
    forall n | n in NodesOf(rs)
      ensures n in NodesOf(s)
    {
      var i :| 0 <= i < |rs| && rs[i].node == n;
      assert s[i].node == n;
    }
  }

  lemma HasNodeIffIn(rs: seq<NodeRecord>, n: Node)
    ensures HasNode(rs, n) <==> n in NodesOf(rs)
  {
    if n in NodesOf(rs) {
      var i :| 0 <= i < |rs| && rs[i].node == n;
    }
  }

  /** Appending a record about a new node keeps the nodes apart. */
  lemma DistinctAppend(rs: seq<NodeRecord>, r: NodeRecord)
    requires Distinct(rs) && !HasNode(rs, r.node)
    ensures Distinct(rs + [r])
  {
    var s := rs + [r];
    forall i, j | 0 <= i < j < |s|
      ensures s[i].node != s[j].node
    {
      assert s[i] == rs[i];
      if j < |rs| {
        assert s[j] == rs[j];
      }
    }
  }

  /** Appending leaves the first record of a node already present where it was. */
  lemma IndexOfNodeAppend(rs: seq<NodeRecord>, r: NodeRecord, n: Node)
    requires HasNode(rs, n)
    ensures HasNode(rs + [r], n) && IndexOfNode(rs + [r], n) == IndexOfNode(rs, n)
  {
    var i := IndexOfNode(rs, n);
    assert (rs + [r])[i].node == n;
    assert forall j :: 0 <= j < i ==> (rs + [r])[j] == rs[j];
  }

  /** In a list without duplicate nodes the record at `i` is the first about its node. */
  lemma IndexOfNodeDistinct(rs: seq<NodeRecord>, i: nat)
    requires Distinct(rs) && i < |rs|
    ensures HasNode(rs, rs[i].node) && IndexOfNode(rs, rs[i].node) == i
  {
  }

  /** A record stays accounted for when the closed list grows. */
  lemma JustifiedAppend(adj: Adjacency, start: Node, closed: seq<NodeRecord>, x: NodeRecord, bound: nat, r: NodeRecord)
    requires Justified(adj, start, closed, bound, r)
    ensures Justified(adj, start, closed + [x], bound, r)
  {
    if r.connection.Some? {
      var f := r.connection.value.fromNode;
      IndexOfNodeAppend(closed, x, f);
      assert (closed + [x])[IndexOfNode(closed, f)] == closed[IndexOfNode(closed, f)];
    }
  }

  /** The index-`i` edge of `n`'s list is one of `n`'s edges, so it ends inside the universe. */
  lemma EdgeInUniverse(adj: Adjacency, start: Node, n: Node, i: nat)
    requires i < |Outgoing(adj, n)|
    ensures Outgoing(adj, n)[i] in Outgoing(adj, n)
    ensures Outgoing(adj, n)[i].toNode in Universe(adj, start)
  {
    assert n in adj;
    var e := adj[n][i];
    assert e.toNode in (set m, j | m in adj && 0 <= j < |adj[m]| :: adj[m][j].toNode);
  }

  /** Relaxing only lowers open costs and keeps every open node open at the same index. */
  lemma RelaxImproves(closed: seq<NodeRecord>, ci: nat, open: seq<NodeRecord>, c: Connection, n: Node)
    requires ci < |open| && HasNode(open, n)
    ensures var r := Relax(closed, ci, open, c);
      HasNode(r, n) && IndexOfNode(r, n) == IndexOfNode(open, n)
      && r[IndexOfNode(r, n)].costSoFar <= open[IndexOfNode(open, n)].costSoFar
  {
    var r := Relax(closed, ci, open, c);
    RelaxChanges(closed, ci, open, c);
    var i := IndexOfNode(open, n);
    assert r[i].node == n;
    assert forall j :: 0 <= j < i ==> r[j].node == open[j].node;
  }

  /** A covered edge stays covered when relaxing. */
  lemma RelaxKeepsCovered(closed: seq<NodeRecord>, ci: nat, open: seq<NodeRecord>, c: Connection, u: real, e: Connection)
    requires ci < |open| && EdgeCovered(closed, open, u, e)
    ensures EdgeCovered(closed, Relax(closed, ci, open, c), u, e)
  {
    if !HasNode(closed, e.toNode) {
      RelaxImproves(closed, ci, open, c, e.toNode);
    }
  }

  /** A self-loop never lowers the current cost, so relaxing leaves the current record untouched. */
  lemma RelaxKeepsCurrent(adj: Adjacency, closed: seq<NodeRecord>, ci: nat, open: seq<NodeRecord>, i: nat)
    requires FiledByOrigin(adj) && NoNegativeSelfLoops(adj)
    requires ci < |open| && Distinct(open) && i < |Outgoing(adj, open[ci].node)|
    ensures var r := Relax(closed, ci, open, Outgoing(adj, open[ci].node)[i]);
      ci < |r| && r[ci] == open[ci]
  {
    var n := open[ci].node;
    var c := Outgoing(adj, n)[i];
    assert n in adj && c == adj[n][i];
    RelaxChanges(closed, ci, open, c);
    IndexOfNodeDistinct(open, ci);
    if c.toNode == n {
      assert c.cost >= 0.0;
    }
  }

  /** A rewritten or appended record names the current node, placed just past the closed list. */
  lemma RelaxJustified(adj: Adjacency, start: Node, closed: seq<NodeRecord>, current: NodeRecord, ci: nat,
                       open: seq<NodeRecord>, i: nat)
    requires FiledByOrigin(adj) && NoNegativeSelfLoops(adj)
    requires ci < |open| && open[ci] == current && Distinct(open) && Disjoint(closed, open)
    requires HasNode(closed, start) || current.node == start
    requires OpenJustified(adj, start, closed + [current], |closed| + 1, open)
    requires i < |Outgoing(adj, current.node)|
    ensures OpenJustified(adj, start, closed + [current], |closed| + 1, Relax(closed, ci, open, Outgoing(adj, current.node)[i]))
  {
    var c := Outgoing(adj, current.node)[i];
    var r := Relax(closed, ci, open, c);
    var rec := NodeRecord(c.toNode, Some(c), current.costSoFar + c.cost);
    assert current.node in adj && c == adj[current.node][i];
    RelaxChanges(closed, ci, open, c);
    RelaxKeepsCurrent(adj, closed, ci, open, i);
    if r != open {
      assert c.toNode != current.node by {
        if |r| == |open| {
          var j :| 0 <= j < |open| && r[j] != open[j];
          assert j != ci;
        }
      }
      var cl := closed + [current];
      assert !HasNode(closed, current.node);
      assert cl[|closed|].node == current.node;
      assert forall j :: 0 <= j < |closed| ==> cl[j] == closed[j];
      assert HasNode(cl, current.node) && IndexOfNode(cl, current.node) == |closed|;
      assert c.toNode != start;
      assert Justified(adj, start, cl, |closed| + 1, rec);
      forall j | 0 <= j < |r|
        ensures Justified(adj, start, cl, |closed| + 1, r[j])
      {
        if j >= |open| || r[j] != open[j] {
          assert r[j] == rec;
        }
      }
    }
  }

  /** Relaxing keeps the open nodes apart from the closed ones and inside the universe. */
  lemma RelaxNodes(adj: Adjacency, start: Node, closed: seq<NodeRecord>, current: NodeRecord, ci: nat,
                   open: seq<NodeRecord>, i: nat)
    requires ci < |open| && open[ci] == current && Disjoint(closed, open)
    requires WithinUniverse(adj, start, closed, open)
    requires i < |Outgoing(adj, current.node)|
    ensures var r := Relax(closed, ci, open, Outgoing(adj, current.node)[i]);
      Disjoint(closed, r) && WithinUniverse(adj, start, closed, r)
  {
    var c := Outgoing(adj, current.node)[i];
    var r := Relax(closed, ci, open, c);
    EdgeInUniverse(adj, start, current.node, i);
    RelaxChanges(closed, ci, open, c);
    forall j | 0 <= j < |r|
      ensures !HasNode(closed, r[j].node)
    {
      if j < |open| {
        assert r[j].node == open[j].node;
      }
    }
    if |r| == |open| + 1 {
      NodesOfAppend(open, r[|open|]);
    } else {
      forall n | n in NodesOf(r)
        ensures n in NodesOf(open)
      {
        var j :| 0 <= j < |r| && r[j].node == n;
        assert open[j].node == n;
      }
    }
  }

  /** After relaxing `c`, the edge `c` itself is covered. */
  lemma RelaxCovers(closed: seq<NodeRecord>, ci: nat, open: seq<NodeRecord>, c: Connection)
    requires ci < |open| && Distinct(open)
    ensures EdgeCovered(closed, Relax(closed, ci, open, c), open[ci].costSoFar, c)
  {
    var r := Relax(closed, ci, open, c);
    RelaxChanges(closed, ci, open, c);
    RelaxKeepsDistinct(closed, ci, open, c);
    if !HasNode(closed, c.toNode) && r != open {
      if |r| == |open| {
        var j := IndexOfNode(open, c.toNode);
        assert r[j].node == c.toNode;
        IndexOfNodeDistinct(r, j);
      } else {
        assert r[|open|].node == c.toNode;
        IndexOfNodeDistinct(r, |open|);
      }
    }
  }

  /** Relaxing keeps every covered edge covered, for the closed records and for `done`. */
  lemma RelaxKeepsFrontier(adj: Adjacency, closed: seq<NodeRecord>, ci: nat, open: seq<NodeRecord>,
                           c: Connection, u: real, done: seq<Connection>)
    requires ci < |open|
    requires ClosedFrontier(adj, closed, open) && Covers(closed, open, u, done)
    ensures var r := Relax(closed, ci, open, c);
      ClosedFrontier(adj, closed, r) && Covers(closed, r, u, done)
  {
    var r := Relax(closed, ci, open, c);
    forall k | 0 <= k < |closed|
      ensures Frontier(adj, closed, r, closed[k])
    {
      assert Frontier(adj, closed, open, closed[k]);
      var out := Outgoing(adj, closed[k].node);
      forall m | 0 <= m < |out|
        ensures EdgeCovered(closed, r, closed[k].costSoFar, out[m])
      {
        RelaxKeepsCovered(closed, ci, open, c, closed[k].costSoFar, out[m]);
      }
    }
    forall m | 0 <= m < |done|
      ensures EdgeCovered(closed, r, u, done[m])
    {
      RelaxKeepsCovered(closed, ci, open, c, u, done[m]);
    }
  }

  /** Relaxing one more edge of the current record keeps the inner-loop invariant. */
  lemma RelaxStep(adj: Adjacency, start: Node, closed: seq<NodeRecord>, current: NodeRecord, ci: nat,
                  open: seq<NodeRecord>, done: seq<Connection>, i: nat)
    requires FiledByOrigin(adj) && NoNegativeSelfLoops(adj)
    requires RelaxInv(adj, start, closed, current, ci, open, done)
    requires i < |Outgoing(adj, current.node)|
    ensures RelaxInv(adj, start, closed, current, ci, Relax(closed, ci, open, Outgoing(adj, current.node)[i]),
                     done + [Outgoing(adj, current.node)[i]])
  {
    var c := Outgoing(adj, current.node)[i];
    var r := Relax(closed, ci, open, c);
    RelaxKeepsCurrent(adj, closed, ci, open, i);
    RelaxKeepsDistinct(closed, ci, open, c);
    RelaxJustified(adj, start, closed, current, ci, open, i);
    RelaxNodes(adj, start, closed, current, ci, open, i);
    RelaxCovers(closed, ci, open, c);
    RelaxKeepsFrontier(adj, closed, ci, open, c, current.costSoFar, done);
    var done' := done + [c];
    assert forall m :: 0 <= m < |done| ==> done'[m] == done[m];
  }

  /** The lists as first set up: the start record alone, open, with nothing closed. */
  lemma InitialInv(adj: Adjacency, start: Node, goal: Node)
    ensures SearchInv(adj, start, goal, [], [NodeRecord(start, None, 0.0)])
  {
    var o := [NodeRecord(start, None, 0.0)];
    forall n | n in NodesOf(o)
      ensures n == start
    {
      var i :| 0 <= i < |o| && o[i].node == n;
    }
  }

  /** The costs of a graph's edges, seen through `Outgoing`, are non-negative when all costs are. */
  lemma OutgoingCost(adj: Adjacency, e: Connection)
    requires NonNegativeCosts(adj) && e in Outgoing(adj, e.fromNode)
    ensures e.cost >= 0.0
  {
    var i :| 0 <= i < |adj[e.fromNode]| && adj[e.fromNode][i] == e;
  }

  /**
   * With non-negative costs no path to a node that is not closed costs less
   * than the cheapest open record (its cost is the bound `m`): the path leaves
   * the closed nodes along a covered edge into an open record no cheaper than `m`.
   */
  lemma {:induction false} OpenBoundsPaths(adj: Adjacency, start: Node, closed: seq<NodeRecord>, open: seq<NodeRecord>,
                                           m: real, p: seq<Connection>, g: Node)
    requires NonNegativeCosts(adj)
    requires OpenJustified(adj, start, closed, |closed|, open)
    requires HasNode(closed, start) || HasNode(open, start)
    requires ClosedFrontier(adj, closed, open) && ClosedCheapest(adj, start, closed)
    requires forall j :: 0 <= j < |open| ==> m <= open[j].costSoFar
    requires IsPath(adj, p, start, g) && !HasNode(closed, g)
    ensures m <= PathCost(p)
    decreases |p|
  {
    if |p| == 0 {
      var j := IndexOfNode(open, start);
      assert Justified(adj, start, closed, |closed|, open[j]);
    } else {
      var q := p[..|p| - 1];
      var e := p[|p| - 1];
      var u := e.fromNode;
      IsPathPrefix(adj, p, start, g);
      OutgoingCost(adj, e);
      if HasNode(closed, u) {
        var k := IndexOfNode(closed, u);
        assert Cheapest(adj, start, closed[k]);
        var i :| 0 <= i < |Outgoing(adj, u)| && Outgoing(adj, u)[i] == e;
        assert Frontier(adj, closed, open, closed[k]);
        assert EdgeCovered(closed, open, closed[k].costSoFar, e);
        var j := IndexOfNode(open, g);
        assert m <= open[j].costSoFar;
      } else {
        OpenBoundsPaths(adj, start, closed, open, m, q, u);
      }
    }
  }

  /**
   * The record popped as the cheapest open one: accounted for, no path to it
   * is cheaper (with non-negative costs), and relaxation can begin on it.
   */
  lemma Popped(adj: Adjacency, start: Node, goal: Node, closed: seq<NodeRecord>, open: seq<NodeRecord>, ci: nat)
    requires SearchInv(adj, start, goal, closed, open)
    requires ci < |open| && forall j :: 0 <= j < |open| ==> open[ci].costSoFar <= open[j].costSoFar
    ensures Justified(adj, start, closed, |closed|, open[ci])
    ensures NonNegativeCosts(adj) ==> Cheapest(adj, start, open[ci])
    ensures RelaxInv(adj, start, closed, open[ci], ci, open, [])
  {
    var cur := open[ci];
    if NonNegativeCosts(adj) {
      if !HasNode(closed, start) {
        assert open[0].node == start;
      }
      forall p | IsPath(adj, p, start, cur.node)
        ensures cur.costSoFar <= PathCost(p)
      {
        OpenBoundsPaths(adj, start, closed, open, cur.costSoFar, p, cur.node);
      }
    }
    forall j | 0 <= j < |open|
      ensures Justified(adj, start, closed + [cur], |closed| + 1, open[j])
    {
      JustifiedAppend(adj, start, closed, cur, |closed|, open[j]);
    }
  }

  /** Removing the record at `ci` from a list without duplicate nodes. */
  lemma RemoveAtFacts(closed: seq<NodeRecord>, cur: NodeRecord, ci: nat, open: seq<NodeRecord>)
    requires ci < |open| && open[ci] == cur && Distinct(open) && Disjoint(closed, open)
    ensures var o := open[..ci] + open[ci + 1..];
      && (forall j :: 0 <= j < |o| ==> o[j] == (if j < ci then open[j] else open[j + 1]))
      && Distinct(o) && Disjoint(closed + [cur], o) && NodesOf(o) <= NodesOf(open)
  {
    var o := open[..ci] + open[ci + 1..];
    var cl := closed + [cur];
    assert forall j :: 0 <= j < |o| ==> o[j] == (if j < ci then open[j] else open[j + 1]);
    forall j | 0 <= j < |o|
      ensures !HasNode(cl, o[j].node)
    {
      assert o[j].node != cur.node;
      assert !HasNode(closed, o[j].node);
      assert forall k :: 0 <= k < |closed| ==> cl[k] == closed[k];
    }
    forall n | n in NodesOf(o)
      ensures n in NodesOf(open)
    {
      var j :| 0 <= j < |o| && o[j].node == n;
    }
  }

  /** A covered edge stays covered once the current record moves from open to closed. */
  lemma CoveredAfterClose(closed: seq<NodeRecord>, cur: NodeRecord, ci: nat, open: seq<NodeRecord>, u: real, e: Connection)
    requires ci < |open| && open[ci] == cur && Distinct(open) && EdgeCovered(closed, open, u, e)
    ensures EdgeCovered(closed + [cur], open[..ci] + open[ci + 1..], u, e)
  {
    var cl := closed + [cur];
    var o := open[..ci] + open[ci + 1..];
    var n := e.toNode;
    if HasNode(closed, n) {
      var k := IndexOfNode(closed, n);
      assert cl[k].node == n;
    } else if n == cur.node {
      assert cl[|closed|].node == n;
    } else {
      var j := IndexOfNode(open, n);
      assert j != ci;
      var j' := if j < ci then j else j - 1;
      assert o[j'] == open[j];
      assert forall i :: 0 <= i < |o| ==> o[i] == (if i < ci then open[i] else open[i + 1]);
      assert Distinct(o);
      IndexOfNodeDistinct(o, j');
    }
  }

  /** One fewer node is left to close. */
  lemma CloseShrinks(u: set<Node>, s: set<Node>, x: Node)
    requires x in u && x !in s
    ensures |u - (s + {x})| < |u - s|
  {
    assert u - s == (u - (s + {x})) + {x};
  }

  /**
   * Moving the fully relaxed current record from open to closed restores the
   * main-loop invariant, and the set of nodes left to close shrinks.
   */
  lemma CloseCurrent(adj: Adjacency, start: Node, goal: Node, closed: seq<NodeRecord>, cur: NodeRecord, ci: nat,
                     open: seq<NodeRecord>, cl: seq<NodeRecord>, o: seq<NodeRecord>)
    requires Distinct(closed) && !HasNode(closed, goal) && cur.node != goal
    requires ClosedJustified(adj, start, closed)
    requires NonNegativeCosts(adj) ==> ClosedCheapest(adj, start, closed)
    requires Justified(adj, start, closed, |closed|, cur)
    requires NonNegativeCosts(adj) ==> Cheapest(adj, start, cur)
    requires RelaxInv(adj, start, closed, cur, ci, open, Outgoing(adj, cur.node))
    requires cl == closed + [cur] && o == open[..ci] + open[ci + 1..]
    ensures SearchInv(adj, start, goal, cl, o)
    ensures |Universe(adj, start) - NodesOf(cl)| < |Universe(adj, start) - NodesOf(closed)|
  {
    RemoveAtFacts(closed, cur, ci, open);
    assert !HasNode(closed, open[ci].node);
    DistinctAppend(closed, cur);
    NodesOfAppend(closed, cur);
    HasNodeIffIn(closed, cur.node);
    CloseJustified(adj, start, closed, cur);
    CloseFrontier(adj, closed, cur, ci, open);
    HasNodeIffIn(closed, start);
    HasNodeIffIn(cl, start);
    HasNodeIffIn(cl, goal);
    HasNodeIffIn(closed, goal);
    CloseShrinks(Universe(adj, start), NodesOf(closed), cur.node);
    CloseOpenJustified(adj, start, closed, cur, ci, open);
    if NonNegativeCosts(adj) {
      CloseCheapest(adj, start, closed, cur);
    }
  }

  /** The open records left after removing the current one are accounted for against the grown closed list. */
  lemma CloseOpenJustified(adj: Adjacency, start: Node, closed: seq<NodeRecord>, cur: NodeRecord, ci: nat,
                           open: seq<NodeRecord>)
    requires ci < |open|
    requires OpenJustified(adj, start, closed + [cur], |closed| + 1, open)
    ensures OpenJustified(adj, start, closed + [cur], |closed| + 1, open[..ci] + open[ci + 1..])
  {
    var o := open[..ci] + open[ci + 1..];
    forall j | 0 <= j < |o|
      ensures Justified(adj, start, closed + [cur], |closed| + 1, o[j])
    {
      var j' := if j < ci then j else j + 1;
      assert o[j] == open[j'];
    }
  }

  /** No path undercuts a closed record, the newly closed one included. */
  lemma CloseCheapest(adj: Adjacency, start: Node, closed: seq<NodeRecord>, cur: NodeRecord)
    requires ClosedCheapest(adj, start, closed) && Cheapest(adj, start, cur)
    ensures ClosedCheapest(adj, start, closed + [cur])
  {
    var cl := closed + [cur];
    forall k | 0 <= k < |cl|
      ensures Cheapest(adj, start, cl[k])
    {
      if k < |closed| {
        assert cl[k] == closed[k];
      }
    }
  }

  /** The closed records stay accounted for when the current record joins them. */
  lemma CloseJustified(adj: Adjacency, start: Node, closed: seq<NodeRecord>, cur: NodeRecord)
    requires ClosedJustified(adj, start, closed) && Justified(adj, start, closed, |closed|, cur)
    ensures ClosedJustified(adj, start, closed + [cur])
  {
    var cl := closed + [cur];
    forall k | 0 <= k < |cl|
      ensures Justified(adj, start, cl, k, cl[k])
    {
      if k < |closed| {
        assert cl[k] == closed[k];
      }
      JustifiedAppend(adj, start, closed, cur, k, cl[k]);
    }
  }

  /** Every closed record's edges, the current record's included, stay covered after closing it. */
  lemma CloseFrontier(adj: Adjacency, closed: seq<NodeRecord>, cur: NodeRecord, ci: nat, open: seq<NodeRecord>)
    requires ci < |open| && open[ci] == cur && Distinct(open)
    requires ClosedFrontier(adj, closed, open) && Covers(closed, open, cur.costSoFar, Outgoing(adj, cur.node))
    ensures ClosedFrontier(adj, closed + [cur], open[..ci] + open[ci + 1..])
  {
    var cl := closed + [cur];
    var o := open[..ci] + open[ci + 1..];
    forall k | 0 <= k < |cl|
      ensures Frontier(adj, cl, o, cl[k])
    {
      if k < |closed| {
        assert cl[k] == closed[k];
        assert Frontier(adj, closed, open, closed[k]);
      } else {
        assert cl[k] == cur;
      }
      var out := Outgoing(adj, cl[k].node);
      forall m | 0 <= m < |out|
        ensures EdgeCovered(cl, o, cl[k].costSoFar, out[m])
      {
        CoveredAfterClose(closed, cur, ci, open, cl[k].costSoFar, out[m]);
      }
    }
  }

  /** With nothing left open, the closed nodes are closed under the edges, so no path reaches the goal. */
  lemma ExhaustedMeansNoPath(adj: Adjacency, start: Node, goal: Node, closed: seq<NodeRecord>)
    requires SearchInv(adj, start, goal, closed, [])
    ensures forall p :: !IsPath(adj, p, start, goal)
  {
    var nodes := NodesOf(closed);
    forall n, i | n in nodes && 0 <= i < |Outgoing(adj, n)|
      ensures Outgoing(adj, n)[i].toNode in nodes
    {
      var k :| 0 <= k < |closed| && closed[k].node == n;
      assert Frontier(adj, closed, [], closed[k]);
      HasNodeIffIn(closed, Outgoing(adj, n)[i].toNode);
    }
    HasNodeIffIn(closed, start);
    HasNodeIffIn(closed, goal);
    forall p | IsPath(adj, p, start, goal)
      ensures false
    {
      PathStaysInside(adj, nodes, p, start, goal);
    }
  }

  /**
   * One step of the path compilation: the current record's connection comes
   * from a closed record further down the list, and prepending it keeps the
   * reversed path a chain to the goal whose cost accounts for the difference.
   */
  lemma ReconstructStep(adj: Adjacency, start: Node, goal: Node, closed: seq<NodeRecord>, bound: nat,
                        cur: NodeRecord, path: seq<Connection>, total: real)
    requires Distinct(closed) && ClosedJustified(adj, start, closed)
    requires bound <= |closed| && Justified(adj, start, closed, bound, cur) && cur.node != start
    requires IsPath(adj, Reverse(path), cur.node, goal) && PathCost(Reverse(path)) + cur.costSoFar == total
    ensures cur.connection.Some? && HasNode(closed, cur.connection.value.fromNode)
    ensures var p := IndexOfNode(closed, cur.connection.value.fromNode);
      && p < bound && Justified(adj, start, closed, p, closed[p])
      && IsPath(adj, Reverse(path + [cur.connection.value]), closed[p].node, goal)
      && PathCost(Reverse(path + [cur.connection.value])) + closed[p].costSoFar == total
  {
    var c := cur.connection.value;
    ReverseAppend(path, c);
    IsPathPrepend(adj, c, Reverse(path), goal);
  }

  /**
   * The body of the inner loop for one connection out of the current record,
   * held in `openList` at index `ci`: the open list becomes `Relax` of it.
   */
  method RelaxEdge(closedList: PathfindingList, openList: PathfindingList, ci: nat, connection: Connection)
    requires closedList != openList && ci < |openList.records|
    modifies openList
    ensures openList.records == Relax(closedList.records, ci, old(openList.records), connection)
  {
    var endNode := connection.GetToNode();
    var endNodeCost := openList.records[ci].costSoFar + connection.GetCost();
    var isClosed := closedList.Contains(endNode);
    if isClosed {
      return;
    }
    var isOpen := openList.Contains(endNode);
    var endNodeRecord: NodeRecord;
    if isOpen {
      var record := openList.Find(endNode);
      endNodeRecord := record.value;
      if endNodeRecord.costSoFar <= endNodeCost {
        return;
      }
    } else {
      // A fresh record; its infinite default cost is overwritten just below.
      endNodeRecord := NodeRecord(endNode, None, endNodeCost);
    }
    endNodeRecord := endNodeRecord.(costSoFar := endNodeCost, connection := Some(connection));
    if isOpen {
      // The found record is the one the open list holds, so updating it updates the list.
      openList.Set(IndexOfNode(openList.records, endNode), endNodeRecord);
    }
    var stillOpen := openList.Contains(endNode);
    if !stillOpen {
      openList.Add(endNodeRecord);
    }
  }

  /** The inner loop: every connection out of the current record is relaxed in turn. */
  method RelaxEdges(graph: Graph, closedList: PathfindingList, openList: PathfindingList, ghost start: Node,
                    current: NodeRecord, ci: nat)
    requires graph.Valid() && NoNegativeSelfLoops(graph.connections) && closedList != openList
    requires RelaxInv(graph.connections, start, closedList.records, current, ci, openList.records, [])
    modifies openList
    ensures RelaxInv(graph.connections, start, closedList.records, current, ci, openList.records,
                     Outgoing(graph.connections, current.node))
  {
    ghost var adj := graph.connections;
    ghost var closed := closedList.records;
    var connections := graph.GetConnections(current.node);
    for k := 0 to |connections|
      invariant RelaxInv(adj, start, closed, current, ci, openList.records, connections[..k])
    {
      RelaxStep(adj, start, closed, current, ci, openList.records, connections[..k], k);
      assert connections[..k + 1] == connections[..k] + [connections[k]];
      RelaxEdge(closedList, openList, ci, connections[k]);
    }
    assert connections[..|connections|] == connections;
  }

  /** `open_list.remove(current); closed_list.add(current)` for the current record, open at index `ci`. */
  method MoveToClosed(closedList: PathfindingList, openList: PathfindingList, current: NodeRecord, ci: nat)
    requires closedList != openList && ci < |openList.records| && openList.records[ci] == current
    requires Distinct(openList.records)
    modifies closedList, openList
    ensures openList.records == old(openList.records)[..ci] + old(openList.records)[ci + 1..]
    ensures closedList.records == old(closedList.records) + [current]
  {
    IndexOfNodeDistinct(openList.records, ci);
    assert FirstIndex(openList.records, current) == ci;
    var removed := openList.Remove(current);
    closedList.Add(current);
  }

  /**
   * Working back from the goal record along the predecessors in the closed
   * list yields a chain of connections from `start` to the goal whose cost is
   * the goal record's; nothing when the goal is the start.
   */
  method CompilePath(closedList: PathfindingList, ghost adj: Adjacency, start: Node, goal: Node,
                     goalRecord: NodeRecord) returns (path: seq<Connection>)
    requires Distinct(closedList.records) && ClosedJustified(adj, start, closedList.records)
    requires Justified(adj, start, closedList.records, |closedList.records|, goalRecord) && goalRecord.node == goal
    ensures IsPath(adj, path, start, goal) && PathCost(path) == goalRecord.costSoFar
    ensures start == goal ==> path == []
  {
    ghost var closed := closedList.records;
    ghost var bound: nat := |closed|;
    var current := goalRecord;
    path := [];
    while current.node != start
      invariant bound <= |closed| && Justified(adj, start, closed, bound, current)
      invariant IsPath(adj, Reverse(path), current.node, goal)
      invariant PathCost(Reverse(path)) + current.costSoFar == goalRecord.costSoFar
      invariant start == goal ==> path == []
      decreases bound
    {
      ReconstructStep(adj, start, goal, closed, bound, current, path, goalRecord.costSoFar);
      path := path + [current.connection.value];
      var record := closedList.Find(current.connection.value.fromNode);
      bound := IndexOfNode(closed, current.connection.value.fromNode);
      current := record.value;
    }
    path := Reverse(path);
  }

  /**
   * `open_list.smallest_element()`, with the index `ci` at which the open list
   * holds it: accounted for, no path to it cheaper (with non-negative costs),
   * and ready for its connections to be relaxed.
   */
  method PopCheapest(openList: PathfindingList, ghost adj: Adjacency, ghost start: Node, ghost goal: Node,
                     ghost closed: seq<NodeRecord>) returns (current: NodeRecord, ci: nat)
    requires SearchInv(adj, start, goal, closed, openList.records) && |openList.records| > 0
    ensures ci < |openList.records| && openList.records[ci] == current
    ensures forall j :: 0 <= j < |openList.records| ==> current.costSoFar <= openList.records[j].costSoFar
    ensures Justified(adj, start, closed, |closed|, current)
    ensures NonNegativeCosts(adj) ==> Cheapest(adj, start, current)
    ensures RelaxInv(adj, start, closed, current, ci, openList.records, [])
  {
    ghost var open := openList.records;
    var smallest := openList.SmallestElement();
    current := smallest.value;
    ghost var i :| 0 <= i < |open| && open[i] == current
      && forall j :: 0 <= j < |open| ==> current.costSoFar <= open[j].costSoFar;
    IndexOfNodeDistinct(open, i);
    ci := IndexOfNode(openList.records, current.node);
    Popped(adj, start, goal, closed, open, ci);
  }

  /**
   * One pass of the main loop: pop the cheapest open record; stop there if it
   * is the goal's, otherwise relax its connections and move it to the closed
   * list, which then holds one more node.
   */
  method SearchStep(graph: Graph, closedList: PathfindingList, openList: PathfindingList, start: Node, goal: Node)
    returns (current: NodeRecord, atGoal: bool)
    requires graph.Valid() && NoNegativeSelfLoops(graph.connections) && closedList != openList
    requires SearchInv(graph.connections, start, goal, closedList.records, openList.records)
    requires |openList.records| > 0
    modifies closedList, openList
    ensures atGoal ==> current.node == goal && unchanged(closedList, openList)
    ensures atGoal ==> Justified(graph.connections, start, closedList.records, |closedList.records|, current)
    ensures atGoal && NonNegativeCosts(graph.connections) ==> Cheapest(graph.connections, start, current)
    ensures !atGoal ==> SearchInv(graph.connections, start, goal, closedList.records, openList.records)
    ensures !atGoal ==> |closedList.records| > 0 && current == closedList.records[|closedList.records| - 1]
    ensures !atGoal ==> |Universe(graph.connections, start) - NodesOf(closedList.records)|
                        < |Universe(graph.connections, start) - NodesOf(old(closedList.records))|
  {
    var ci;
    current, ci := PopCheapest(openList, graph.connections, start, goal, closedList.records);
    if current.node == goal {
      return current, true;
    }
    current := Expand(graph, closedList, openList, start, goal, current, ci);
    atGoal := false;
  }

  /**
   * The popped record `current`, open at index `ci` and not the goal's: its
   * connections are relaxed and it moves to the closed list.
   */
  method Expand(graph: Graph, closedList: PathfindingList, openList: PathfindingList, start: Node, goal: Node,
                current: NodeRecord, ci: nat) returns (closedRecord: NodeRecord)
    requires graph.Valid() && NoNegativeSelfLoops(graph.connections) && closedList != openList
    requires SearchInv(graph.connections, start, goal, closedList.records, openList.records)
    requires current.node != goal
    requires Justified(graph.connections, start, closedList.records, |closedList.records|, current)
    requires NonNegativeCosts(graph.connections) ==> Cheapest(graph.connections, start, current)
    requires RelaxInv(graph.connections, start, closedList.records, current, ci, openList.records, [])
    modifies closedList, openList
    ensures SearchInv(graph.connections, start, goal, closedList.records, openList.records)
    ensures closedList.records == old(closedList.records) + [closedRecord]
    ensures |Universe(graph.connections, start) - NodesOf(closedList.records)|
            < |Universe(graph.connections, start) - NodesOf(old(closedList.records))|
  {
    ghost var adj := graph.connections;
    ghost var closed := closedList.records;
    RelaxEdges(graph, closedList, openList, start, current, ci);
    // The current record, re-read from the open list, where relaxation may have updated it.
    closedRecord := openList.records[ci];
    ghost var relaxed := openList.records;
    MoveToClosed(closedList, openList, closedRecord, ci);
    CloseCurrent(adj, start, goal, closed, closedRecord, ci, relaxed, closedList.records, openList.records);
  }

  /**
   * The main loop, run from the start record alone: it ends on the goal's
   * record, popped and accounted for against the closed list, or on the last
   * closed record when the open list runs dry, in which case no path exists.
   */
  method ProcessNodes(graph: Graph, closedList: PathfindingList, openList: PathfindingList, start: Node, goal: Node)
    returns (current: NodeRecord)
    requires graph.Valid() && NoNegativeSelfLoops(graph.connections) && closedList != openList
    requires closedList.records == [] && openList.records == [NodeRecord(start, None, 0.0)]
    requires SearchInv(graph.connections, start, goal, closedList.records, openList.records)
    modifies closedList, openList
    ensures Distinct(closedList.records) && ClosedJustified(graph.connections, start, closedList.records)
    ensures current.node == goal ==> Justified(graph.connections, start, closedList.records, |closedList.records|, current)
    ensures current.node == goal && NonNegativeCosts(graph.connections) ==> Cheapest(graph.connections, start, current)
    ensures current.node != goal ==> start != goal && forall p :: !IsPath(graph.connections, p, start, goal)
  {
    ghost var adj := graph.connections;
    current := openList.records[0];
    while openList.Length() > 0
      invariant SearchInv(adj, start, goal, closedList.records, openList.records)
      invariant |closedList.records| > 0 ==> current == closedList.records[|closedList.records| - 1]
      invariant |closedList.records| == 0 ==> openList.records == [NodeRecord(start, None, 0.0)]
      decreases |Universe(adj, start) - NodesOf(closedList.records)|
    {
      var atGoal;
      current, atGoal := SearchStep(graph, closedList, openList, start, goal);
      if atGoal {
        return;
      }
    }
    ExhaustedMeansNoPath(adj, start, goal, closedList.records);
    assert IsPath(adj, [], start, start);
  }

  /**
   * `pathfind_dijkstra`: a chain of connections from `start` to `goal`, or
   * None exactly when there is no path; `[]` when they coincide; with
   * non-negative costs no path is cheaper than the one returned.
   */
  method PathfindDijkstra(graph: Graph, start: Node, goal: Node) returns (result: Option<seq<Connection>>)
    requires graph.Valid() && NoNegativeSelfLoops(graph.connections)
    ensures result.Some? ==> IsPath(graph.connections, result.value, start, goal)
    ensures result.None? <==> forall p :: !IsPath(graph.connections, p, start, goal)
    ensures start == goal ==> result == Some([])
    ensures result.Some? && NonNegativeCosts(graph.connections) ==>
      forall p :: IsPath(graph.connections, p, start, goal) ==> PathCost(result.value) <= PathCost(p)
  {
    ghost var adj := graph.connections;
    var startRecord := NodeRecord(start, None, 0.0);
    var openList := new PathfindingList();
    openList.Add(startRecord);
    var closedList := new PathfindingList();
    InitialInv(adj, start, goal);
    var current := ProcessNodes(graph, closedList, openList, start, goal);
    if current.node != goal {
      return None;
    }
    var path := CompilePath(closedList, adj, start, goal, current);
    return Some(path);
  }
}
