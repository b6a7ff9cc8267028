/**
 * project3's tactical A*: an A* search whose cost of entering a node adds a
 * penalty that grows as the node gets closer to the player, and which
 * re-opens a closed node when a cheaper way to it turns up.
 *
 * As in the Dijkstra model, records are values and the current record is
 * read back from the open list by its index, so its in-place updates are
 * seen. A re-opened node can be expanded again, and no bound on the number of
 * iterations of either loop is proved (a reachable cycle of negative total
 * cost re-opens nodes for ever), so both run on `fuel`: the search is
 * a pure function of the inputs (`TacticalSearch`), the method is proved to
 * compute it, and the properties are lemmas about that function.
 */
module TacticalAStar {
  import opened Wrappers
  import opened Graph
  import opened Sequences
  import opened Heuristic

  /** `NodeRecord(node, connection, cost_so_far, estimated_total_cost)`; dataclass equality is field equality. */
  datatype TacticalRecord = TacticalRecord(node: Node, connection: Option<Connection>, costSoFar: real,
                                           estimatedTotalCost: real)

  /** The nodes the records are about, in list order. */
  function NodesIn(rs: seq<TacticalRecord>): (ns: seq<Node>)
    ensures |ns| == |rs| && forall i :: 0 <= i < |rs| ==> ns[i] == rs[i].node
  {
    seq(|rs|, i requires 0 <= i < |rs| => rs[i].node)
  }

  /** The index of the first record about `n`. */
  function IndexOfNode(rs: seq<TacticalRecord>, n: Node): (i: nat)
    requires n in NodesIn(rs)
    ensures i < |rs| && rs[i].node == n
    ensures forall j :: 0 <= j < i ==> rs[j].node != n
  {
    FirstIndex(NodesIn(rs), n)
  }

  lemma NodesInAppend(rs: seq<TacticalRecord>, r: TacticalRecord)
    ensures NodesIn(rs + [r]) == NodesIn(rs) + [r.node]
  {
  }

  lemma NodesInUpdate(rs: seq<TacticalRecord>, j: nat, r: TacticalRecord)
    requires j < |rs| && r.node == rs[j].node
    ensures NodesIn(rs[j := r]) == NodesIn(rs)
  {
  }

  lemma NodesInRemoveAt(rs: seq<TacticalRecord>, k: nat)
    requires k < |rs|
    ensures NodesIn(RemoveAt(rs, k)) == RemoveAt(NodesIn(rs), k)
  {
  }

  /** `TacticalPathfindingList`: `PathfindingList` whose smallest element is ranked by estimated total cost. */
  class TacticalPathfindingList {
    var records: seq<TacticalRecord>

    constructor ()
      ensures records == []
    {
      records := [];
    }

    /** `len(list)` */
    function Length(): nat
      reads this
    {
      |records|
    }

    method Add(record: TacticalRecord)
      modifies this
      ensures records == old(records) + [record]
    {
      records := records + [record];
    }

    /**
     * `records.remove(record)`: drops the first record equal to `record`;
     * `removed` is false where Python raises `ValueError` (no equal record).
     */
    method Remove(record: TacticalRecord) returns (removed: bool)
      modifies this
      ensures removed <==> record in old(records)
      ensures removed ==> records == RemoveAt(old(records), FirstIndex(old(records), record))
      ensures !removed ==> records == old(records)
    {
      removed := record in records;
      if removed {
        var i := FirstIndex(records, record);
        records := records[..i] + records[i + 1..];
      }
    }

    /** `any(record.node == node for record in records)` */
    method Contains(node: Node) returns (b: bool)
      ensures b <==> node in NodesIn(records)
    {
      b := false;
      var i := 0;
      while i < |records| && !b
        invariant 0 <= i <= |records|
        invariant b <==> node in NodesIn(records)[..i]
      {
        b := records[i].node == node;
        assert NodesIn(records)[..i + 1] == NodesIn(records)[..i] + [records[i].node];
        i := i + 1;
      }
      assert !b ==> NodesIn(records)[..i] == NodesIn(records);
    }

    /** The first record about `node`, or None exactly when there is none. */
    method Find(node: Node) returns (r: Option<TacticalRecord>)
      ensures r.None? <==> node !in NodesIn(records)
      ensures r.Some? ==> r.value == records[IndexOfNode(records, node)]
    {
      for i := 0 to |records|
        invariant forall j :: 0 <= j < i ==> records[j].node != node
      {
        if records[i].node == node {
          return Some(records[i]);
        }
      }
      return None;
    }

    /**
     * `min(records, key=estimated_total_cost)`: the first record of least
     * estimate; None where Python's `min` raises on an empty list.
     */
    method SmallestElement() returns (r: Option<TacticalRecord>)
      ensures r.None? <==> records == []
      ensures r.Some? ==> r.value == records[FirstMinIndex(records)]
    {
      if |records| == 0 {
        return None;
      }
      var best := 0;
      for i := 1 to |records|
        invariant best == FirstMinIndex(records[..i])
      {
        assert records[..i + 1][..i] == records[..i];
        if records[i].estimatedTotalCost < records[best].estimatedTotalCost {
          best := i;
        }
      }
      assert records[..|records|] == records;
      return Some(records[best]);
    }

    /** Rewriting the fields of the record held at index `i`. */
    method Set(i: nat, record: TacticalRecord)
      requires i < |records|
      modifies this
      ensures records == old(records)[i := record]
    {
      records := records[i := record];
    }
  }

  /** The index of the first record of least estimated total cost: where `min` stops. */
  function FirstMinIndex(rs: seq<TacticalRecord>): (i: nat)
    requires rs != []
    ensures i < |rs|
    ensures forall j :: 0 <= j < |rs| ==> rs[i].estimatedTotalCost <= rs[j].estimatedTotalCost
    ensures forall j :: 0 <= j < i ==> rs[i].estimatedTotalCost < rs[j].estimatedTotalCost
  {
    if |rs| == 1 then 0
    else
      var k := FirstMinIndex(rs[..|rs| - 1]);
      if rs[|rs| - 1].estimatedTotalCost < rs[k].estimatedTotalCost then |rs| - 1 else k
  }

  /** The class constant `DISTANCE_FROM_PLAYER`. */
  const DISTANCE_FROM_PLAYER: real := 200.0

  /**
   * The extra cost of entering `node`: `DISTANCE_FROM_PLAYER` divided by one
   * more than its Manhattan distance to the player (the full constant on the
   * player's tile, and always when a node is not a tile or there is no player).
   */
  function PlayerPenalty(node: Node, player: Option<Node>): (p: real)
    ensures 0.0 < p <= DISTANCE_FROM_PLAYER
    ensures EstimateBetween(Some(node), player) == 0 ==> p == DISTANCE_FROM_PLAYER
  {
    var d := EstimateBetween(Some(node), player) as real + 1.0;
    DivisionBounds(DISTANCE_FROM_PLAYER, d);
    DISTANCE_FROM_PLAYER / d
  }

  lemma DivisionBounds(a: real, d: real)
    requires a > 0.0 && d >= 1.0
    ensures 0.0 < a / d <= a
  {
    DivideByLarger(a, 1.0, d);
  }

  /** Dividing by a larger divisor gives a smaller quotient. */
  lemma DivideByLarger(a: real, x: real, y: real)
    requires a > 0.0 && 1.0 <= x <= y
    ensures 0.0 < a / y <= a / x
  {
    var p := a / x;
    var q := a / y;
    assert p * x == a && q * y == a;
    assert q > 0.0;
    assert q * x <= q * y by {
      MultiplyMonotone(q, x, y);
    }
    assert (p - q) * x >= 0.0;
  }

  lemma MultiplyMonotone(k: real, x: real, y: real)
    requires k >= 0.0 && x <= y
    ensures k * x <= k * y
  {
    assert k * y - k * x == k * (y - x);
  }

  /** A node nearer to the player costs at least as much to enter as one farther away. */
  lemma PenaltyFallsWithDistance(a: Node, b: Node, player: Option<Node>)
    requires EstimateBetween(Some(a), player) <= EstimateBetween(Some(b), player)
    ensures PlayerPenalty(b, player) <= PlayerPenalty(a, player)
  {
    DivideByLarger(DISTANCE_FROM_PLAYER, EstimateBetween(Some(a), player) as real + 1.0,
                   EstimateBetween(Some(b), player) as real + 1.0);
  }

  /** The record the search starts from: no connection, cost 0, estimate `heuristic.estimate(start)`. */
  function StartRecord(h: Heuristic, start: Node): TacticalRecord {
    TacticalRecord(start, None, 0.0, h.Estimate(Some(start)) as real)
  }

  /** The two lists of a search state. */
  datatype Lists = Lists(closed: seq<TacticalRecord>, open: seq<TacticalRecord>)

  /** Some list holds a record about `n`. */
  predicate Listed(L: Lists, n: Node) {
    n in NodesIn(L.closed) || n in NodesIn(L.open)
  }

  /**
   * One pass of the inner loop: connection `c` out of the current record,
   * the one at index `ci` of the open list. Its end's cost is the current
   * cost plus the edge's and the player penalty. A closed end is skipped
   * unless that is strictly cheaper, and is then removed from the closed list
   * and re-opened keeping its heuristic part (estimate minus cost); an open
   * end is updated in place on the same terms; a new end gets the heuristic
   * estimate plus the penalty as its heuristic part. An updated record is
   * appended to the open list unless that already holds its node.
   */
  function Relax(h: Heuristic, player: Option<Node>, L: Lists, ci: nat, c: Connection): (r: Lists)
    requires ci < |L.open|
    ensures |L.open| <= |r.open|
  {
    var endNode := c.toNode;
    var cost := L.open[ci].costSoFar + c.cost + PlayerPenalty(endNode, player);
    if endNode in NodesIn(L.closed) then
      var k := IndexOfNode(L.closed, endNode);
      var record := L.closed[k];
      if record.costSoFar <= cost then L
      else
        var updated := TacticalRecord(endNode, Some(c), cost, cost + (record.estimatedTotalCost - record.costSoFar));
        var closed := RemoveAt(L.closed, k);
        if endNode in NodesIn(L.open) then Lists(closed, L.open) else Lists(closed, L.open + [updated])
    else if endNode in NodesIn(L.open) then
      var j := IndexOfNode(L.open, endNode);
      var record := L.open[j];
      if record.costSoFar <= cost then L
      else
        Lists(L.closed, L.open[j := TacticalRecord(endNode, Some(c), cost,
                                                   cost + (record.estimatedTotalCost - record.costSoFar))])
    else
      var part := h.Estimate(Some(endNode)) as real + PlayerPenalty(endNode, player);
      Lists(L.closed, L.open + [TacticalRecord(endNode, Some(c), cost, cost + part)])
  }

  /** The cost of the record a list holds about `n`: the closed one if any, else the open one. */
  function ListedCost(L: Lists, n: Node): real
    requires Listed(L, n)
  {
    if n in NodesIn(L.closed) then L.closed[IndexOfNode(L.closed, n)].costSoFar
    else L.open[IndexOfNode(L.open, n)].costSoFar
  }

  /**
   * A relaxation changes nothing unless it reaches the connection's end
   * strictly more cheaply than its existing record, or the end has none. When
   * it does change something, the end's only record is open, comes in
   * through `c`, costs the new cost, and keeps any earlier heuristic part.
   */
  lemma RelaxOnlyImproves(h: Heuristic, player: Option<Node>, L: Lists, ci: nat, c: Connection)
    requires ci < |L.open| && Disjoint(L) && NoDuplicates(NodesIn(L.closed))
    ensures var cost := L.open[ci].costSoFar + c.cost + PlayerPenalty(c.toNode, player);
      var r := Relax(h, player, L, ci, c);
      (Listed(L, c.toNode) && ListedCost(L, c.toNode) <= cost ==> r == L)
      && (r != L ==>
            c.toNode !in NodesIn(r.closed) && c.toNode in NodesIn(r.open)
            && r.open[IndexOfNode(r.open, c.toNode)].connection == Some(c)
            && r.open[IndexOfNode(r.open, c.toNode)].costSoFar == cost
            && (!Listed(L, c.toNode) ==>
                  r.open[IndexOfNode(r.open, c.toNode)].estimatedTotalCost
                  == cost + h.Estimate(Some(c.toNode)) as real + PlayerPenalty(c.toNode, player)))
  {
    var endNode := c.toNode;
    var r := Relax(h, player, L, ci, c);
    if r != L {
      if endNode in NodesIn(L.closed) {
        var k := IndexOfNode(L.closed, endNode);
        NodesInRemoveAt(L.closed, k);
        NoDuplicatesRemoveAt(NodesIn(L.closed), k);
        assert endNode !in NodesIn(L.open);
        NodesInAppend(L.open, r.open[|L.open|]);
      } else if endNode in NodesIn(L.open) {
        var j := IndexOfNode(L.open, endNode);
        NodesInUpdate(L.open, j, r.open[j]);
      } else {
        NodesInAppend(L.open, r.open[|L.open|]);
      }
    }
  }

  /** The inner loop over `cs`, in order. */
  function RelaxAll(h: Heuristic, player: Option<Node>, L: Lists, ci: nat, cs: seq<Connection>): (r: Lists)
    requires ci < |L.open|
    ensures |L.open| <= |r.open|
    decreases |cs|
  {
    if cs == [] then L else Relax(h, player, RelaxAll(h, player, L, ci, cs[..|cs| - 1]), ci, cs[|cs| - 1])
  }

  /**
   * The loop body after the goal test, for the current record at index `ci`:
   * relax every connection out of its node, then remove it (as it now is)
   * from the open list and append it to the closed list.
   */
  function Expand(adj: Adjacency, h: Heuristic, player: Option<Node>, L: Lists, ci: nat): (r: Lists)
    requires ci < |L.open|
    ensures r.closed != []
  {
    var relaxed := RelaxAll(h, player, L, ci, Outgoing(adj, L.open[ci].node));
    var current := relaxed.open[ci];
    Lists(relaxed.closed + [current], RemoveAt(relaxed.open, FirstIndex(relaxed.open, current)))
  }

  /** Where the main loop stops: the current record, the lists, and whether it ran out of fuel. */
  datatype Halt = Halt(current: TacticalRecord, lists: Lists, outOfFuel: bool)

  /** Every application to an open index is defined and closes a record. */
  ghost predicate Closes(expand: (Lists, nat) --> Lists) {
    forall M: Lists, ci: nat {:trigger expand.requires(M, ci)} ::
      ci < |M.open| ==> expand.requires(M, ci) && expand(M, ci).closed != []
  }

  /**
   * The main loop with at most `fuel` expansions left, `expand` being its
   * body after the goal test: it stops when the open list is empty, or when
   * the first record of least estimate is about the goal (before expanding
   * it), or when the fuel is spent.
   */
  function Loop(expand: (Lists, nat) --> Lists, goal: Node, L: Lists, current: TacticalRecord, fuel: nat): Halt
    requires Closes(expand)
    decreases fuel
  {
    if L.open == [] then Halt(current, L, false)
    else
      var ci := FirstMinIndex(L.open);
      if L.open[ci].node == goal then Halt(L.open[ci], L, false)
      else if fuel == 0 then Halt(L.open[ci], L, true)
      else
        var next := expand(L, ci);
        Loop(expand, goal, next, next.closed[|next.closed| - 1], fuel - 1)
  }

  /** The loop body of `pathfind_tactical_astar` on `graph`, `heuristic` and `player`. */
  function ExpandStep(adj: Adjacency, h: Heuristic, player: Option<Node>): (Lists, nat) --> Lists {
    (M: Lists, ci: nat) requires ci < |M.open| => Expand(adj, h, player, M, ci)
  }

  lemma ExpandStepCloses(adj: Adjacency, h: Heuristic, player: Option<Node>)
    ensures Closes(ExpandStep(adj, h, player))
  {
  }

  /** What `pathfind_tactical_astar` comes to. */
  datatype Outcome =
    | Found(path: seq<Connection>)
    /** The open list ran dry before the goal came up: Python returns None. */
    | NoPath
    /** Reconstruction met a record whose predecessor is in no closed record: Python raises AttributeError. */
    | MissingPredecessor
    /** A loop needed more than `fuel` iterations. */
    | OutOfFuel

  /**
   * The reconstruction loop with at most `fuel` steps left: from `current`
   * back along connections, looking each predecessor up in the closed list,
   * until the start node; `path` holds the connections met so far, last
   * first.
   */
  function Reconstruct(closed: seq<TacticalRecord>, start: Node, current: TacticalRecord,
                       path: seq<Connection>, fuel: nat): (o: Outcome)
    ensures o != NoPath
    decreases fuel
  {
    if current.node == start then Found(Reverse(path))
    else if fuel == 0 then OutOfFuel
    else if current.connection.None? then MissingPredecessor
    else
      var c := current.connection.value;
      if c.fromNode !in NodesIn(closed) then MissingPredecessor
      else Reconstruct(closed, start, closed[IndexOfNode(closed, c.fromNode)], path + [c], fuel - 1)
  }

  /** `pathfind_tactical_astar(graph, start, goal, heuristic, player)`, each loop bounded by `fuel`. */
  function TacticalSearch(adj: Adjacency, start: Node, goal: Node, h: Heuristic, player: Option<Node>,
                          fuel: nat): Outcome
  {
    var first := StartRecord(h, start);
    ExpandStepCloses(adj, h, player);
    var halt := Loop(ExpandStep(adj, h, player), goal, Lists([], [first]), first, fuel);
    if halt.outOfFuel then OutOfFuel
    else if halt.current.node != goal then NoPath
    else Reconstruct(halt.lists.closed, start, halt.current, [], fuel)
  }

  // ---------------------------------------------------------------------
  // Invariants of the search state.

  /** The start record has no connection; every other record's connection is a graph edge into its node. */
  ghost predicate Linked(adj: Adjacency, start: Node, r: TacticalRecord) {
    match r.connection
    case None => r.node == start
    case Some(c) => c.toNode == r.node && c in Outgoing(adj, c.fromNode)
  }

  ghost predicate AllLinked(adj: Adjacency, start: Node, rs: seq<TacticalRecord>) {
    forall i :: 0 <= i < |rs| ==> Linked(adj, start, rs[i])
  }

  /**
   * What a record's estimate adds to its cost: the heuristic estimate, plus
   * the player penalty for every node but the start.
   */
  function HeuristicPart(h: Heuristic, player: Option<Node>, start: Node, n: Node): real {
    h.Estimate(Some(n)) as real + (if n == start then 0.0 else PlayerPenalty(n, player))
  }

  ghost predicate Estimated(h: Heuristic, player: Option<Node>, start: Node, rs: seq<TacticalRecord>) {
    forall i :: 0 <= i < |rs| ==> rs[i].estimatedTotalCost == rs[i].costSoFar + HeuristicPart(h, player, start, rs[i].node)
  }

  /** No open record is about a closed node. */
  ghost predicate Disjoint(L: Lists) {
    forall n :: n in NodesIn(L.open) ==> n !in NodesIn(L.closed)
  }

  /** At most one record per node over both lists; each linked, each estimate its cost plus heuristic part. */
  ghost predicate Sound(adj: Adjacency, h: Heuristic, player: Option<Node>, start: Node, L: Lists) {
    NoDuplicates(NodesIn(L.closed)) && NoDuplicates(NodesIn(L.open)) && Disjoint(L)
    && AllLinked(adj, start, L.closed) && AllLinked(adj, start, L.open)
    && Estimated(h, player, start, L.closed) && Estimated(h, player, start, L.open)
  }

  /** Every connection in `es` ends at a listed node. */
  ghost predicate Covers(L: Lists, es: seq<Connection>) {
    forall i :: 0 <= i < |es| ==> Listed(L, es[i].toNode)
  }

  /** Every connection out of a closed node ends at a listed node. */
  ghost predicate ClosedCovered(adj: Adjacency, L: Lists) {
    forall n {:trigger n in NodesIn(L.closed)} :: n in NodesIn(L.closed) ==> Covers(L, Outgoing(adj, n))
  }

  ghost predicate SearchInv(adj: Adjacency, h: Heuristic, player: Option<Node>, start: Node, goal: Node, L: Lists) {
    Sound(adj, h, player, start, L) && ClosedCovered(adj, L) && Listed(L, start) && goal !in NodesIn(L.closed)
  }

  /** From `L` to `r` the open list only gains records at its end, the closed list only loses, no node is forgotten. */
  ghost predicate Grows(L: Lists, r: Lists) {
    |L.open| <= |r.open| && NodesIn(r.open)[..|L.open|] == NodesIn(L.open)
    && (forall n :: n in NodesIn(r.closed) ==> n in NodesIn(L.closed))
    && (forall n :: Listed(L, n) ==> Listed(r, n))
  }

  lemma GrowsTrans(a: Lists, b: Lists, c: Lists)
    requires Grows(a, b) && Grows(b, c)
    ensures Grows(a, c)
  {
    assert NodesIn(c.open)[..|a.open|] == NodesIn(c.open)[..|b.open|][..|a.open|];
  }

  lemma CoversKept(L: Lists, r: Lists, es: seq<Connection>)
    requires Covers(L, es) && Grows(L, r)
    ensures Covers(r, es)
  {
  }

  lemma ClosedCoveredKept(adj: Adjacency, L: Lists, r: Lists)
    requires ClosedCovered(adj, L) && Grows(L, r)
    ensures ClosedCovered(adj, r)
  {
    forall n | n in NodesIn(r.closed)
      ensures Covers(r, Outgoing(adj, n))
    {
      CoversKept(L, r, Outgoing(adj, n));
    }
  }

  // ---------------------------------------------------------------------
  // One relaxation.

  /**
   * A relaxation keeps the state sound, only grows it, and leaves the
   * connection's end listed.
   */
  lemma RelaxSound(adj: Adjacency, h: Heuristic, player: Option<Node>, start: Node, L: Lists, ci: nat, c: Connection)
    requires Sound(adj, h, player, start, L) && Listed(L, start) && ci < |L.open|
    requires c in Outgoing(adj, c.fromNode)
    ensures var r := Relax(h, player, L, ci, c);
      Sound(adj, h, player, start, r) && Grows(L, r) && Listed(r, c.toNode)
  {
    if c.toNode in NodesIn(L.closed) {
      ReopenSound(adj, h, player, start, L, ci, c);
    } else if c.toNode in NodesIn(L.open) {
      UpdateSound(adj, h, player, start, L, ci, c);
    } else {
      AddSound(adj, h, player, start, L, ci, c);
    }
  }

  lemma ReopenSound(adj: Adjacency, h: Heuristic, player: Option<Node>, start: Node, L: Lists, ci: nat, c: Connection)
    requires Sound(adj, h, player, start, L) && ci < |L.open|
    requires c in Outgoing(adj, c.fromNode) && c.toNode in NodesIn(L.closed)
    ensures var r := Relax(h, player, L, ci, c);
      Sound(adj, h, player, start, r) && Grows(L, r) && Listed(r, c.toNode)
  {
    var endNode := c.toNode;
    var cost := L.open[ci].costSoFar + c.cost + PlayerPenalty(endNode, player);
    var k := IndexOfNode(L.closed, endNode);
    var record := L.closed[k];
    if record.costSoFar > cost {
      var updated := TacticalRecord(endNode, Some(c), cost, cost + (record.estimatedTotalCost - record.costSoFar));
      assert endNode !in NodesIn(L.open);
      assert Relax(h, player, L, ci, c) == Lists(RemoveAt(L.closed, k), L.open + [updated]);
      ReopenedSound(adj, h, player, start, L, k, updated);
    }
  }

  /** Moving the closed record at `k` back to the end of the open list, re-linked and re-costed, keeps the state sound. */
  lemma ReopenedSound(adj: Adjacency, h: Heuristic, player: Option<Node>, start: Node, L: Lists, k: nat,
                      updated: TacticalRecord)
    requires Sound(adj, h, player, start, L) && k < |L.closed|
    requires updated.node == L.closed[k].node && updated.connection.Some?
    requires Linked(adj, start, updated)
    requires updated.estimatedTotalCost - updated.costSoFar == L.closed[k].estimatedTotalCost - L.closed[k].costSoFar
    ensures var r := Lists(RemoveAt(L.closed, k), L.open + [updated]);
      Sound(adj, h, player, start, r) && Grows(L, r) && Listed(r, updated.node)
  {
    var endNode := updated.node;
    var r := Lists(RemoveAt(L.closed, k), L.open + [updated]);
    assert endNode !in NodesIn(L.open);
    NodesInRemoveAt(L.closed, k);
    NoDuplicatesRemoveAt(NodesIn(L.closed), k);
    NodesInAppend(L.open, updated);
    NoDuplicatesAppend(NodesIn(L.open), endNode);
    assert NodesIn(r.open)[..|L.open|] == NodesIn(L.open);
    assert updated.estimatedTotalCost == updated.costSoFar + HeuristicPart(h, player, start, endNode);
    assert Sound(adj, h, player, start, r) by {
      assert Disjoint(r);
      assert AllLinked(adj, start, r.closed);
      assert AllLinked(adj, start, r.open);
      assert Estimated(h, player, start, r.closed);
      assert Estimated(h, player, start, r.open);
    }
    assert Listed(r, endNode);
  }

  lemma UpdateSound(adj: Adjacency, h: Heuristic, player: Option<Node>, start: Node, L: Lists, ci: nat, c: Connection)
    requires Sound(adj, h, player, start, L) && ci < |L.open|
    requires c in Outgoing(adj, c.fromNode) && c.toNode !in NodesIn(L.closed) && c.toNode in NodesIn(L.open)
    ensures var r := Relax(h, player, L, ci, c);
      Sound(adj, h, player, start, r) && Grows(L, r) && Listed(r, c.toNode)
  {
    var endNode := c.toNode;
    var cost := L.open[ci].costSoFar + c.cost + PlayerPenalty(endNode, player);
    var j := IndexOfNode(L.open, endNode);
    var record := L.open[j];
    if record.costSoFar > cost {
      var updated := TacticalRecord(endNode, Some(c), cost, cost + (record.estimatedTotalCost - record.costSoFar));
      assert Relax(h, player, L, ci, c) == Lists(L.closed, L.open[j := updated]);
      UpdatedSound(adj, h, player, start, L, j, updated);
    }
  }

  /** Replacing the open record at `j` by one about the same node, re-linked and re-costed, keeps the state sound. */
  lemma UpdatedSound(adj: Adjacency, h: Heuristic, player: Option<Node>, start: Node, L: Lists, j: nat,
                     updated: TacticalRecord)
    requires Sound(adj, h, player, start, L) && j < |L.open|
    requires updated.node == L.open[j].node && Linked(adj, start, updated)
    requires updated.estimatedTotalCost - updated.costSoFar == L.open[j].estimatedTotalCost - L.open[j].costSoFar
    ensures var r := Lists(L.closed, L.open[j := updated]);
      Sound(adj, h, player, start, r) && Grows(L, r) && Listed(r, updated.node)
  {
    var r := Lists(L.closed, L.open[j := updated]);
    NodesInUpdate(L.open, j, updated);
    assert NodesIn(r.open)[..|L.open|] == NodesIn(L.open);
    assert Sound(adj, h, player, start, r) by {
      assert AllLinked(adj, start, r.open);
      assert Estimated(h, player, start, r.open);
    }
  }

  lemma AddSound(adj: Adjacency, h: Heuristic, player: Option<Node>, start: Node, L: Lists, ci: nat, c: Connection)
    requires Sound(adj, h, player, start, L) && Listed(L, start) && ci < |L.open|
    requires c in Outgoing(adj, c.fromNode) && c.toNode !in NodesIn(L.closed) && c.toNode !in NodesIn(L.open)
    ensures var r := Relax(h, player, L, ci, c);
      Sound(adj, h, player, start, r) && Grows(L, r) && Listed(r, c.toNode)
  {
    var endNode := c.toNode;
    var cost := L.open[ci].costSoFar + c.cost + PlayerPenalty(endNode, player);
    var part := h.Estimate(Some(endNode)) as real + PlayerPenalty(endNode, player);
    var added := TacticalRecord(endNode, Some(c), cost, cost + part);
    var r := Lists(L.closed, L.open + [added]);
    assert Relax(h, player, L, ci, c) == r;
    assert endNode != start;
    NodesInAppend(L.open, added);
    NoDuplicatesAppend(NodesIn(L.open), endNode);
    assert NodesIn(r.open)[..|L.open|] == NodesIn(L.open);
    assert Sound(adj, h, player, start, r) by {
      assert Disjoint(r);
      assert AllLinked(adj, start, r.open);
      assert Estimated(h, player, start, r.open);
    }
  }

  /** Every connection of `es` is a graph edge. */
  ghost predicate Filed(adj: Adjacency, es: seq<Connection>) {
    forall i :: 0 <= i < |es| ==> es[i] in Outgoing(adj, es[i].fromNode)
  }

  /** The whole inner loop keeps the state sound, only grows it, and lists the end of every connection it relaxed. */
  lemma {:induction false} RelaxAllSound(adj: Adjacency, h: Heuristic, player: Option<Node>, start: Node, L: Lists,
                                         ci: nat, cs: seq<Connection>)
    requires Sound(adj, h, player, start, L) && Listed(L, start) && ci < |L.open|
    requires Filed(adj, cs)
    ensures var r := RelaxAll(h, player, L, ci, cs);
      Sound(adj, h, player, start, r) && Grows(L, r) && Covers(r, cs)
    decreases |cs|
  {
    if cs != [] {
      var init := cs[..|cs| - 1];
      var c := cs[|cs| - 1];
      assert cs == init + [c];
      FiledPrefix(adj, cs, |cs| - 1);
      RelaxAllSound(adj, h, player, start, L, ci, init);
      var m := RelaxAll(h, player, L, ci, init);
      var r := Relax(h, player, m, ci, c);
      RelaxSound(adj, h, player, start, m, ci, c);
      GrowsTrans(L, m, r);
      CoversKept(m, r, init);
      CoversAppend(r, init, c);
    }
  }

  lemma CoversAppend(L: Lists, es: seq<Connection>, c: Connection)
    requires Covers(L, es) && Listed(L, c.toNode)
    ensures Covers(L, es + [c])
  {
    var t := es + [c];
    assert forall i :: 0 <= i < |es| ==> t[i] == es[i];
  }

  lemma FiledPrefix(adj: Adjacency, es: seq<Connection>, k: nat)
    requires Filed(adj, es) && k <= |es|
    ensures Filed(adj, es[..k])
  {
    var t := es[..k];
    assert forall i :: 0 <= i < k ==> t[i] == es[i];
  }

  lemma FirstIndexOfRecord(rs: seq<TacticalRecord>, k: nat)
    requires NoDuplicates(NodesIn(rs)) && k < |rs|
    ensures FirstIndex(rs, rs[k]) == k
  {
    var i := FirstIndex(rs, rs[k]);
    assert NodesIn(rs)[i] == NodesIn(rs)[k];
  }

  /** An expansion of a non-goal open record keeps the search invariant and closes that record. */
  lemma ExpandInv(adj: Adjacency, h: Heuristic, player: Option<Node>, start: Node, goal: Node, L: Lists, ci: nat)
    requires FiledByOrigin(adj) && SearchInv(adj, h, player, start, goal, L)
    requires ci < |L.open| && L.open[ci].node != goal
    ensures SearchInv(adj, h, player, start, goal, Expand(adj, h, player, L, ci))
  {
    var node := L.open[ci].node;
    var cs := Outgoing(adj, node);
    assert Filed(adj, cs) by {
      assert forall i :: 0 <= i < |cs| ==> cs[i].fromNode == node;
    }
    RelaxAllSound(adj, h, player, start, L, ci, cs);
    var relaxed := RelaxAll(h, player, L, ci, cs);
    ClosedCoveredKept(adj, L, relaxed);
    assert NodesIn(relaxed.open)[ci] == NodesIn(L.open)[ci];
    FirstIndexOfRecord(relaxed.open, ci);
    assert Expand(adj, h, player, L, ci) == Lists(relaxed.closed + [relaxed.open[ci]], RemoveAt(relaxed.open, ci));
    CloseSound(adj, h, player, start, goal, relaxed, ci);
  }

  /**
   * Moving the open record at `ci`, whose connections all end at listed
   * nodes, to the end of the closed list keeps the search invariant.
   */
  lemma CloseSound(adj: Adjacency, h: Heuristic, player: Option<Node>, start: Node, goal: Node, L: Lists, ci: nat)
    requires Sound(adj, h, player, start, L) && ClosedCovered(adj, L) && Listed(L, start)
    requires goal !in NodesIn(L.closed) && ci < |L.open| && L.open[ci].node != goal
    requires Covers(L, Outgoing(adj, L.open[ci].node))
    ensures SearchInv(adj, h, player, start, goal, Lists(L.closed + [L.open[ci]], RemoveAt(L.open, ci)))
  {
    var current := L.open[ci];
    var node := current.node;
    var r := Lists(L.closed + [current], RemoveAt(L.open, ci));
    NodesInAppend(L.closed, current);
    NoDuplicatesAppend(NodesIn(L.closed), node);
    NodesInRemoveAt(L.open, ci);
    NoDuplicatesRemoveAt(NodesIn(L.open), ci);
    assert forall n :: Listed(r, n) <==> Listed(L, n);
    assert Sound(adj, h, player, start, r) by {
      assert Disjoint(r);
      assert AllLinked(adj, start, r.closed);
      assert AllLinked(adj, start, r.open);
      assert Estimated(h, player, start, r.closed);
      assert Estimated(h, player, start, r.open);
    }
    forall n | n in NodesIn(r.closed)
      ensures Covers(r, Outgoing(adj, n))
    {
      if n != node {
        assert n in NodesIn(L.closed);
      }
    }
  }

  /** What holds where the main loop stops: the invariant, a linked current record, and an empty open list unless it broke early. */
  ghost predicate HaltInv(adj: Adjacency, h: Heuristic, player: Option<Node>, start: Node, goal: Node, halt: Halt) {
    SearchInv(adj, h, player, start, goal, halt.lists) && Linked(adj, start, halt.current)
    && (!halt.outOfFuel && halt.current.node != goal ==> halt.lists.open == [])
  }

  /** `expand` keeps the search invariant and closes a linked record, from any non-goal open record. */
  ghost predicate Preserves(adj: Adjacency, h: Heuristic, player: Option<Node>, start: Node, goal: Node,
                            expand: (Lists, nat) --> Lists) {
    Closes(expand)
    && forall M: Lists, ci: nat {:trigger expand(M, ci)} ::
         ci < |M.open| && M.open[ci].node != goal && SearchInv(adj, h, player, start, goal, M) ==>
           var r := expand(M, ci);
           r.closed != [] && SearchInv(adj, h, player, start, goal, r) && Linked(adj, start, r.closed[|r.closed| - 1])
  }

  lemma ExpandStepPreserves(adj: Adjacency, h: Heuristic, player: Option<Node>, start: Node, goal: Node)
    requires FiledByOrigin(adj)
    ensures Preserves(adj, h, player, start, goal, ExpandStep(adj, h, player))
  {
    ExpandStepCloses(adj, h, player);
    forall M: Lists, ci: nat | ci < |M.open| && M.open[ci].node != goal && SearchInv(adj, h, player, start, goal, M)
      ensures var r := ExpandStep(adj, h, player)(M, ci);
        SearchInv(adj, h, player, start, goal, r) && Linked(adj, start, r.closed[|r.closed| - 1])
    {
      ExpandInv(adj, h, player, start, goal, M, ci);
      var r := Expand(adj, h, player, M, ci);
      assert AllLinked(adj, start, r.closed);
    }
  }

  /** Past the goal test and with fuel left, the loop expands the first cheapest record and goes on. */
  lemma LoopUnfolds(expand: (Lists, nat) --> Lists, goal: Node, L: Lists, current: TacticalRecord, fuel: nat)
    requires Closes(expand) && L.open != [] && L.open[FirstMinIndex(L.open)].node != goal && fuel > 0
    ensures var next := expand(L, FirstMinIndex(L.open));
      Loop(expand, goal, L, current, fuel) == Loop(expand, goal, next, next.closed[|next.closed| - 1], fuel - 1)
  {
  }

  /** The main loop keeps the search invariant all the way to where it stops. */
  lemma {:induction false} LoopInv(adj: Adjacency, h: Heuristic, player: Option<Node>, start: Node, goal: Node,
                                   expand: (Lists, nat) --> Lists, L: Lists, current: TacticalRecord, fuel: nat)
    requires Preserves(adj, h, player, start, goal, expand)
    requires SearchInv(adj, h, player, start, goal, L) && Linked(adj, start, current)
    ensures HaltInv(adj, h, player, start, goal, Loop(expand, goal, L, current, fuel))
    decreases fuel
  {
    if L.open != [] && L.open[FirstMinIndex(L.open)].node != goal && fuel != 0 {
      var ci := FirstMinIndex(L.open);
      var next := expand(L, ci);
      LoopInv(adj, h, player, start, goal, expand, next, next.closed[|next.closed| - 1], fuel - 1);
    } else if L.open != [] {
      assert Linked(adj, start, L.open[FirstMinIndex(L.open)]);
    }
  }

  /** Reconstruction over linked records only ever returns a chain of graph edges from the start. */
  lemma {:induction false} ReconstructIsPath(adj: Adjacency, start: Node, goal: Node, closed: seq<TacticalRecord>,
                                             current: TacticalRecord, path: seq<Connection>, fuel: nat)
    requires AllLinked(adj, start, closed) && Linked(adj, start, current)
    requires IsPath(adj, Reverse(path), current.node, goal)
    ensures var o := Reconstruct(closed, start, current, path, fuel);
      o.Found? ==> IsPath(adj, o.path, start, goal)
    decreases fuel
  {
    var o := Reconstruct(closed, start, current, path, fuel);
    if current.node == start {
      assert o == Found(Reverse(path));
    } else if fuel == 0 || current.connection.None? {
      assert !o.Found?;
    } else {
      var c := current.connection.value;
      if c.fromNode !in NodesIn(closed) {
        assert o == MissingPredecessor;
      } else {
        var next := closed[IndexOfNode(closed, c.fromNode)];
        assert o == Reconstruct(closed, start, next, path + [c], fuel - 1);
        assert Linked(adj, start, next) && next.node == c.fromNode;
        ReverseAppend(path, c);
        IsPathPrepend(adj, c, Reverse(path), goal);
        ReconstructIsPath(adj, start, goal, closed, next, path + [c], fuel - 1);
      }
    }
  }

  lemma InitialInv(adj: Adjacency, h: Heuristic, player: Option<Node>, start: Node, goal: Node)
    ensures SearchInv(adj, h, player, start, goal, Lists([], [StartRecord(h, start)]))
    ensures Linked(adj, start, StartRecord(h, start))
  {
    assert NodesIn([StartRecord(h, start)]) == [start];
  }

  // ---------------------------------------------------------------------
  // What the search promises.

  /** A returned path is a chain of graph edges from the start to the goal. */
  lemma TacticalSearchFound(adj: Adjacency, start: Node, goal: Node, h: Heuristic, player: Option<Node>, fuel: nat)
    requires FiledByOrigin(adj)
    ensures var o := TacticalSearch(adj, start, goal, h, player, fuel);
      o.Found? ==> IsPath(adj, o.path, start, goal)
  {
    var first := StartRecord(h, start);
    InitialInv(adj, h, player, start, goal);
    ExpandStepPreserves(adj, h, player, start, goal);
    LoopInv(adj, h, player, start, goal, ExpandStep(adj, h, player), Lists([], [first]), first, fuel);
    var halt := Loop(ExpandStep(adj, h, player), goal, Lists([], [first]), first, fuel);
    if !halt.outOfFuel && halt.current.node == goal {
      ReconstructIsPath(adj, start, goal, halt.lists.closed, halt.current, [], fuel);
    }
  }

  /** The search gives up (None) only when no path from the start reaches the goal. */
  lemma TacticalSearchNoPath(adj: Adjacency, start: Node, goal: Node, h: Heuristic, player: Option<Node>, fuel: nat)
    requires FiledByOrigin(adj)
    ensures TacticalSearch(adj, start, goal, h, player, fuel) == NoPath ==> forall p :: !IsPath(adj, p, start, goal)
  {
    var first := StartRecord(h, start);
    InitialInv(adj, h, player, start, goal);
    ExpandStepPreserves(adj, h, player, start, goal);
    LoopInv(adj, h, player, start, goal, ExpandStep(adj, h, player), Lists([], [first]), first, fuel);
    var halt := Loop(ExpandStep(adj, h, player), goal, Lists([], [first]), first, fuel);
    if !halt.outOfFuel && halt.current.node != goal {
      ExhaustedNoPath(adj, h, player, start, goal, halt.lists);
    }
  }

  /** Once the open list is empty, the closed nodes hold the start, are closed under the edges and miss the goal. */
  lemma ExhaustedNoPath(adj: Adjacency, h: Heuristic, player: Option<Node>, start: Node, goal: Node, L: Lists)
    requires SearchInv(adj, h, player, start, goal, L) && L.open == []
    ensures forall p :: !IsPath(adj, p, start, goal)
  {
    var nodes := set n | n in NodesIn(L.closed);
    assert ClosedUnderEdges(adj, nodes) by {
      forall n, i | n in nodes && 0 <= i < |Outgoing(adj, n)|
        ensures Outgoing(adj, n)[i].toNode in nodes
      {
        assert Covers(L, Outgoing(adj, n));
      }
    }
    forall p | IsPath(adj, p, start, goal)
      ensures false
    {
      PathStaysInside(adj, nodes, p, start, goal);
    }
  }

  /** Searching from the goal itself returns the empty path, whatever the fuel. */
  lemma TacticalSearchAtGoal(adj: Adjacency, start: Node, h: Heuristic, player: Option<Node>, fuel: nat)
    ensures TacticalSearch(adj, start, start, h, player, fuel) == Found([])
  {
    var first := StartRecord(h, start);
    assert FirstMinIndex([first]) == 0;
    assert Reverse<Connection>([]) == [];
  }

  // ---------------------------------------------------------------------
  // The search as the Python code runs it.

  /** The record `find` returns is the first equal one, so `remove` drops that very record. */
  lemma FirstIndexOfFound(rs: seq<TacticalRecord>, n: Node)
    requires n in NodesIn(rs)
    ensures FirstIndex(rs, rs[IndexOfNode(rs, n)]) == IndexOfNode(rs, n)
  {
  }

  /** The record `min` returns is the first equal one. */
  lemma FirstIndexOfSmallest(rs: seq<TacticalRecord>)
    requires rs != []
    ensures FirstIndex(rs, rs[FirstMinIndex(rs)]) == FirstMinIndex(rs)
  {
  }

  /**
   * The body of the inner loop for one connection out of the current record,
   * held in `openList` at index `ci`: the two lists become `Relax` of them.
   */
  method RelaxConnection(closedList: TacticalPathfindingList, openList: TacticalPathfindingList, h: Heuristic,
                         player: Option<Node>, ci: nat, connection: Connection)
    requires closedList != openList && ci < |openList.records|
    modifies closedList, openList
    ensures Lists(closedList.records, openList.records)
            == Relax(h, player, old(Lists(closedList.records, openList.records)), ci, connection)
  {
    ghost var L := Lists(closedList.records, openList.records);
    ghost var R := Relax(h, player, L, ci, connection);
    var endNode := connection.GetToNode();
    var endNodeCost := openList.records[ci].costSoFar + connection.GetCost() + PlayerPenalty(endNode, player);
    var endNodeRecord: TacticalRecord;
    var endNodeHeuristic: real;
    var isClosed := closedList.Contains(endNode);
    var isOpen := false;
    if isClosed {
      var found := closedList.Find(endNode);
      endNodeRecord := found.value;
      if endNodeRecord.costSoFar <= endNodeCost {
        return;
      }
      FirstIndexOfFound(closedList.records, endNode);
      var removed := closedList.Remove(endNodeRecord);
      endNodeHeuristic := endNodeRecord.estimatedTotalCost - endNodeRecord.costSoFar;
      ghost var updated := TacticalRecord(endNode, Some(connection), endNodeCost, endNodeCost + endNodeHeuristic);
      assert R == if endNode in NodesIn(L.open) then Lists(closedList.records, L.open)
                  else Lists(closedList.records, L.open + [updated]);
    } else {
      isOpen := openList.Contains(endNode);
      if isOpen {
        var found := openList.Find(endNode);
        endNodeRecord := found.value;
        if endNodeRecord.costSoFar <= endNodeCost {
          return;
        }
        endNodeHeuristic := endNodeRecord.estimatedTotalCost - endNodeRecord.costSoFar;
        ghost var updated := TacticalRecord(endNode, Some(connection), endNodeCost, endNodeCost + endNodeHeuristic);
        assert R == Lists(L.closed, L.open[IndexOfNode(L.open, endNode) := updated]);
      } else {
        // A fresh record; its infinite default costs are overwritten just below.
        endNodeRecord := TacticalRecord(endNode, None, endNodeCost, endNodeCost);
        endNodeHeuristic := h.Estimate(Some(endNode)) as real + PlayerPenalty(endNode, player);
        ghost var updated := TacticalRecord(endNode, Some(connection), endNodeCost, endNodeCost + endNodeHeuristic);
        assert R == Lists(L.closed, L.open + [updated]);
      }
    }
    endNodeRecord := endNodeRecord.(costSoFar := endNodeCost, connection := Some(connection),
                                    estimatedTotalCost := endNodeCost + endNodeHeuristic);
    assert endNodeRecord == TacticalRecord(endNode, Some(connection), endNodeCost, endNodeCost + endNodeHeuristic);
    if isOpen {
      // The found record is the one the open list holds, so updating it updates the list.
      NodesInUpdate(openList.records, IndexOfNode(openList.records, endNode), endNodeRecord);
      openList.Set(IndexOfNode(openList.records, endNode), endNodeRecord);
    }
    var stillOpen := openList.Contains(endNode);
    assert stillOpen <==> endNode in NodesIn(L.open);
    if !stillOpen {
      openList.Add(endNodeRecord);
    }
  }

  /** The inner loop: every connection out of the current record, open at index `ci`, is relaxed in turn. */
  method RelaxConnections(graph: Graph, closedList: TacticalPathfindingList, openList: TacticalPathfindingList,
                          h: Heuristic, player: Option<Node>, ci: nat)
    requires graph.Valid() && closedList != openList && ci < |openList.records|
    modifies closedList, openList
    ensures Lists(closedList.records, openList.records)
            == RelaxAll(h, player, old(Lists(closedList.records, openList.records)), ci,
                        Outgoing(graph.connections, old(openList.records[ci].node)))
  {
    ghost var L := Lists(closedList.records, openList.records);
    ghost var node := openList.records[ci].node;
    var connections := graph.GetConnections(openList.records[ci].node);
    assert connections == Outgoing(graph.connections, node);
    for k := 0 to |connections|
      invariant ci < |openList.records|
      invariant Lists(closedList.records, openList.records) == RelaxAll(h, player, L, ci, connections[..k])
    {
      assert connections[..k + 1][..k] == connections[..k];
      RelaxConnection(closedList, openList, h, player, ci, connections[k]);
    }
    assert connections[..|connections|] == connections;
  }

  /**
   * The main loop's body after the goal test, for the current record open at
   * index `ci`: relax its connections, then move it, as it now is, from the
   * open list to the closed list. It returns that record.
   */
  method ExpandCurrent(graph: Graph, closedList: TacticalPathfindingList, openList: TacticalPathfindingList,
                       h: Heuristic, player: Option<Node>, ci: nat) returns (current: TacticalRecord)
    requires graph.Valid() && closedList != openList && ci < |openList.records|
    modifies closedList, openList
    ensures Lists(closedList.records, openList.records)
            == Expand(graph.connections, h, player, old(Lists(closedList.records, openList.records)), ci)
    ensures current == closedList.records[|closedList.records| - 1]
  {
    RelaxConnections(graph, closedList, openList, h, player, ci);
    // Relaxation may have updated the current record in place: read it back.
    current := openList.records[ci];
    var removed := openList.Remove(current);
    closedList.Add(current);
  }

  /** The loop's stopping cases, read off its definition. */
  lemma LoopStops(expand: (Lists, nat) --> Lists, goal: Node, L: Lists, current: TacticalRecord, fuel: nat)
    requires Closes(expand)
    ensures L.open == [] ==> Loop(expand, goal, L, current, fuel) == Halt(current, L, false)
    ensures L.open != [] && L.open[FirstMinIndex(L.open)].node == goal ==>
      Loop(expand, goal, L, current, fuel) == Halt(L.open[FirstMinIndex(L.open)], L, false)
    ensures L.open != [] && L.open[FirstMinIndex(L.open)].node != goal && fuel == 0 ==>
      Loop(expand, goal, L, current, fuel) == Halt(L.open[FirstMinIndex(L.open)], L, true)
  {
  }

  /** `expand` is the loop body on `graph`, `heuristic` and `player`. */
  ghost predicate Agrees(adj: Adjacency, h: Heuristic, player: Option<Node>, expand: (Lists, nat) --> Lists) {
    forall M: Lists, ci: nat {:trigger Expand(adj, h, player, M, ci)} ::
      ci < |M.open| ==> expand.requires(M, ci) && expand(M, ci) == Expand(adj, h, player, M, ci)
  }

  lemma ExpandStepAgrees(adj: Adjacency, h: Heuristic, player: Option<Node>)
    ensures Agrees(adj, h, player, ExpandStep(adj, h, player))
  {
  }

  /**
   * The main loop, at most `fuel` expansions long, from the lists as they
   * are and `current`: it stops where `Loop` does, with the same record and
   * lists.
   */
  method ProcessNodes(graph: Graph, closedList: TacticalPathfindingList, openList: TacticalPathfindingList,
                      goal: Node, h: Heuristic, player: Option<Node>, ghost expand: (Lists, nat) --> Lists,
                      current0: TacticalRecord, fuel: nat)
    returns (current: TacticalRecord, outOfFuel: bool)
    requires graph.Valid() && closedList != openList
    requires Closes(expand) && Agrees(graph.connections, h, player, expand)
    modifies closedList, openList
    ensures Halt(current, Lists(closedList.records, openList.records), outOfFuel)
            == Loop(expand, goal, old(Lists(closedList.records, openList.records)), current0, fuel)
  {
    ghost var target := Loop(expand, goal, Lists(closedList.records, openList.records), current0, fuel);
    current, outOfFuel := current0, false;
    var remaining := fuel;
    while openList.Length() > 0
      invariant Loop(expand, goal, Lists(closedList.records, openList.records), current, remaining) == target
      invariant !outOfFuel
      decreases remaining
    {
      var smallest := openList.SmallestElement();
      var ci := FirstIndex(openList.records, smallest.value);
      FirstIndexOfSmallest(openList.records);
      ghost var L := Lists(closedList.records, openList.records);
      LoopStops(expand, goal, L, current, remaining);
      if smallest.value.node != goal && remaining > 0 {
        LoopUnfolds(expand, goal, L, current, remaining);
      }
      current := smallest.value;
      if current.node == goal {
        return;
      }
      if remaining == 0 {
        outOfFuel := true;
        return;
      }
      current := ExpandCurrent(graph, closedList, openList, h, player, ci);
      remaining := remaining - 1;
    }
    LoopStops(expand, goal, Lists(closedList.records, openList.records), current, remaining);
  }

  /**
   * Working back from `goalRecord` along the connections, each predecessor
   * looked up in the closed list, until the start: `Reconstruct` of them.
   */
  method CompilePath(closedList: TacticalPathfindingList, start: Node, goalRecord: TacticalRecord, fuel: nat)
    returns (outcome: Outcome)
    ensures outcome == Reconstruct(closedList.records, start, goalRecord, [], fuel)
  {
    var path: seq<Connection> := [];
    var current := goalRecord;
    var remaining := fuel;
    while current.node != start
      invariant Reconstruct(closedList.records, start, current, path, remaining)
                == Reconstruct(closedList.records, start, goalRecord, [], fuel)
      decreases remaining
    {
      if remaining == 0 {
        return OutOfFuel;
      }
      if current.connection.None? {
        return MissingPredecessor;
      }
      path := path + [current.connection.value];
      var found := closedList.Find(current.connection.value.fromNode);
      if found.None? {
        return MissingPredecessor;
      }
      current := found.value;
      remaining := remaining - 1;
    }
    return Found(Reverse(path));
  }

  /** After the main loop: None unless it stopped on the goal's record, else the compiled path. */
  method Conclude(closedList: TacticalPathfindingList, start: Node, goal: Node, current: TacticalRecord,
                  outOfFuel: bool, fuel: nat) returns (outcome: Outcome)
    ensures outcome == if outOfFuel then OutOfFuel
                       else if current.node != goal then NoPath
                       else Reconstruct(closedList.records, start, current, [], fuel)
  {
    if outOfFuel {
      outcome := OutOfFuel;
    } else if current.node != goal {
      outcome := NoPath;
    } else {
      outcome := CompilePath(closedList, start, current, fuel);
    }
  }

  /** What the search returns once the main loop has stopped at `halt`. */
  lemma TacticalSearchFrom(adj: Adjacency, start: Node, goal: Node, h: Heuristic, player: Option<Node>, fuel: nat,
                           halt: Halt, outcome: Outcome)
    requires halt == Loop(ExpandStep(adj, h, player), goal, Lists([], [StartRecord(h, start)]), StartRecord(h, start), fuel)
    requires outcome == if halt.outOfFuel then OutOfFuel
                        else if halt.current.node != goal then NoPath
                        else Reconstruct(halt.lists.closed, start, halt.current, [], fuel)
    ensures outcome == TacticalSearch(adj, start, goal, h, player, fuel)
  {
  }

  /**
   * `pathfind_tactical_astar(graph, start, goal, heuristic, player)`, its
   * loops bounded by `fuel`: `TacticalSearch` of the graph. A path it
   * returns is a chain of graph edges from the start to the goal, it gives
   * up only when no path exists, and it returns the empty path from the goal.
   */
  method PathfindTacticalAStar(graph: Graph, start: Node, goal: Node, h: Heuristic, player: Option<Node>, fuel: nat)
    returns (outcome: Outcome)
    requires graph.Valid()
    ensures outcome == TacticalSearch(graph.connections, start, goal, h, player, fuel)
    ensures outcome.Found? ==> IsPath(graph.connections, outcome.path, start, goal)
    ensures outcome == NoPath ==> forall p :: !IsPath(graph.connections, p, start, goal)
    ensures start == goal ==> outcome == Found([])
  {
    var startRecord := TacticalRecord(start, None, 0.0, h.Estimate(Some(start)) as real);
    assert startRecord == StartRecord(h, start);
    var openList := new TacticalPathfindingList();
    openList.Add(startRecord);
    var closedList := new TacticalPathfindingList();
    ghost var initial := Lists(closedList.records, openList.records);
    assert initial == Lists([], [startRecord]);
    ghost var expand := ExpandStep(graph.connections, h, player);
    ExpandStepCloses(graph.connections, h, player);
    ExpandStepAgrees(graph.connections, h, player);
    var current, outOfFuel := ProcessNodes(graph, closedList, openList, goal, h, player,
                                           expand, startRecord, fuel);
    ghost var halt := Halt(current, Lists(closedList.records, openList.records), outOfFuel);
    assert halt == Loop(expand, goal, initial, startRecord, fuel);
    outcome := Conclude(closedList, start, goal, current, outOfFuel, fuel);
    TacticalSearchFrom(graph.connections, start, goal, h, player, fuel, halt, outcome);
    TacticalSearchCorrect(graph.connections, start, goal, h, player, fuel);
  }

  /** The three promises of the search together. */
  lemma TacticalSearchCorrect(adj: Adjacency, start: Node, goal: Node, h: Heuristic, player: Option<Node>, fuel: nat)
    requires FiledByOrigin(adj)
    ensures var o := TacticalSearch(adj, start, goal, h, player, fuel);
      (o.Found? ==> IsPath(adj, o.path, start, goal))
      && (o == NoPath ==> forall p :: !IsPath(adj, p, start, goal))
      && (start == goal ==> o == Found([]))
  {
    TacticalSearchFound(adj, start, goal, h, player, fuel);
    TacticalSearchNoPath(adj, start, goal, h, player, fuel);
    if start == goal {
      TacticalSearchAtGoal(adj, start, h, player, fuel);
    }
  }

  // ---------------------------------------------------------------------
  // Re-opening can lose a predecessor.

  // Four plain nodes (heuristic 0, penalty 200 without a player): the cheaper
  // way back into `p` re-opens it after `g` got its record through it, and `g`
  // is then popped while `p` sits in the open list.
  const ExS := Node(0, "s")
  const ExP := Node(1, "p")
  const ExX := Node(2, "x")
  const ExG := Node(3, "g")
  const ExSP := Connection(ExS, ExP, 0.0)
  const ExPX := Connection(ExP, ExX, -300.0)
  const ExPG := Connection(ExP, ExG, -300.0)
  const ExXP := Connection(ExX, ExP, -200.0)
  const ExGraph: Adjacency := map[ExS := [ExSP], ExP := [ExPX, ExPG], ExX := [ExXP]]
  const ExH := Heuristic(Some(ExG))

  const ExStart := TacticalRecord(ExS, None, 0.0, 0.0)
  const ExP1 := TacticalRecord(ExP, Some(ExSP), 200.0, 400.0)
  const ExX1 := TacticalRecord(ExX, Some(ExPX), 100.0, 300.0)
  const ExG1 := TacticalRecord(ExG, Some(ExPG), 100.0, 300.0)
  const ExP2 := TacticalRecord(ExP, Some(ExXP), 100.0, 300.0)

  lemma ExamplePenalty(n: Node)
    ensures PlayerPenalty(n, None) == 200.0
  {
  }

  lemma ExampleFirstExpansion()
    ensures Expand(ExGraph, ExH, None, Lists([], [ExStart]), 0) == Lists([ExStart], [ExP1])
  {
    ExamplePenalty(ExP);
    assert Outgoing(ExGraph, ExS) == [ExSP];
    var L := Lists([], [ExStart]);
    assert NodesIn(L.open) == [ExS];
    var relaxed := Lists([], [ExStart, ExP1]);
    assert RelaxAll(ExH, None, L, 0, [ExSP]) == Relax(ExH, None, L, 0, ExSP);
    assert Relax(ExH, None, L, 0, ExSP) == relaxed;
    assert FirstIndex(relaxed.open, ExStart) == 0;
  }

  lemma ExampleSecondExpansion()
    ensures Expand(ExGraph, ExH, None, Lists([ExStart], [ExP1]), 0) == Lists([ExStart, ExP1], [ExX1, ExG1])
  {
    ExamplePenalty(ExX);
    ExamplePenalty(ExG);
    assert Outgoing(ExGraph, ExP) == [ExPX, ExPG];
    var L := Lists([ExStart], [ExP1]);
    assert NodesIn(L.closed) == [ExS] && NodesIn(L.open) == [ExP];
    var once := Lists([ExStart], [ExP1, ExX1]);
    assert Relax(ExH, None, L, 0, ExPX) == once;
    assert NodesIn(once.open) == [ExP, ExX];
    var twice := Lists([ExStart], [ExP1, ExX1, ExG1]);
    assert Relax(ExH, None, once, 0, ExPG) == twice;
    assert [ExPX, ExPG][..1] == [ExPX];
    assert RelaxAll(ExH, None, L, 0, [ExPX]) == once;
    assert RelaxAll(ExH, None, L, 0, [ExPX, ExPG]) == twice;
    assert FirstIndex(twice.open, ExP1) == 0;
    assert RemoveAt(twice.open, 0) == [ExX1, ExG1];
  }

  lemma ExampleThirdExpansion()
    ensures Expand(ExGraph, ExH, None, Lists([ExStart, ExP1], [ExX1, ExG1]), 0) == Lists([ExStart, ExX1], [ExG1, ExP2])
  {
    ExamplePenalty(ExP);
    assert Outgoing(ExGraph, ExX) == [ExXP];
    var L := Lists([ExStart, ExP1], [ExX1, ExG1]);
    assert NodesIn(L.closed) == [ExS, ExP] && NodesIn(L.open) == [ExX, ExG];
    assert IndexOfNode(L.closed, ExP) == 1;
    assert RemoveAt(L.closed, 1) == [ExStart];
    var relaxed := Lists([ExStart], [ExX1, ExG1, ExP2]);
    assert Relax(ExH, None, L, 0, ExXP) == relaxed;
    assert RelaxAll(ExH, None, L, 0, [ExXP]) == relaxed;
    assert FirstIndex(relaxed.open, ExX1) == 0;
    assert RemoveAt(relaxed.open, 0) == [ExG1, ExP2];
  }

  /** The main loop on the example: three expansions, then `g` comes up with `p` open again. */
  lemma ExampleLoop()
    ensures Loop(ExpandStep(ExGraph, ExH, None), ExG, Lists([], [ExStart]), ExStart, 10)
      == Halt(ExG1, Lists([ExStart, ExX1], [ExG1, ExP2]), false)
  {
    var step := ExpandStep(ExGraph, ExH, None);
    ExpandStepCloses(ExGraph, ExH, None);
    var L0 := Lists([], [ExStart]);
    var L1 := Lists([ExStart], [ExP1]);
    var L2 := Lists([ExStart, ExP1], [ExX1, ExG1]);
    var L3 := Lists([ExStart, ExX1], [ExG1, ExP2]);
    assert FirstMinIndex(L0.open) == 0;
    assert FirstMinIndex(L1.open) == 0;
    assert FirstMinIndex(L2.open) == 0;
    assert FirstMinIndex(L3.open) == 0;
    ExampleFirstExpansion();
    LoopUnfolds(step, ExG, L0, ExStart, 10);
    ExampleSecondExpansion();
    LoopUnfolds(step, ExG, L1, ExStart, 9);
    ExampleThirdExpansion();
    LoopUnfolds(step, ExG, L2, ExP1, 8);
  }

  /**
   * On a graph where `g` is reachable, the search pops `g` while the record
   * its connection comes from is back in the open list, so reconstruction
   * fails (Python's `find` returns None and `.connection` raises).
   */
  lemma ReopeningLosesPredecessor()
    ensures FiledByOrigin(ExGraph) && IsPath(ExGraph, [ExSP, ExPG], ExS, ExG)
    ensures TacticalSearch(ExGraph, ExS, ExG, ExH, None, 10) == MissingPredecessor
  {
    ExampleGraph();
    ExampleSearch();
  }

  lemma ExampleGraph()
    ensures FiledByOrigin(ExGraph) && IsPath(ExGraph, [ExSP, ExPG], ExS, ExG)
  {
    assert Outgoing(ExGraph, ExP)[1] == ExPG;
  }

  lemma ExampleSearch()
    ensures TacticalSearch(ExGraph, ExS, ExG, ExH, None, 10) == MissingPredecessor
  {
    assert StartRecord(ExH, ExS) == ExStart;
    ExampleLoop();
    assert NodesIn([ExStart, ExX1]) == [ExS, ExX];
  }
}
