/**
 * The older list-based graph of the first project (`utils/graph.py`): nodes
 * numbered in insertion order and carrying pygame coordinates, connections
 * whose cost is the Euclidean distance between their end points, and the
 * `reconstruct_path` walk back through a `came_from` dictionary.
 *
 * Python's comparison dunders are modelled as named functions, because they
 * do not agree with each other: `==` looks at the id and the coordinates,
 * `!=` and the orderings only at the id (for nodes) or the cost (for
 * connections). The coordinates are pygame vectors, whose `==` accepts
 * coordinates that differ by less than the vector's epsilon.
 */
module LegacyGraph {
  import opened Wrappers
  import opened Vectors

  /** `Node(id, coords)`. */
  datatype Node = Node(id: int, coords: Vec2)

  /** pygame's default `Vector2.epsilon`. */
  const VECTOR_EPSILON: real := 0.000001

  /** pygame's `Vector2.__eq__`: every coordinate differs by less than the epsilon. */
  predicate CoordsEq(u: Vec2, v: Vec2) {
    -VECTOR_EPSILON < u.x - v.x < VECTOR_EPSILON && -VECTOR_EPSILON < u.y - v.y < VECTOR_EPSILON
  }

  /** `Node.__eq__`: the same id and, by the vectors' `==`, the same coordinates. */
  predicate NodeEq(a: Node, b: Node) {
    a.id == b.id && CoordsEq(a.coords, b.coords)
  }

  /** `Node.__ne__`: different ids; the coordinates are not looked at. */
  predicate NodeNe(a: Node, b: Node) {
    a.id != b.id
  }

  predicate NodeLt(a: Node, b: Node) { a.id < b.id }

  predicate NodeLe(a: Node, b: Node) { a.id <= b.id }

  predicate NodeGt(a: Node, b: Node) { a.id > b.id }

  predicate NodeGe(a: Node, b: Node) { a.id >= b.id }

  /**
   * Node `==` holds between equal records, is symmetric, and for equal ids
   * holds exactly when the two positions are closer than the epsilon on each
   * axis; equal nodes are then less than `2 * VECTOR_EPSILON²` apart squared.
   */
  lemma NodeEqWithinEpsilon(a: Node, b: Node)
    ensures a == b ==> NodeEq(a, b)
    ensures NodeEq(a, b) <==> NodeEq(b, a)
    ensures NodeEq(a, b) ==>
              a.id == b.id && LengthSq(Sub(a.coords, b.coords)) < 2.0 * (VECTOR_EPSILON * VECTOR_EPSILON)
  {
    if NodeEq(a, b) {
      var d := Sub(a.coords, b.coords);
      SquareBelow(d.x, VECTOR_EPSILON);
      SquareBelow(d.y, VECTOR_EPSILON);
    }
  }

  lemma SquareBelow(t: real, e: real)
    requires -e < t < e
    ensures t * t < e * e
  {
    var u := if t >= 0.0 then t else -t;
    SquareStrict(u, e);
    assert t * t == u * u;
  }

  /**
   * Node `==` is not record equality and not transitive: positions 0.0000007
   * apart on one axis are equal, and two such steps are not.
   */
  lemma NodeEqTolerant()
    ensures var a := Node(0, Vec2(0.0, 0.0));
      var b := Node(0, Vec2(0.0, 0.0000007));
      var c := Node(0, Vec2(0.0, 0.0000014));
      a != b && NodeEq(a, b) && NodeEq(b, c) && !NodeEq(a, c)
  {
  }

  /**
   * `==` and `!=` never both hold, but for one id with two positions at
   * least the epsilon apart on an axis neither does.
   */
  lemma NodeEqNe(a: Node, b: Node)
    ensures NodeEq(a, b) ==> !NodeNe(a, b)
    ensures !NodeEq(a, b) && !NodeNe(a, b) <==> a.id == b.id && !CoordsEq(a.coords, b.coords)
  {
  }

  /** The orderings compare ids only: they are the integer order on ids, and total. */
  lemma NodeOrdering(a: Node, b: Node)
    ensures NodeLt(a, b) <==> NodeGt(b, a)
    ensures NodeLe(a, b) <==> NodeLt(a, b) || !NodeNe(a, b)
    ensures NodeGe(a, b) <==> NodeLe(b, a)
    ensures NodeLt(a, b) || !NodeNe(a, b) || NodeGt(a, b)
    ensures !(NodeLt(a, b) && NodeGt(a, b))
  {
  }

  /** `Connection(id, node1, node2)`, its cost fixed at construction. */
  datatype Connection = Connection(id: int, node1: Node, node2: Node, cost: real)
  {
    function GetCost(): real { cost }

    function GetFromNode(): Node { node1 }

    function GetToNode(): Node { node2 }
  }

  /** The constructor: the cost is the length of the difference of the two positions. */
  function MakeConnection(m: Maths, id: int, node1: Node, node2: Node): (c: Connection)
    ensures c.id == id && c.node1 == node1 && c.node2 == node2
  {
    Connection(id, node1, node2, m.Magnitude(Sub(node1.coords, node2.coords)))
  }

  /**
   * The cost is the Euclidean distance between the end points: never
   * negative, zero exactly for coinciding positions, the same in both
   * directions.
   */
  lemma ConnectionCostIsDistance(m: Maths, id: int, node1: Node, node2: Node)
    requires m.Valid()
    ensures var c := MakeConnection(m, id, node1, node2);
      IsRoot(c.cost, LengthSq(Sub(node1.coords, node2.coords)))
      && (c.cost == 0.0 <==> node1.coords == node2.coords)
      && c.cost == MakeConnection(m, id, node2, node1).cost
  {
    var d := Sub(node1.coords, node2.coords);
    m.MagnitudeIsRoot(d);
    assert LengthSq(Sub(node2.coords, node1.coords)) == LengthSq(d);
  }

  /** `Connection.__eq__`: equal end nodes (by `Node.__eq__`) and equal cost; the id is ignored. */
  predicate ConnectionEq(a: Connection, b: Connection) {
    NodeEq(a.node1, b.node1) && NodeEq(a.node2, b.node2) && a.cost == b.cost
  }

  /** `Connection.__ne__`: different costs only. */
  predicate ConnectionNe(a: Connection, b: Connection) {
    a.cost != b.cost
  }

  predicate ConnectionLt(a: Connection, b: Connection) { a.cost < b.cost }

  predicate ConnectionLe(a: Connection, b: Connection) { a.cost <= b.cost }

  predicate ConnectionGt(a: Connection, b: Connection) { a.cost > b.cost }

  predicate ConnectionGe(a: Connection, b: Connection) { a.cost >= b.cost }

  /**
   * The id makes no difference to connection `==`: connections that agree on
   * everything but the id are equal, and changing the id keeps the answer.
   */
  lemma ConnectionEqIgnoresId(a: Connection, b: Connection, id: int)
    ensures a.(id := b.id) == b ==> ConnectionEq(a, b)
    ensures ConnectionEq(a, b) <==> ConnectionEq(a.(id := id), b)
    ensures ConnectionEq(a, b) ==> a.cost == b.cost && a.node1.id == b.node1.id && a.node2.id == b.node2.id
  {
  }

  /**
   * `==` implies "not `!=`", but two connections of equal cost between
   * different nodes are neither equal nor unequal.
   */
  lemma ConnectionEqNe(a: Connection, b: Connection)
    ensures ConnectionEq(a, b) ==> !ConnectionNe(a, b)
    ensures !ConnectionEq(a, b) && !ConnectionNe(a, b)
        <==> a.cost == b.cost && !(NodeEq(a.node1, b.node1) && NodeEq(a.node2, b.node2))
  {
  }

  /** The orderings are the real order on costs. */
  lemma ConnectionOrdering(a: Connection, b: Connection)
    ensures ConnectionLt(a, b) <==> ConnectionGt(b, a)
    ensures ConnectionLe(a, b) <==> ConnectionLt(a, b) || !ConnectionNe(a, b)
    ensures ConnectionGe(a, b) <==> ConnectionLe(b, a)
  {
  }

  /** `c` leaves `a` and enters `b`, both compared with `Node.__eq__`. */
  predicate Joins(c: Connection, a: Node, b: Node) {
    NodeEq(c.node1, a) && NodeEq(c.node2, b)
  }

  /** `c` has `n` at one of its ends. */
  predicate Touches(c: Connection, n: Node) {
    NodeEq(c.node1, n) || NodeEq(c.node2, n)
  }

  /**
   * The comprehension in `get_connections`: the connections with `n` at
   * either end, in stored order. Exactly the touching ones are kept.
   */
  function Touching(cs: seq<Connection>, n: Node): (r: seq<Connection>)
    ensures |r| <= |cs|
    ensures forall i :: 0 <= i < |r| ==> r[i] in cs && Touches(r[i], n)
    ensures forall i :: 0 <= i < |cs| && Touches(cs[i], n) ==> cs[i] in r
  {
    if |cs| == 0 then []
    else
      var rest := Touching(cs[..|cs| - 1], n);
      var last := cs[|cs| - 1];
      assert cs == cs[..|cs| - 1] + [last];
      if Touches(last, n) then rest + [last] else rest
  }

  /** The kept connections keep their order: one more stored connection is kept at the end, or dropped. */
  lemma TouchingAppend(cs: seq<Connection>, c: Connection, n: Node)
    ensures Touching(cs + [c], n) == Touching(cs, n) + (if Touches(c, n) then [c] else [])
  {
    assert (cs + [c])[..|cs|] == cs;
  }

  /**
   * `get_connections` ignores direction while `get_connection` does not: a
   * stored edge from `a` to `b` is listed for both ends.
   */
  lemma TouchingBothEnds(cs: seq<Connection>, i: nat)
    requires i < |cs|
    ensures cs[i] in Touching(cs, cs[i].node1) && cs[i] in Touching(cs, cs[i].node2)
  {
  }

  /**
   * utils/graph.py's `Graph`: the nodes in a list whose positions are their
   * ids, and a list of connections.
   */
  class LegacyGraph {
    var nodes: seq<Node>
    var connections: seq<Connection>

    /** Every node's id is its position in `nodes`. */
    ghost predicate Valid()
      reads this
    {
      forall i :: 0 <= i < |nodes| ==> nodes[i].id == i
    }

    constructor ()
      ensures nodes == [] && connections == [] && Valid()
    {
      nodes := [];
      connections := [];
    }

    /** `add_node(coords)`: a new node whose id is the number of nodes before the call. */
    method AddNode(coords: Vec2)
      requires Valid()
      modifies this
      ensures Valid()
      ensures nodes == old(nodes) + [Node(|old(nodes)|, coords)]
      ensures connections == old(connections)
      ensures GetNode(|old(nodes)|) == Some(Node(|old(nodes)|, coords))
    {
      var i := |nodes|;
      nodes := nodes + [Node(i, coords)];
    }

    /**
     * `get_node(id)`: Python list indexing, so a negative id counts from the
     * end; an id outside the list (an `IndexError`) is `None`.
     */
    function GetNode(id: int): (r: Option<Node>)
      reads this
      ensures r.Some? <==> -|nodes| <= id < |nodes|
      ensures 0 <= id < |nodes| ==> r == Some(nodes[id])
      ensures Valid() && 0 <= id < |nodes| ==> r.value.id == id
      ensures -|nodes| <= id < 0 ==> r == Some(nodes[|nodes| + id])
    {
      if 0 <= id < |nodes| then Some(nodes[id])
      else if -|nodes| <= id < 0 then Some(nodes[|nodes| + id])
      else None
    }

    /**
     * `get_connection(node1, node2)`: the first stored connection from
     * `node1` to `node2`, or `None` when there is none.
     */
    method GetConnection(node1: Node, node2: Node) returns (r: Option<Connection>)
      ensures r.None? <==> forall i :: 0 <= i < |connections| ==> !Joins(connections[i], node1, node2)
      ensures r.Some? ==> exists i :: (0 <= i < |connections| && connections[i] == r.value
        && Joins(r.value, node1, node2)
        && forall j :: 0 <= j < i ==> !Joins(connections[j], node1, node2))
    {
      for i := 0 to |connections|
        invariant forall j :: 0 <= j < i ==> !Joins(connections[j], node1, node2)
      {
        if Joins(connections[i], node1, node2) {
          return Some(connections[i]);
        }
      }
      return None;
    }

    /** `get_connections(node)`: every stored connection with `node` at either end, in stored order. */
    function GetConnections(node: Node): (r: seq<Connection>)
      reads this
      ensures forall i :: 0 <= i < |r| ==> r[i] in connections && Touches(r[i], node)
      ensures forall i :: 0 <= i < |connections| && Touches(connections[i], node) ==> connections[i] in r
    {
      Touching(connections, node)
    }
  }

  /** Following `came_from` from `k` reaches a key without an entry within `n` steps. */
  ghost predicate Ends<K>(cameFrom: map<K, K>, k: K, n: nat)
    decreases n
  {
    k !in cameFrom || (n > 0 && Ends(cameFrom, cameFrom[k], n - 1))
  }

  /** Each element of `p` after the first is recorded as coming from the element before it. */
  ghost predicate Linked<K>(cameFrom: map<K, K>, p: seq<K>) {
    forall i :: 0 < i < |p| ==> p[i] in cameFrom && cameFrom[p[i]] == p[i - 1]
  }

  /**
   * `reconstruct_path(came_from, current)`: walk back through `came_from`,
   * inserting each predecessor at the front. The result ends at `current`,
   * starts at a key with no entry, and each element is recorded as coming
   * from the one before it. The walk only stops when the chain does, which
   * is what the precondition asks.
   */
  method ReconstructPath<K>(cameFrom: map<K, K>, current: K) returns (totalPath: seq<K>)
    requires exists n: nat :: Ends(cameFrom, current, n)
    ensures |totalPath| > 0 && totalPath[|totalPath| - 1] == current
    ensures totalPath[0] !in cameFrom
    ensures Linked(cameFrom, totalPath)
  {
    totalPath := [current];
    var node := current;
    ghost var n: nat :| Ends(cameFrom, node, n);
    while node in cameFrom
      invariant Ends(cameFrom, node, n)
      invariant |totalPath| > 0 && totalPath[0] == node && totalPath[|totalPath| - 1] == current
      invariant Linked(cameFrom, totalPath)
      decreases n
    {
      node := cameFrom[node];
      LinkedPrepend(cameFrom, node, totalPath);
      totalPath := [node] + totalPath;
      n := n - 1;
    }
  }

  lemma LinkedPrepend<K>(cameFrom: map<K, K>, k: K, p: seq<K>)
    requires Linked(cameFrom, p) && |p| > 0 && p[0] in cameFrom && cameFrom[p[0]] == k
    ensures Linked(cameFrom, [k] + p)
  {
    var q := [k] + p;
    assert forall i :: 0 < i < |q| ==> q[i] == p[i - 1];
  }

  /**
   * The reconstructed path is determined by `came_from` and `current`: any
   * two sequences with the three properties of `ReconstructPath` are equal.
   */
  lemma {:induction false} ChainsAgree<K>(cameFrom: map<K, K>, p: seq<K>, q: seq<K>)
    requires |p| > 0 && |q| > 0 && p[|p| - 1] == q[|q| - 1]
    requires p[0] !in cameFrom && q[0] !in cameFrom
    requires Linked(cameFrom, p) && Linked(cameFrom, q)
    ensures p == q
    decreases |p|
  {
    LinkedLastHasEntry(cameFrom, p);
    LinkedLastHasEntry(cameFrom, q);
    if |p| > 1 {
      var p', q' := p[..|p| - 1], q[..|q| - 1];
      assert p'[|p'| - 1] == cameFrom[p[|p| - 1]] == q'[|q'| - 1];
      assert Linked(cameFrom, p') by {
        forall i | 0 < i < |p'|
          ensures p'[i] in cameFrom && cameFrom[p'[i]] == p'[i - 1]
        {
          assert p'[i] == p[i] && p'[i - 1] == p[i - 1];
        }
      }
      assert Linked(cameFrom, q') by {
        forall i | 0 < i < |q'|
          ensures q'[i] in cameFrom && cameFrom[q'[i]] == q'[i - 1]
        {
          assert q'[i] == q[i] && q'[i - 1] == q[i - 1];
        }
      }
      ChainsAgree(cameFrom, p', q');
      assert p == p' + [p[|p| - 1]] && q == q' + [q[|q| - 1]];
    }
  }

  /** In a linked sequence of two or more, the last element has an entry. */
  lemma LinkedLastHasEntry<K>(cameFrom: map<K, K>, p: seq<K>)
    requires Linked(cameFrom, p)
    ensures |p| > 1 ==> p[|p| - 1] in cameFrom && cameFrom[p[|p| - 1]] == p[|p| - 2]
  {
    if |p| > 1 {
      assert p[|p| - 1] in cameFrom;
    }
  }

  /** A key recorded as coming from itself never reaches the end of its chain: the loop would not stop. */
  lemma {:induction false} SelfLoopNeverEnds<K>(cameFrom: map<K, K>, k: K, n: nat)
    requires k in cameFrom && cameFrom[k] == k
    ensures !Ends(cameFrom, k, n)
    decreases n
  {
    if n > 0 {
      SelfLoopNeverEnds(cameFrom, k, n - 1);
    }
  }

  /** A chain that ends within `n` steps yields a path of at most `n + 1` elements. */
  lemma {:induction false} LinkedLength<K>(cameFrom: map<K, K>, p: seq<K>, n: nat)
    requires |p| > 0 && Linked(cameFrom, p) && Ends(cameFrom, p[|p| - 1], n)
    ensures |p| <= n + 1
    decreases |p|
  {
    if |p| > 1 {
      var p' := p[..|p| - 1];
      LinkedLastHasEntry(cameFrom, p);
      assert Linked(cameFrom, p') by {
        forall i | 0 < i < |p'|
          ensures p'[i] in cameFrom && cameFrom[p'[i]] == p'[i - 1]
        {
          assert p'[i] == p[i] && p'[i - 1] == p[i - 1];
        }
      }
      LinkedLength(cameFrom, p', n - 1);
    }
  }
}
