/**
 * Nodes, connections and the directed adjacency-map graph the searches run
 * on. Python compares nodes by object identity (neither node class defines
 * equality), so every node carries an `id` standing for that identity: two
 * `TileNode(3, 4)` objects are two values with different ids.
 */
module Graph {

  /** `Node(name)` or `TileNode(x, y)`; `id` is the object's identity. */
  datatype Node =
    | Node(id: nat, name: string)
    | TileNode(id: nat, name: string, x: int, y: int)

  /** The decimal digits of a natural number, most significant first. */
  function NatToString(n: nat): string
    decreases n
  {
    if n < 10 then [Digit(n)] else NatToString(n / 10) + [Digit(n % 10)]
  }

  function Digit(d: nat): char
    requires d < 10
  {
    "0123456789"[d]
  }

  /** Python's `str` of an integer. */
  function IntToString(i: int): string {
    if i < 0 then "-" + NatToString(-i) else NatToString(i)
  }

  /** The name `TileNode(x, y)` gives itself: `tile_{x}_{y}`. */
  function TileName(x: int, y: int): string {
    "tile_" + IntToString(x) + "_" + IntToString(y)
  }

  /** A fresh tile node: identity `id`, its coordinates stored unchanged. */
  function MakeTileNode(id: nat, x: int, y: int): (n: Node)
    ensures n.TileNode? && n.id == id && n.x == x && n.y == y
    ensures n.name == TileName(x, y)
  {
    TileNode(id, TileName(x, y), x, y)
  }

  /** A directed edge with its traversal cost (any real is accepted). */
  datatype Connection = Connection(fromNode: Node, toNode: Node, cost: real)
  {
    function GetCost(): real { cost }

    function GetFromNode(): Node { fromNode }

    function GetToNode(): Node { toNode }
  }

  /** What `Graph.connections` holds: a node's outgoing connections, in insertion order. */
  type Adjacency = map<Node, seq<Connection>>

  /** `connections.get(n, [])`. */
  function Outgoing(adj: Adjacency, n: Node): seq<Connection> {
    if n in adj then adj[n] else []
  }

  /** The adjacency after `add_connection(a, b, cost)`: the new edge appended to `a`'s list. */
  function WithConnection(adj: Adjacency, a: Node, b: Node, cost: real): Adjacency {
    adj[a := Outgoing(adj, a) + [Connection(a, b, cost)]]
  }

  /** Every stored connection leaves the node it is filed under. */
  ghost predicate FiledByOrigin(adj: Adjacency) {
    forall n, i :: n in adj && 0 <= i < |adj[n]| ==> adj[n][i].fromNode == n
  }

  /** No connection costs less than zero. */
  ghost predicate NonNegativeCosts(adj: Adjacency) {
    forall n, i :: n in adj && 0 <= i < |adj[n]| ==> adj[n][i].cost >= 0.0
  }

  /** Adding appends one connection at the end of `a`'s list and keeps the earlier ones. */
  lemma WithConnectionAppends(adj: Adjacency, a: Node, b: Node, cost: real)
    ensures |Outgoing(WithConnection(adj, a, b, cost), a)| == |Outgoing(adj, a)| + 1
    ensures Outgoing(WithConnection(adj, a, b, cost), a)[..|Outgoing(adj, a)|] == Outgoing(adj, a)
    ensures Outgoing(WithConnection(adj, a, b, cost), a)[|Outgoing(adj, a)|] == Connection(a, b, cost)
  {
  }

  /** Adding an edge out of `a` changes no other node's list. */
  lemma WithConnectionElsewhere(adj: Adjacency, a: Node, b: Node, cost: real, n: Node)
    requires n != a
    ensures Outgoing(WithConnection(adj, a, b, cost), n) == Outgoing(adj, n)
  {
  }

  /** There is no de-duplication: the same edge added twice is listed twice. */
  lemma WithConnectionTwice(adj: Adjacency, a: Node, b: Node, cost: real)
    ensures var twice := WithConnection(WithConnection(adj, a, b, cost), a, b, cost);
      Outgoing(twice, a) == Outgoing(adj, a) + [Connection(a, b, cost), Connection(a, b, cost)]
  {
    var once := WithConnection(adj, a, b, cost);
    assert Outgoing(once, a) == Outgoing(adj, a) + [Connection(a, b, cost)];
  }

  /** Adding keeps every connection filed under its origin. */
  lemma WithConnectionFiled(adj: Adjacency, a: Node, b: Node, cost: real)
    requires FiledByOrigin(adj)
    ensures FiledByOrigin(WithConnection(adj, a, b, cost))
  {
  }

  /**
   * project3's `Graph`: a dictionary from a node to the list of its outgoing
   * connections, a list being created the first time a node gets an edge.
   */
  class Graph {
    var connections: Adjacency

    ghost predicate Valid()
      reads this
    {
      FiledByOrigin(connections)
    }

    constructor ()
      ensures connections == map[] && Valid()
    {
      connections := map[];
    }

    method AddConnection(fromNode: Node, toNode: Node, cost: real)
      requires Valid()
      modifies this
      ensures Valid()
      ensures connections == WithConnection(old(connections), fromNode, toNode, cost)
    {
      if fromNode !in connections {
        connections := connections[fromNode := []];
      }
      connections := connections[fromNode := connections[fromNode] + [Connection(fromNode, toNode, cost)]];
      WithConnectionFiled(old(connections), fromNode, toNode, cost);
    }

    /** Every returned connection leaves `fromNode`; none for a node never given an edge. */
    function GetConnections(fromNode: Node): (r: seq<Connection>)
      reads this
      requires Valid()
      ensures forall i :: 0 <= i < |r| ==> r[i].fromNode == fromNode
      ensures fromNode !in connections ==> r == []
    {
      Outgoing(connections, fromNode)
    }
  }

  /**
   * `p` is a chain of graph edges from `s` to `g`: empty when `s == g`,
   * otherwise the first edge leaves `s`, each edge ends where the next one
   * starts, and the last one ends at `g`.
   */
  ghost predicate IsPath(adj: Adjacency, p: seq<Connection>, s: Node, g: Node) {
    if |p| == 0 then s == g
    else
      p[0].fromNode == s && p[|p| - 1].toNode == g
      && (forall i :: 0 <= i < |p| ==> p[i] in Outgoing(adj, p[i].fromNode))
      && (forall i :: 0 <= i < |p| - 1 ==> p[i].toNode == p[i + 1].fromNode)
  }

  /** The sum of the costs along a sequence of connections. */
  function PathCost(p: seq<Connection>): real {
    if |p| == 0 then 0.0 else PathCost(p[..|p| - 1]) + p[|p| - 1].cost
  }

  /** A path extended by one edge out of its end is a path to that edge's end. */
  lemma IsPathExtend(adj: Adjacency, p: seq<Connection>, s: Node, m: Node, c: Connection)
    requires IsPath(adj, p, s, m) && c.fromNode == m && c in Outgoing(adj, m)
    ensures IsPath(adj, p + [c], s, c.toNode)
  {
    var q := p + [c];
    if |p| > 0 {
      assert forall i :: 0 <= i < |p| ==> q[i] == p[i];
    }
  }

  /** Dropping the first edge of a path leaves a path from that edge's end. */
  lemma IsPathTail(adj: Adjacency, p: seq<Connection>, s: Node, g: Node)
    requires IsPath(adj, p, s, g) && |p| > 0
    ensures p[0] in Outgoing(adj, s) && IsPath(adj, p[1..], p[0].toNode, g)
  {
  }

  /** The last edge of a non-empty path leaves the end of the path without it. */
  lemma IsPathPrefix(adj: Adjacency, p: seq<Connection>, s: Node, g: Node)
    requires IsPath(adj, p, s, g) && |p| > 0
    ensures var e := p[|p| - 1];
      e in Outgoing(adj, e.fromNode) && e.toNode == g
      && IsPath(adj, p[..|p| - 1], s, e.fromNode)
      && PathCost(p) == PathCost(p[..|p| - 1]) + e.cost
  {
    var q := p[..|p| - 1];
    assert forall i :: 0 <= i < |q| ==> q[i] == p[i];
  }

  /** An edge into the start of a path extends it at the front, adding its cost. */
  lemma IsPathPrepend(adj: Adjacency, c: Connection, p: seq<Connection>, g: Node)
    requires c in Outgoing(adj, c.fromNode) && IsPath(adj, p, c.toNode, g)
    ensures IsPath(adj, [c] + p, c.fromNode, g)
    ensures PathCost([c] + p) == c.cost + PathCost(p)
  {
    var q := [c] + p;
    assert forall i :: 0 < i < |q| ==> q[i] == p[i - 1];
    PathCostPrepend(c, p);
  }

  lemma {:induction false} PathCostPrepend(c: Connection, p: seq<Connection>)
    ensures PathCost([c] + p) == c.cost + PathCost(p)
    decreases |p|
  {
    if |p| > 0 {
      var q := [c] + p;
      assert q[..|q| - 1] == [c] + p[..|p| - 1];
      PathCostPrepend(c, p[..|p| - 1]);
    }
  }

  /** A set of nodes closed under the edges. */
  ghost predicate ClosedUnderEdges(adj: Adjacency, nodes: set<Node>) {
    forall n, i :: n in nodes && 0 <= i < |Outgoing(adj, n)| ==> Outgoing(adj, n)[i].toNode in nodes
  }

  /** A path never leaves a set closed under the edges: no path reaches a node outside it. */
  lemma {:induction false} PathStaysInside(adj: Adjacency, nodes: set<Node>, p: seq<Connection>, s: Node, g: Node)
    requires ClosedUnderEdges(adj, nodes) && s in nodes
    requires IsPath(adj, p, s, g)
    ensures g in nodes
    decreases |p|
  {
    if |p| > 0 {
      IsPathTail(adj, p, s, g);
      var i :| 0 <= i < |Outgoing(adj, s)| && Outgoing(adj, s)[i] == p[0];
      PathStaysInside(adj, nodes, p[1..], p[0].toNode, g);
    }
  }
}
