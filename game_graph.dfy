/**
 * The tile graph of a level image: one `TileNode` per walkable tile of a
 * `block_size` grid laid over the picture, and unit-cost edges between
 * walkable 4-neighbours. The picture is read through a colour function.
 */
module GameGraph {
  import opened Graph

  /** What `Surface.get_at` returns that the graph looks at. */
  datatype Colour = Colour(red: int, green: int, blue: int)

  /** The level picture: its size in pixels and the colour of each pixel. */
  datatype Surface = Surface(width: nat, height: nat, colourAt: (int, int) -> Colour)

  /** A tile's grid coordinates, the key of `GameGraph.nodes`. */
  type Tile = (int, int)

  /** The neighbour offsets, in the order edges are added: N, E, S, W. */
  const DIRECTIONS: seq<Tile> := [(0, 1), (1, 0), (0, -1), (-1, 0)]

  /** The neighbour of `t` in direction `i`. */
  function Neighbour(t: Tile, i: nat): Tile
    requires i < |DIRECTIONS|
  {
    (t.0 + DIRECTIONS[i].0, t.1 + DIRECTIONS[i].1)
  }

  function Abs(i: int): nat { if i < 0 then -i else i }

  /** `u` is one of the four neighbours of `t`. */
  predicate IsStep(t: Tile, u: Tile) {
    Abs(t.0 - u.0) + Abs(t.1 - u.1) == 1
  }

  /** The four directions are exactly the four unit steps. */
  lemma NeighbourIsStep(t: Tile, u: Tile)
    ensures IsStep(t, u) <==> exists i :: 0 <= i < |DIRECTIONS| && Neighbour(t, i) == u
  {
    if IsStep(t, u) {
      if u.0 == t.0 && u.1 == t.1 + 1 { assert Neighbour(t, 0) == u; }
      else if u.0 == t.0 + 1 { assert Neighbour(t, 1) == u; }
      else if u.1 == t.1 - 1 { assert Neighbour(t, 2) == u; }
      else { assert Neighbour(t, 3) == u; }
    }
  }

  /** The sampled pixel of tile `(x, y)`: the centre of its block. */
  function CentrePixel(x: int, y: int, blockSize: int): (int, int)
    requires blockSize > 0
  {
    (x * blockSize + blockSize / 2, y * blockSize + blockSize / 2)
  }

  /** `get_at` succeeds: the pixel lies on the picture. */
  predicate OnSurface(surface: Surface, p: (int, int)) {
    0 <= p.0 < surface.width && 0 <= p.1 < surface.height
  }

  /**
   * `is_wall`: the centre pixel has all three channels positive, or lies off
   * the picture (`get_at` raises `IndexError`, which counts as a wall).
   */
  predicate IsWall(surface: Surface, blockSize: int, x: int, y: int)
    requires blockSize > 0
  {
    var p := CentrePixel(x, y, blockSize);
    if OnSurface(surface, p) then
      var c := surface.colourAt(p.0, p.1);
      0 < c.red && 0 < c.green && 0 < c.blue
    else
      true
  }

  /** The grid is `(width // block_size) x (height // block_size)` tiles. */
  predicate InGrid(surface: Surface, blockSize: int, t: Tile)
    requires blockSize > 0
  {
    0 <= t.0 < surface.width / blockSize && 0 <= t.1 < surface.height / blockSize
  }

  /** A tile that gets a node. */
  predicate Walkable(surface: Surface, blockSize: int, t: Tile)
    requires blockSize > 0
  {
    InGrid(surface, blockSize, t) && !IsWall(surface, blockSize, t.0, t.1)
  }

  /** Every tile of the grid samples a pixel on the picture, so only colours decide. */
  lemma GridPixelOnSurface(surface: Surface, blockSize: int, t: Tile)
    requires blockSize > 0 && InGrid(surface, blockSize, t)
    ensures OnSurface(surface, CentrePixel(t.0, t.1, blockSize))
  {
    CentreBelow(t.0, blockSize, surface.width);
    CentreBelow(t.1, blockSize, surface.height);
  }

  lemma CentreBelow(i: int, b: int, size: nat)
    requires b > 0 && 0 <= i < size / b
    ensures 0 <= i * b + b / 2 < size
  {
    var q := size / b;
    assert q * b <= size;
    assert (i + 1) * b <= q * b by {
      MultiplyMonotone(i + 1, q, b);
    }
    assert (i + 1) * b == i * b + b;
    assert 0 <= i * b by {
      MultiplyMonotone(0, i, b);
    }
  }

  lemma MultiplyMonotone(a: int, c: int, b: int)
    requires a <= c && b > 0
    ensures a * b <= c * b
  {
    assert c * b - a * b == (c - a) * b;
  }

  /** Row-major order of the construction loops: `t` is visited before `(x, y)`. */
  predicate Before(t: Tile, x: int, y: int) {
    t.1 < y || (t.1 == y && t.0 < x)
  }

  /** Each node is a tile node at its own key. */
  ghost predicate TilesNamed(nodes: map<Tile, Node>) {
    forall t :: t in nodes ==> nodes[t].TileNode? && nodes[t].x == t.0 && nodes[t].y == t.1
  }

  /** The edges `add_connections_for_tile` adds for the first `k` directions. */
  function TileEdges(nodes: map<Tile, Node>, t: Tile, k: nat): seq<Connection>
    requires t in nodes && k <= |DIRECTIONS|
  {
    if k == 0 then []
    else
      var n := Neighbour(t, k - 1);
      TileEdges(nodes, t, k - 1) + (if n in nodes then [Connection(nodes[t], nodes[n], 1.0)] else [])
  }

  /** The edges of tile `t` are the unit edges to its existing neighbours, in direction order. */
  lemma {:induction false} TileEdgesMember(nodes: map<Tile, Node>, t: Tile, k: nat, c: Connection)
    requires t in nodes && k <= |DIRECTIONS|
    ensures c in TileEdges(nodes, t, k) <==>
      exists i :: 0 <= i < k && Neighbour(t, i) in nodes && c == Connection(nodes[t], nodes[Neighbour(t, i)], 1.0)
  {
    if k > 0 {
      TileEdgesMember(nodes, t, k - 1, c);
    }
  }

  lemma {:induction false} TileEdgesAtMostFour(nodes: map<Tile, Node>, t: Tile, k: nat)
    requires t in nodes && k <= |DIRECTIONS|
    ensures |TileEdges(nodes, t, k)| <= k
  {
    if k > 0 {
      TileEdgesAtMostFour(nodes, t, k - 1);
    }
  }

  /**
   * What the built graph is: a node exactly on each walkable tile, each
   * node's list holding its tile edges, and no list for anything else.
   */
  ghost predicate TileGraph(surface: Surface, blockSize: int, nodes: map<Tile, Node>, adj: Adjacency)
    requires blockSize > 0
  {
    (forall t :: t in nodes <==> Walkable(surface, blockSize, t))
    && TilesNamed(nodes)
    && (forall t :: t in nodes ==> Outgoing(adj, nodes[t]) == TileEdges(nodes, t, |DIRECTIONS|))
    && (forall n :: n in adj ==> n.TileNode? && (n.x, n.y) in nodes && nodes[(n.x, n.y)] == n)
  }

  /**
   * In a tile graph every edge joins two existing nodes one step apart, at
   * cost 1.0; and there is an edge between two nodes exactly when their
   * tiles are neighbours.
   */
  lemma TileGraphEdges(surface: Surface, blockSize: int, nodes: map<Tile, Node>, adj: Adjacency, t: Tile, c: Connection)
    requires blockSize > 0 && TileGraph(surface, blockSize, nodes, adj) && t in nodes
    ensures c in Outgoing(adj, nodes[t]) <==>
      c.fromNode == nodes[t] && c.cost == 1.0 && c.toNode.TileNode?
      && (c.toNode.x, c.toNode.y) in nodes && nodes[(c.toNode.x, c.toNode.y)] == c.toNode
      && IsStep(t, (c.toNode.x, c.toNode.y))
  {
    TileEdgesMember(nodes, t, |DIRECTIONS|, c);
    if c.toNode.TileNode? {
      NeighbourIsStep(t, (c.toNode.x, c.toNode.y));
    }
  }

  /** The edge relation is symmetric. */
  lemma TileGraphSymmetric(surface: Surface, blockSize: int, nodes: map<Tile, Node>, adj: Adjacency, t: Tile, u: Tile)
    requires blockSize > 0 && TileGraph(surface, blockSize, nodes, adj) && t in nodes && u in nodes
    ensures Connection(nodes[t], nodes[u], 1.0) in Outgoing(adj, nodes[t])
        <==> Connection(nodes[u], nodes[t], 1.0) in Outgoing(adj, nodes[u])
  {
    TileGraphEdges(surface, blockSize, nodes, adj, t, Connection(nodes[t], nodes[u], 1.0));
    TileGraphEdges(surface, blockSize, nodes, adj, u, Connection(nodes[u], nodes[t], 1.0));
  }

  /** At most four edges leave any node. */
  lemma TileGraphDegree(surface: Surface, blockSize: int, nodes: map<Tile, Node>, adj: Adjacency, n: Node)
    requires blockSize > 0 && TileGraph(surface, blockSize, nodes, adj)
    ensures |Outgoing(adj, n)| <= 4
  {
    if n in adj {
      TileEdgesAtMostFour(nodes, (n.x, n.y), |DIRECTIONS|);
    }
  }

  /** The adjacency after appending `es` to `n`'s list (a list is only created when `es` is non-empty). */
  function AddEdges(adj: Adjacency, n: Node, es: seq<Connection>): Adjacency {
    if es == [] then adj else adj[n := Outgoing(adj, n) + es]
  }

  /** Appending one more edge is one more `add_connection`. */
  lemma AddEdgesStep(adj: Adjacency, n: Node, es: seq<Connection>, b: Node, cost: real)
    ensures AddEdges(adj, n, es + [Connection(n, b, cost)]) == WithConnection(AddEdges(adj, n, es), n, b, cost)
  {
    var c := Connection(n, b, cost);
    if es == [] {
      assert es + [c] == [c];
    } else {
      var mid := adj[n := Outgoing(adj, n) + es];
      assert Outgoing(mid, n) == Outgoing(adj, n) + es;
      assert Outgoing(adj, n) + es + [c] == Outgoing(adj, n) + (es + [c]);
      assert mid[n := Outgoing(mid, n) + [c]] == adj[n := Outgoing(adj, n) + (es + [c])];
    }
  }

  /** The adjacency once the tiles before `(x, y)` have had their edges added. */
  function EdgesBefore(nodes: map<Tile, Node>, x: int, y: int): Adjacency {
    map n | n in nodes.Values && n.TileNode? && (n.x, n.y) in nodes && nodes[(n.x, n.y)] == n
      && Before((n.x, n.y), x, y) && TileEdges(nodes, (n.x, n.y), |DIRECTIONS|) != []
      :: TileEdges(nodes, (n.x, n.y), |DIRECTIONS|)
  }

  /** Nothing has edges before the first tile. */
  lemma EdgesBeforeStart(nodes: map<Tile, Node>)
    requires forall t :: t in nodes ==> 0 <= t.0 && 0 <= t.1
    ensures EdgesBefore(nodes, 0, 0) == map[]
  {
    var e := EdgesBefore(nodes, 0, 0);
    assert forall n :: n in e ==> (n.x, n.y) in nodes && !Before((n.x, n.y), 0, 0);
    assert forall n :: n !in e;
  }

  /** Visiting tile `(x, y)` adds exactly its edges. */
  lemma EdgesBeforeStep(nodes: map<Tile, Node>, x: int, y: int)
    requires TilesNamed(nodes)
    ensures (x, y) in nodes ==>
      && Outgoing(EdgesBefore(nodes, x, y), nodes[(x, y)]) == []
      && EdgesBefore(nodes, x + 1, y) == AddEdges(EdgesBefore(nodes, x, y), nodes[(x, y)], TileEdges(nodes, (x, y), |DIRECTIONS|))
    ensures (x, y) !in nodes ==> EdgesBefore(nodes, x + 1, y) == EdgesBefore(nodes, x, y)
  {
    var e0 := EdgesBefore(nodes, x, y);
    var e1 := EdgesBefore(nodes, x + 1, y);
    if (x, y) in nodes {
      var cur := nodes[(x, y)];
      var es := TileEdges(nodes, (x, y), |DIRECTIONS|);
      assert cur in nodes.Values;
      assert cur !in e0;
      forall n | n in e1
        ensures n in AddEdges(e0, cur, es) && e1[n] == AddEdges(e0, cur, es)[n]
      {
        if n != cur {
          assert (n.x, n.y) != (x, y);
          assert n in e0;
        }
      }
      forall n | n in AddEdges(e0, cur, es)
        ensures n in e1
      {
        if n != cur {
          assert n in e0;
        }
      }
    } else {
      forall n | n in e1
        ensures n in e0
      {
        assert (n.x, n.y) != (x, y);
      }
    }
  }

  /** The end of a row is the start of the next one when no tile lies beyond `width`. */
  lemma EdgesBeforeNextRow(nodes: map<Tile, Node>, width: int, y: int)
    requires forall t :: t in nodes ==> 0 <= t.0 < width
    ensures EdgesBefore(nodes, width, y) == EdgesBefore(nodes, 0, y + 1)
  {
  }

  /** Once every tile is visited the adjacency is the tile graph. */
  lemma EdgesBeforeEnd(surface: Surface, blockSize: int, nodes: map<Tile, Node>, height: int)
    requires blockSize > 0 && TilesNamed(nodes)
    requires forall t :: t in nodes <==> Walkable(surface, blockSize, t)
    requires forall t :: t in nodes ==> t.1 < height
    ensures TileGraph(surface, blockSize, nodes, EdgesBefore(nodes, 0, height))
  {
    var adj := EdgesBefore(nodes, 0, height);
    forall t | t in nodes
      ensures Outgoing(adj, nodes[t]) == TileEdges(nodes, t, |DIRECTIONS|)
    {
      assert nodes[t] in nodes.Values;
    }
  }

  /** The nodes of the rows before `y`, restated in visiting order at the start of row `y`. */
  lemma RowStart(surface: Surface, blockSize: int, nodes: map<Tile, Node>, walkable: iset<Tile>, y: int)
    requires blockSize > 0
    requires forall t :: t in walkable <==> Walkable(surface, blockSize, t)
    requires forall t :: t in nodes <==> Walkable(surface, blockSize, t) && t.1 < y
    ensures forall t :: t in nodes <==> t in walkable && Before(t, 0, y)
  {
    forall t
      ensures t in nodes <==> t in walkable && Before(t, 0, y)
    {
      if t in walkable {
        assert InGrid(surface, blockSize, t);
      }
    }
  }

  /** At the end of row `y` every walkable tile of rows up to `y` has a node. */
  lemma RowEnd(surface: Surface, blockSize: int, nodes: map<Tile, Node>, walkable: iset<Tile>, y: int)
    requires blockSize > 0
    requires forall t :: t in walkable <==> Walkable(surface, blockSize, t)
    requires forall t :: t in nodes <==> t in walkable && Before(t, surface.width / blockSize, y)
    ensures forall t :: t in nodes <==> Walkable(surface, blockSize, t) && t.1 < y + 1
  {
    forall t
      ensures t in nodes <==> Walkable(surface, blockSize, t) && t.1 < y + 1
    {
      if t in walkable {
        assert InGrid(surface, blockSize, t);
      }
    }
  }

  /** A walkable tile lies inside the grid. */
  lemma WalkableInGrid(surface: Surface, blockSize: int)
    requires blockSize > 0
    ensures forall t :: Walkable(surface, blockSize, t) ==>
      0 <= t.0 < surface.width / blockSize && 0 <= t.1 < surface.height / blockSize
  {
  }

  /**
   * `GameGraph`: the graph of a level. It is a `Graph` (held here as the
   * `graph` object) plus the map from tile coordinates to nodes.
   */
  class GameGraph {
    const graph: Graph
    const blockSize: int
    const surface: Surface
    var nodes: map<Tile, Node>

    /** Builds the graph right away, as the constructor does. */
    constructor (surface: Surface, blockSize: int)
      requires blockSize > 0
      ensures this.surface == surface && this.blockSize == blockSize && fresh(graph)
      ensures graph.Valid() && TileGraph(surface, blockSize, nodes, graph.connections)
    {
      this.graph := new Graph();
      this.blockSize := blockSize;
      this.surface := surface;
      this.nodes := map[];
      new;
      BuildGraph();
    }

    /** One node per walkable tile, row by row, then the edges of every node. */
    method BuildGraph()
      requires blockSize > 0 && nodes == map[] && graph.connections == map[]
      modifies this, graph
      ensures graph.Valid() && TileGraph(surface, blockSize, nodes, graph.connections)
    {
      AddAllNodes();
      AddAllConnections();
    }

    /** The first pass: a node for every walkable tile, in row-major order. */
    method AddAllNodes()
      requires blockSize > 0 && nodes == map[]
      modifies this
      ensures forall t :: t in nodes <==> Walkable(surface, blockSize, t)
      ensures TilesNamed(nodes)
    {
      var width := surface.width / blockSize;
      var height := surface.height / blockSize;
      WalkableInGrid(surface, blockSize);
      for y := 0 to height
        invariant forall t :: t in nodes <==> Walkable(surface, blockSize, t) && t.1 < y
        invariant TilesNamed(nodes)
      {
        AddNodesOfRow(y, width);
      }
    }

    /** The second pass: the edges of every node, in row-major order. */
    method AddAllConnections()
      requires blockSize > 0 && graph.connections == map[]
      requires forall t :: t in nodes <==> Walkable(surface, blockSize, t)
      requires TilesNamed(nodes)
      modifies graph
      ensures graph.Valid() && TileGraph(surface, blockSize, nodes, graph.connections)
    {
      var width := surface.width / blockSize;
      var height := surface.height / blockSize;
      WalkableInGrid(surface, blockSize);
      EdgesBeforeStart(nodes);
      for y := 0 to height
        invariant graph.Valid() && graph.connections == EdgesBefore(nodes, 0, y)
      {
        AddConnectionsOfRow(y, width);
      }
      EdgesBeforeEnd(surface, blockSize, nodes, height);
    }

    /** The inner loop of the first pass: a node for each walkable tile of row `y`. */
    method AddNodesOfRow(y: int, width: int)
      requires blockSize > 0 && width == surface.width / blockSize && 0 <= y < surface.height / blockSize
      requires forall t :: t in nodes <==> Walkable(surface, blockSize, t) && t.1 < y
      requires TilesNamed(nodes)
      modifies this
      ensures forall t :: t in nodes <==> Walkable(surface, blockSize, t) && t.1 < y + 1
      ensures TilesNamed(nodes)
    {
      ghost var walkable := iset t | Walkable(surface, blockSize, t);
      RowStart(surface, blockSize, nodes, walkable, y);
      var row := nodes;
      for x := 0 to width
        invariant forall t :: t in row <==> t in walkable && Before(t, x, y)
        invariant TilesNamed(row)
      {
        assert (x, y) in walkable <==> !IsWall(surface, blockSize, x, y);
        if !IsWall(surface, blockSize, x, y) {
          row := row[(x, y) := MakeTileNode(|row|, x, y)];
        }
      }
      RowEnd(surface, blockSize, row, walkable, y);
      nodes := row;
    }

    /** The inner loop of the second pass: the edges of each node of row `y`. */
    method AddConnectionsOfRow(y: int, width: int)
      requires width >= 0 && TilesNamed(nodes) && graph.Valid()
      requires forall t :: t in nodes ==> 0 <= t.0 < width
      requires graph.connections == EdgesBefore(nodes, 0, y)
      modifies graph
      ensures graph.Valid() && graph.connections == EdgesBefore(nodes, 0, y + 1)
    {
      for x := 0 to width
        invariant graph.Valid() && graph.connections == EdgesBefore(nodes, x, y)
      {
        EdgesBeforeStep(nodes, x, y);
        if (x, y) in nodes {
          AddConnectionsForTile(x, y);
        }
      }
      EdgesBeforeNextRow(nodes, width, y);
    }

    /** `is_wall(x, y)` for this level. */
    predicate IsWallAt(x: int, y: int)
      requires blockSize > 0
    {
      IsWall(surface, blockSize, x, y)
    }

    /**
     * Appends an edge of cost 1.0 to each existing neighbour, in direction
     * order; every other node's list is left alone.
     */
    method AddConnectionsForTile(x: int, y: int)
      requires (x, y) in nodes && TilesNamed(nodes) && graph.Valid()
      modifies graph
      ensures graph.Valid()
      ensures graph.connections == AddEdges(old(graph.connections), nodes[(x, y)], TileEdges(nodes, (x, y), |DIRECTIONS|))
    {
      var current := nodes[(x, y)];
      for i := 0 to |DIRECTIONS|
        invariant graph.Valid()
        invariant graph.connections == AddEdges(old(graph.connections), current, TileEdges(nodes, (x, y), i))
      {
        var (dx, dy) := DIRECTIONS[i];
        var next := (x + dx, y + dy);
        assert next == Neighbour((x, y), i);
        assert TileEdges(nodes, (x, y), i + 1)
          == TileEdges(nodes, (x, y), i) + (if next in nodes then [Connection(current, nodes[next], 1.0)] else []);
        if next in nodes {
          AddEdgesStep(old(graph.connections), current, TileEdges(nodes, (x, y), i), nodes[next], 1.0);
          graph.AddConnection(current, nodes[next], 1.0);
        } else {
          assert TileEdges(nodes, (x, y), i + 1) == TileEdges(nodes, (x, y), i);
        }
      }
    }
  }
}
