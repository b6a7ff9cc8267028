/**
 * The glue between the game and the searches in the third project
 * (`project3/utils/game.py`): the node under a pixel position, a path between
 * two positions by A* or by the tactical search, the detection-zone test,
 * the choice of the nearest reachable target, and the experiment pick-up
 * test. The game graph is passed by its two fields, `nodes` (tile to node)
 * and the adjacency of its `graph`.
 *
 * `pathfind_astar` (project3/utils/a_star.py) is not part of this model: it
 * is a parameter, assumed only to return `None` or a start-to-goal chain of
 * connections, which is what the two modelled searches guarantee.
 */
module Game {
  import opened Wrappers
  import opened Vectors
  import opened Graph
  import opened Heuristic
  import opened GameGraph
  import opened TacticalAStar

  /** `x // block_size`: the floor of the quotient. */
  function TileCoordinate(x: real, blockSize: int): int
    requires blockSize != 0
  {
    (x / blockSize as real).Floor
  }

  /** With a positive block size, the coordinate lies in the block of its tile. */
  lemma TileCoordinateBlock(x: real, blockSize: int)
    requires blockSize > 0
    ensures var t := TileCoordinate(x, blockSize);
      t as real * blockSize as real <= x < (t + 1) as real * blockSize as real
  {
    var b := blockSize as real;
    var q := x / b;
    var t := q.Floor as real;
    var u := (q.Floor + 1) as real;
    assert t <= q < u;
    assert q * b == x;
    RealMulMonotone(t, q, b);
    RealMulStrict(q, u, b);
    var ti := TileCoordinate(x, blockSize);
    assert ti == q.Floor;
    assert u == (ti + 1) as real;
    assert x < u * b;
  }

  lemma RealMulMonotone(a: real, c: real, b: real)
    requires a <= c && b > 0.0
    ensures a * b <= c * b
  {
    assert c * b - a * b == (c - a) * b;
  }

  lemma RealMulStrict(a: real, c: real, b: real)
    requires a < c && b > 0.0
    ensures a * b < c * b
  {
    assert c * b - a * b == (c - a) * b;
  }

  /** The tile under a pixel position. */
  function TileAt(x: real, y: real, blockSize: int): Tile
    requires blockSize != 0
  {
    (TileCoordinate(x, blockSize), TileCoordinate(y, blockSize))
  }

  /** `game_graph.nodes.get((x // block_size, y // block_size))`. */
  function NodeAt(nodes: map<Tile, Node>, x: real, y: real, blockSize: int): Option<Node>
    requires blockSize != 0
  {
    var t := TileAt(x, y, blockSize);
    if t in nodes then Some(nodes[t]) else None
  }

  /**
   * On a built tile graph a position has a node exactly when the tile under
   * it is walkable, and that node is the tile node of that tile.
   */
  lemma NodeAtOnTileGraph(surface: Surface, blockSize: int, nodes: map<Tile, Node>, adj: Adjacency, x: real, y: real)
    requires blockSize > 0 && TileGraph(surface, blockSize, nodes, adj)
    ensures var r := NodeAt(nodes, x, y, blockSize);
      (r.Some? <==> Walkable(surface, blockSize, TileAt(x, y, blockSize)))
      && (r.Some? ==> r.value.TileNode? && (r.value.x, r.value.y) == TileAt(x, y, blockSize))
  {
  }

  /** `pathfind_astar(graph, start, goal, heuristic)`, given as a function. */
  type AStar = (Adjacency, Node, Node, Heuristic) -> Option<seq<Connection>>

  /** The search returns `None` or a chain of connections from its start to its goal. */
  ghost predicate AStarSound(astar: AStar) {
    forall adj, s, g, h :: astar(adj, s, g, h).Some? ==> IsPath(adj, astar(adj, s, g, h).value, s, g)
  }

  /**
   * `get_path`: the nodes under the two positions, and the A* path between
   * them with the Manhattan heuristic towards the end node; `None` when
   * either position has no node.
   */
  function GetPath(nodes: map<Tile, Node>, adj: Adjacency, blockSize: int, astar: AStar,
                   startX: real, startY: real, endX: real, endY: real): Option<seq<Connection>>
    requires blockSize != 0
  {
    var startNode := NodeAt(nodes, startX, startY, blockSize);
    var endNode := NodeAt(nodes, endX, endY, blockSize);
    if startNode.Some? && endNode.Some? then
      astar(adj, startNode.value, endNode.value, Heuristic(Some(endNode.value)))
    else
      None
  }

  /** A path `get_path` returns leads from the start position's node to the end position's node. */
  lemma GetPathSound(nodes: map<Tile, Node>, adj: Adjacency, blockSize: int, astar: AStar,
                     startX: real, startY: real, endX: real, endY: real)
    requires blockSize != 0 && AStarSound(astar)
    ensures var r := GetPath(nodes, adj, blockSize, astar, startX, startY, endX, endY);
      var s, e := TileAt(startX, startY, blockSize), TileAt(endX, endY, blockSize);
      (s !in nodes || e !in nodes ==> r.None?)
      && (r.Some? ==> s in nodes && e in nodes && IsPath(adj, r.value, nodes[s], nodes[e]))
  {
  }

  /**
   * `get_path_and_evade`: the tactical search between the nodes under
   * `start` and `end`, penalising closeness to the node under `player`
   * (which may be missing); `None` when `start` or `end` has no node.
   */
  function GetPathAndEvade(nodes: map<Tile, Node>, adj: Adjacency, blockSize: int,
                           start: Vec2, end: Vec2, player: Vec2, fuel: nat): Option<Outcome>
    requires blockSize != 0
  {
    var startNode := NodeAt(nodes, start.x, start.y, blockSize);
    var endNode := NodeAt(nodes, end.x, end.y, blockSize);
    var playerNode := NodeAt(nodes, player.x, player.y, blockSize);
    if startNode.Some? && endNode.Some? then
      Some(TacticalSearch(adj, startNode.value, endNode.value, Heuristic(Some(endNode.value)), playerNode, fuel))
    else
      None
  }

  /**
   * The evading path leads from the start node to the end node; a search
   * that comes back empty-handed means there is no path at all; a missing
   * player node still gives a search.
   */
  lemma GetPathAndEvadeSound(nodes: map<Tile, Node>, adj: Adjacency, blockSize: int,
                             start: Vec2, end: Vec2, player: Vec2, fuel: nat)
    requires blockSize != 0 && FiledByOrigin(adj)
    ensures var r := GetPathAndEvade(nodes, adj, blockSize, start, end, player, fuel);
      var s, e := TileAt(start.x, start.y, blockSize), TileAt(end.x, end.y, blockSize);
      (r.None? <==> s !in nodes || e !in nodes)
      && (r.Some? && r.value.Found? ==> IsPath(adj, r.value.path, nodes[s], nodes[e]))
      && (r == Some(NoPath) ==> forall p :: !IsPath(adj, p, nodes[s], nodes[e]))
      && (r.Some? && s == e ==> r == Some(Found([])))
  {
    var s, e := TileAt(start.x, start.y, blockSize), TileAt(end.x, end.y, blockSize);
    if s in nodes && e in nodes {
      TacticalSearchCorrect(adj, nodes[s], nodes[e], Heuristic(Some(nodes[e])),
                            NodeAt(nodes, player.x, player.y, blockSize), fuel);
    }
  }

  /** The detection radius of both projects' zone tests. */
  const DETECTION_RADIUS: real := 150.0

  /**
   * `test_player_in_range_and_zone` for a patrol zone `[minX, maxX]`: the
   * player is within the detection radius (the exact form of
   * `sqrt(dx*dx + dy*dy) <= DETECTION_RADIUS`) and the enemy inside the
   * zone, widened by 100 on both sides while the player is in range.
   */
  function InRangeAndZone(minX: real, maxX: real, enemy: Vec2, player: Vec2): bool {
    var d := Sub(player, enemy);
    var inRange := DETECTION_RADIUS >= 0.0 && LengthSq(d) <= DETECTION_RADIUS * DETECTION_RADIUS;
    var inZone := if inRange then minX - 100.0 <= enemy.x <= maxX + 100.0 else minX <= enemy.x <= maxX;
    inRange && inZone
  }

  /**
   * The test holds exactly when the distance is at most the radius and the
   * enemy is inside the widened zone; the narrow zone never matters.
   */
  lemma InRangeAndZoneMeans(minX: real, maxX: real, enemy: Vec2, player: Vec2, distance: real)
    requires IsRoot(distance, LengthSq(Sub(player, enemy)))
    ensures InRangeAndZone(minX, maxX, enemy, player)
        <==> distance <= DETECTION_RADIUS && minX - 100.0 <= enemy.x <= maxX + 100.0
  {
    RootAtMost(distance, LengthSq(Sub(player, enemy)), DETECTION_RADIUS);
  }

  const ENEMY_MIN_X: real := 800.0
  const ENEMY_MAX_X: real := 1300.0

  /** This project's zone test: in range, with the enemy between x = 700 and x = 1400. */
  function TestPlayerInRangeAndZone(enemy: Vec2, player: Vec2): bool {
    InRangeAndZone(ENEMY_MIN_X, ENEMY_MAX_X, enemy, player)
  }

  lemma TestPlayerInRangeAndZoneMeans(enemy: Vec2, player: Vec2, distance: real)
    requires IsRoot(distance, LengthSq(Sub(player, enemy)))
    ensures TestPlayerInRangeAndZone(enemy, player) <==> distance <= 150.0 && 700.0 <= enemy.x <= 1400.0
  {
    InRangeAndZoneMeans(ENEMY_MIN_X, ENEMY_MAX_X, enemy, player, distance);
  }

  /**
   * `check_experiment_collision`: the player is strictly closer than
   * `threshold` to the experiment (the exact form of
   * `(dx**2 + dy**2)**0.5 < threshold`).
   */
  function ExperimentCollision(player: Vec2, experiment: Vec2, threshold: real): bool {
    threshold > 0.0 && LengthSq(Sub(player, experiment)) < threshold * threshold
  }

  /** The default threshold. */
  const COLLISION_THRESHOLD: real := 30.0

  lemma ExperimentCollisionMeans(player: Vec2, experiment: Vec2, threshold: real, distance: real)
    requires IsRoot(distance, LengthSq(Sub(player, experiment)))
    ensures ExperimentCollision(player, experiment, threshold) <==> distance < threshold
  {
    RootBelow(distance, LengthSq(Sub(player, experiment)), threshold);
  }

  /** `if path:` — a route counts when there is one and it has at least one connection. */
  predicate Usable(route: Option<seq<Connection>>) {
    route.Some? && |route.value| > 0
  }

  /**
   * Among the first `k` routes, route `i` is usable, has no more connections
   * than any other usable route, and strictly fewer than every earlier one.
   */
  ghost predicate NearestAmong(routes: seq<Option<seq<Connection>>>, k: nat, i: nat)
    requires k <= |routes|
  {
    i < k && Usable(routes[i])
    && (forall j :: 0 <= j < k && Usable(routes[j]) ==> |routes[i].value| <= |routes[j].value|)
    && (forall j :: 0 <= j < i && Usable(routes[j]) ==> |routes[i].value| < |routes[j].value|)
  }

  /** At most one route is the nearest. */
  lemma NearestUnique(routes: seq<Option<seq<Connection>>>, k: nat, i: nat, j: nat)
    requires k <= |routes| && NearestAmong(routes, k, i) && NearestAmong(routes, k, j)
    ensures i == j
  {
  }

  /**
   * The outcome of a nearest-target choice: no route exactly when no route
   * is usable, and otherwise the nearest route with its own target.
   */
  ghost predicate Chosen<T>(routes: seq<Option<seq<Connection>>>, targets: seq<Option<T>>,
                            bestRoute: Option<seq<Connection>>, target: Option<T>)
    requires |targets| == |routes|
  {
    (bestRoute.None? <==> forall j :: 0 <= j < |routes| ==> !Usable(routes[j]))
    && (bestRoute.None? ==> target.None?)
    && (bestRoute.Some? ==> exists i: nat :: (NearestAmong(routes, |routes|, i)
          && bestRoute == routes[i] && target == targets[i]))
  }

  /**
   * The selection loop of `find_nearest_enemy` and
   * `find_nearest_target_and_evade_obstacles`: keep the first route with
   * the fewest connections, starting from an infinite best distance.
   */
  method NearestIndex(routes: seq<Option<seq<Connection>>>) returns (best: Option<nat>)
    ensures best.None? <==> forall j :: 0 <= j < |routes| ==> !Usable(routes[j])
    ensures best.Some? ==> NearestAmong(routes, |routes|, best.value)
  {
    var bestDistance: Option<nat> := None;
    best := None;
    for k := 0 to |routes|
      invariant best.None? <==> forall j :: 0 <= j < k ==> !Usable(routes[j])
      invariant best.None? <==> bestDistance.None?
      invariant best.Some? ==> (NearestAmong(routes, k, best.value)
        && bestDistance == Some(|routes[best.value].value|))
    {
      var route := routes[k];
      if route.Some? && |route.value| > 0 {
        var distance := |route.value|;
        if bestDistance.None? || distance < bestDistance.value {
          bestDistance := Some(distance);
          best := Some(k);
        }
      }
    }
  }

  /** The routes `find_nearest_enemy` computes: none for a `None` enemy, else `get_path` to it. */
  function EnemyRoutes(nodes: map<Tile, Node>, adj: Adjacency, blockSize: int, astar: AStar,
                       player: Vec2, enemies: seq<Option<Vec2>>): (routes: seq<Option<seq<Connection>>>)
    requires blockSize != 0
    ensures |routes| == |enemies|
  {
    seq(|enemies|, i requires 0 <= i < |enemies| =>
      if enemies[i].None? then None
      else GetPath(nodes, adj, blockSize, astar, player.x, player.y, enemies[i].value.x, enemies[i].value.y))
  }

  /**
   * `find_nearest_enemy`: the route with the fewest connections to a
   * reachable enemy (the first one on ties) and that enemy, or
   * `(None, None)` when no enemy is reachable by a non-empty route. The
   * route leads from the player's node to that enemy's node.
   */
  method FindNearestEnemy(nodes: map<Tile, Node>, adj: Adjacency, blockSize: int, astar: AStar,
                          player: Vec2, enemies: seq<Option<Vec2>>)
    returns (bestRoute: Option<seq<Connection>>, targetEnemy: Option<Vec2>)
    requires blockSize != 0
    ensures Chosen(EnemyRoutes(nodes, adj, blockSize, astar, player, enemies), enemies, bestRoute, targetEnemy)
    ensures bestRoute.Some? && AStarSound(astar) ==>
      targetEnemy.Some? && TileAt(player.x, player.y, blockSize) in nodes
      && TileAt(targetEnemy.value.x, targetEnemy.value.y, blockSize) in nodes
      && IsPath(adj, bestRoute.value, nodes[TileAt(player.x, player.y, blockSize)],
                nodes[TileAt(targetEnemy.value.x, targetEnemy.value.y, blockSize)])
  {
    var routes := EnemyRoutes(nodes, adj, blockSize, astar, player, enemies);
    var best := NearestIndex(routes);
    if best.Some? {
      var i := best.value;
      bestRoute, targetEnemy := routes[i], enemies[i];
      if AStarSound(astar) {
        GetPathSound(nodes, adj, blockSize, astar, player.x, player.y, enemies[i].value.x, enemies[i].value.y);
      }
    } else {
      bestRoute, targetEnemy := None, None;
    }
  }

  /** What `get_path_and_evade` gives towards each black hole: a route, none, or a failed search. */
  function BlackHoleSearches(nodes: map<Tile, Node>, adj: Adjacency, blockSize: int, player: Vec2,
                             blackHoles: seq<Option<Vec2>>, enemy: Vec2, fuel: nat): (searches: seq<Option<Outcome>>)
    requires blockSize != 0
    ensures |searches| == |blackHoles|
  {
    seq(|blackHoles|, i requires 0 <= i < |blackHoles| =>
      if blackHoles[i].None? then None
      else GetPathAndEvade(nodes, adj, blockSize, player, blackHoles[i].value, enemy, fuel))
  }

  /**
   * A search that does not come back with a path or `None`: a missing
   * predecessor (Python raises) or the fuel running out.
   */
  predicate Failed(search: Option<Outcome>) {
    search == Some(MissingPredecessor) || search == Some(OutOfFuel)
  }

  /** The route a search contributes: its path, or none. */
  function RouteOf(search: Option<Outcome>): Option<seq<Connection>> {
    if search.Some? && search.value.Found? then Some(search.value.path) else None
  }

  /** Some search failed. */
  predicate AnyFailed(searches: seq<Option<Outcome>>) {
    exists j :: 0 <= j < |searches| && Failed(searches[j])
  }

  /** The routes the searches contribute, in order. */
  function RoutesOf(searches: seq<Option<Outcome>>): (routes: seq<Option<seq<Connection>>>)
    ensures |routes| == |searches|
    ensures forall i :: 0 <= i < |searches| ==> routes[i] == RouteOf(searches[i])
  {
    seq(|searches|, i requires 0 <= i < |searches| => RouteOf(searches[i]))
  }

  /**
   * `find_nearest_target_and_evade_obstacles`: the same choice over the
   * tactical routes from the player to each black hole, avoiding the enemy.
   * `failed` is set when one of the searches failed, in which case Python
   * does not return at all; otherwise the route leads from the player's
   * node to the chosen black hole's node.
   */
  method FindNearestTargetAndEvadeObstacles(nodes: map<Tile, Node>, adj: Adjacency, blockSize: int,
                                            player: Vec2, blackHoles: seq<Option<Vec2>>, enemy: Vec2, fuel: nat)
    returns (failed: bool, bestRoute: Option<seq<Connection>>, targetBlackHole: Option<Vec2>)
    requires blockSize != 0
    ensures var searches := BlackHoleSearches(nodes, adj, blockSize, player, blackHoles, enemy, fuel);
      (failed <==> AnyFailed(searches))
      && (!failed ==> Chosen(RoutesOf(searches), blackHoles, bestRoute, targetBlackHole))
    ensures !failed && bestRoute.Some? && FiledByOrigin(adj) ==>
      targetBlackHole.Some? && TileAt(player.x, player.y, blockSize) in nodes
      && TileAt(targetBlackHole.value.x, targetBlackHole.value.y, blockSize) in nodes
      && IsPath(adj, bestRoute.value, nodes[TileAt(player.x, player.y, blockSize)],
                nodes[TileAt(targetBlackHole.value.x, targetBlackHole.value.y, blockSize)])
  {
    var searches := BlackHoleSearches(nodes, adj, blockSize, player, blackHoles, enemy, fuel);
    failed := AnyFailed(searches);
    var routes := RoutesOf(searches);
    var best := NearestIndex(routes);
    if best.Some? {
      var i := best.value;
      bestRoute, targetBlackHole := routes[i], blackHoles[i];
      if FiledByOrigin(adj) {
        GetPathAndEvadeSound(nodes, adj, blockSize, player, blackHoles[i].value, enemy, fuel);
      }
    } else {
      bestRoute, targetBlackHole := None, None;
    }
  }
}

/**
 * The second project's copies (`project2/utils/game.py`): `get_path` and
 * `check_experiment_collision` are the same code as above; the zone is
 * narrower, and `find_nearest_enemy` reads the position of every entry,
 * with no `None` check.
 */
module Project2Game {
  import opened Wrappers
  import opened Vectors
  import opened Graph
  import opened GameGraph
  import opened Game

  const ENEMY_MIN_X: real := 850.0
  const ENEMY_MAX_X: real := 1150.0

  /** This project's zone test: in range, with the enemy between x = 750 and x = 1250. */
  function TestPlayerInRangeAndZone(enemy: Vec2, player: Vec2): bool {
    InRangeAndZone(ENEMY_MIN_X, ENEMY_MAX_X, enemy, player)
  }

  lemma TestPlayerInRangeAndZoneMeans(enemy: Vec2, player: Vec2, distance: real)
    requires IsRoot(distance, LengthSq(Sub(player, enemy)))
    ensures TestPlayerInRangeAndZone(enemy, player) <==> distance <= 150.0 && 750.0 <= enemy.x <= 1250.0
  {
    InRangeAndZoneMeans(ENEMY_MIN_X, ENEMY_MAX_X, enemy, player, distance);
  }

  /** An enemy entry, by the `"x"` and `"y"` values the game reads from it. */
  datatype Enemy = Enemy(x: real, y: real)

  /** The routes from the player's position to every enemy, by `get_path`. */
  function EnemyRoutes(nodes: map<Tile, Node>, adj: Adjacency, blockSize: int, astar: AStar,
                       playerX: real, playerY: real, enemies: seq<Enemy>): (routes: seq<Option<seq<Connection>>>)
    requires blockSize != 0
    ensures |routes| == |enemies|
  {
    seq(|enemies|, i requires 0 <= i < |enemies| =>
      GetPath(nodes, adj, blockSize, astar, playerX, playerY, enemies[i].x, enemies[i].y))
  }

  /**
   * `find_nearest_enemy`: the first route with the fewest connections and
   * its enemy, or `(None, None)` when no route is non-empty.
   */
  method FindNearestEnemy(nodes: map<Tile, Node>, adj: Adjacency, blockSize: int, astar: AStar,
                          playerX: real, playerY: real, enemies: seq<Enemy>)
    returns (bestRoute: Option<seq<Connection>>, targetEnemy: Option<Enemy>)
    requires blockSize != 0
    ensures Chosen(EnemyRoutes(nodes, adj, blockSize, astar, playerX, playerY, enemies),
                   seq(|enemies|, i requires 0 <= i < |enemies| => Some(enemies[i])), bestRoute, targetEnemy)
    ensures bestRoute.None? <==> targetEnemy.None?
  {
    var routes := EnemyRoutes(nodes, adj, blockSize, astar, playerX, playerY, enemies);
    var best := NearestIndex(routes);
    if best.Some? {
      bestRoute, targetEnemy := routes[best.value], Some(enemies[best.value]);
    } else {
      bestRoute, targetEnemy := None, None;
    }
  }
}

/** The screen helpers of the first project (`utils/game.py`). */
module Screen {
  import opened Vectors
  import opened Physics

  /** One axis of `check_border`: above `dimension - border` goes down to it, below `border` up to it. */
  function Clamp(c: real, dimension: real, border: real): real {
    if c > dimension - border then dimension - border
    else if c < border then border
    else c
  }

  /** With room for both borders, the result lies between them, and a coordinate there is kept. */
  lemma ClampWithin(c: real, dimension: real, border: real)
    requires 2.0 * border <= dimension
    ensures border <= Clamp(c, dimension, border) <= dimension - border
    ensures border <= c <= dimension - border ==> Clamp(c, dimension, border) == c
    ensures Clamp(Clamp(c, dimension, border), dimension, border) == Clamp(c, dimension, border)
  {
  }

  /**
   * Without room for both borders the two rules fight: every coordinate is
   * moved, onto one of `dimension - border` and `border`, and each of those
   * two is sent to the other, so repeated calls jump between them for ever.
   */
  lemma ClampOscillates(c: real, dimension: real, border: real)
    requires dimension < 2.0 * border
    ensures Clamp(c, dimension, border) != c
    ensures Clamp(c, dimension, border) == dimension - border || Clamp(c, dimension, border) == border
    ensures Clamp(dimension - border, dimension, border) == border
    ensures Clamp(border, dimension, border) == dimension - border
  {
  }

  /**
   * `check_border(screen, player, border)`: each coordinate of the player's
   * position object is clamped on its own axis, in place; nothing else changes.
   */
  method CheckBorder(width: int, height: int, player: Kinematic, border: int)
    modifies player.position
    ensures player.position.Value()
      == Vec2(Clamp(old(player.position.x), width as real, border as real),
              Clamp(old(player.position.y), height as real, border as real))
  {
    var h, w, b := height as real, width as real, border as real;
    if player.position.y > h - b {
      player.position.y := h - b;
    } else if player.position.y < b {
      player.position.y := b;
    }
    if player.position.x > w - b {
      player.position.x := w - b;
    } else if player.position.x < b {
      player.position.x := b;
    }
  }

  /**
   * `create_square_path(screen, n_points, border)`: the four corners of the
   * rectangle covering the central `border` fraction of the screen, from the
   * top left clockwise.
   */
  function CreateSquarePath(width: int, height: int, nPoints: int, border: real): (r: seq<Vec2>)
    ensures |r| == 4
  {
    var w, h := width as real, height as real;
    var pw, ph := w * (1.0 - border) / 2.0, h * (1.0 - border) / 2.0;
    [Vec2(pw, ph), Vec2(w - pw, ph), Vec2(w - pw, h - ph), Vec2(pw, h - ph)]
  }

  /** The number of points asked for is ignored. */
  lemma SquarePathIgnoresCount(width: int, height: int, n: int, m: int, border: real)
    ensures CreateSquarePath(width, height, n, border) == CreateSquarePath(width, height, m, border)
  {
  }

  /**
   * The points are the corners of an axis-parallel rectangle centred on the
   * screen centre, `border` times the screen in each dimension, inside the
   * screen when `border` is a fraction.
   */
  lemma SquarePathShape(width: int, height: int, nPoints: int, border: real)
    ensures var r := CreateSquarePath(width, height, nPoints, border);
      r[0].y == r[1].y && r[1].x == r[2].x && r[2].y == r[3].y && r[3].x == r[0].x
      && Add(r[0], r[2]) == Vec2(width as real, height as real)
      && Add(r[1], r[3]) == Vec2(width as real, height as real)
      && r[1].x - r[0].x == width as real * border && r[3].y - r[0].y == height as real * border
    ensures var r := CreateSquarePath(width, height, nPoints, border);
      0.0 <= border <= 1.0 && width >= 0 && height >= 0 ==>
        forall i :: 0 <= i < 4 ==> 0.0 <= r[i].x <= width as real && 0.0 <= r[i].y <= height as real
  {
    var w, h := width as real, height as real;
    if 0.0 <= border <= 1.0 && width >= 0 && height >= 0 {
      assert 0.0 <= w * (1.0 - border) <= w by { RealBetween(w, 1.0 - border); }
      assert 0.0 <= h * (1.0 - border) <= h by { RealBetween(h, 1.0 - border); }
    }
  }

  lemma RealBetween(a: real, f: real)
    requires a >= 0.0 && 0.0 <= f <= 1.0
    ensures 0.0 <= a * f <= a
  {
    assert a - a * f == a * (1.0 - f);
  }
}
