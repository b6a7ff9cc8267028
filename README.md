# CI6450-game agent AI, modelled in Dafny

This project models the agent-AI library of the CI6450 game, a pygame project
in three stages. The Dafny code verifies. It models:

- **Graph search.** The model covers:
  - Dijkstra's search (`pathfind_dijkstra`) over the linear-scan `PathfindingList` of `NodeRecord`s.
  - The tactical A* search (`pathfind_tactical_astar`). It adds a player penalty of `200 / (h(node, player) + 1)` to every edge cost. It also re-opens a closed node that is reached more cheaply.
  - The Manhattan heuristic.
  - The directed adjacency-map `Graph`, `Connection`, `Node` and `TileNode`.
  - The older list-based graph of the first stage, with its `reconstruct_path`.
- **The tile graph of a level picture** (`GameGraph.build_graph`). It has one node per walkable tile and cost-1 edges between 4-neighbours.
- **The game glue.** This covers:
  - the tile under a pixel position;
  - `get_path`, which uses A*, and `get_path_and_evade`, which uses the tactical search;
  - the choice of the nearest reachable target;
  - the range-and-zone tests and the pick-up test;
  - the screen-border clamp and the square patrol path.
- **Decision trees** (`DecisionTreeNode`, `Action`, `Decision`), together with every concrete action and decision the enemies use.
- **Steering with exact arithmetic:**
  - Align's angular controller;
  - the angle helpers (`map_to_range`, `in_radius`, `atan2`, `new_orientation`);
  - KinematicFlee with its screen-edge push;
  - the `Static` and `Kinematic` movement state and its Euler integrator.

## How the model is built

**Numbers and maths functions.**
- Floats are `real`.
- `math.sqrt`, `math.atan` and `math.atan2` cannot be defined over `real`. They are passed in a `Maths` record (module `Vectors`).
- The record's `Valid` predicate states what the model relies on:
  - `sqrt` gives the non-negative root;
  - `atan` maps into (−π/2, π/2) and is 0 at 0;
  - `atan2` maps into (−π, π].
- A source comparison `sqrt(d²) <= r` is proved equal to `r >= 0 && d² <= r²` (`Vectors.RootAtMost`, `Decisions.WithinMeans`).

**Node identity.** Python compares nodes by object identity, because neither node class defines `__eq__`. Every `Graph.Node` therefore carries an `id`, and two `TileNode(3, 4)` objects are two different nodes.

**What is a class and what is a value.**
- Classes, because the source updates their fields in place:
  - the pathfinding lists;
  - the adjacency-map graph;
  - the game graph;
  - the list-based graph;
  - pygame's `Vector2`, `Static` and `Kinematic`;
  - KinematicFlee.
- Methods with loops and invariants: the two searches, the graph construction, `reconstruct_path`, `get_connection` and the nearest-target loops.
- Values: Python's search records are rewritten in place, but here they are values. Rewriting a record is replacing the list element at its index. The "current" record is read back from the open list by its index, so its in-place updates stay visible.

**The tactical search.**
- It is also given as a function (`TacticalAStar.TacticalSearch`), and the method is proved equal to it.
- A re-opened node can be expanded again. No bound on the number of rounds is proved, and a reachable cycle of negative total cost makes the code re-open nodes for ever. Each loop therefore gets a `fuel` bound, and runs out of fuel as the outcome `OutOfFuel`.

**Decisions.**
- An action keeps a reference to its enemy's record, which is a dictionary. Here that record (`Decisions.Enemy`) is passed in, and its new value is returned next to the action's result.
- `DecisionTree.Evaluate` threads the record through the tree. It also counts the calls of `test_value`.

## Model

| member | source | states |
|---|---|---|
| Vectors.LengthSq | utils/trigonometry.py:44-56 | the squared length is non-negative and zero exactly for the zero vector |
| Vectors.Maths.MagnitudeIsRoot | utils/trigonometry.py:58-69 | the magnitude is the non-negative square root of the squared length, zero exactly for the zero vector |
| Vectors.Maths.NormalizeUnit | utils/trigonometry.py:71-83 | a non-zero vector normalizes to the unit vector `v / |v|` (the zero vector maps to itself by definition) |
| Vectors.RootAtMost | project3/utils/game.py:116-119 | for a square root `r` of `x`, `r <= b` holds exactly when `b >= 0` and `x <= b²`, which replaces every `sqrt(d²) <= r` test |
| Trigonometry.PyMod | utils/trigonometry.py:101-102 | Python's float `%` with a positive divisor lies in `[0, m)` |
| Trigonometry.MapToRange | utils/trigonometry.py:101-102 | the wrapped angle lies in `[−π, π)` |
| Trigonometry.MapToRangeCongruent | utils/trigonometry.py:101-102 | the wrapped angle differs from the input by a whole number of turns |
| Trigonometry.MapToRangeCanonical | project1/utils/trigonometry.py:101-102 | an angle in `[−π, π)` at a whole number of turns from the input is the wrapped angle, so the wrapping is unique |
| Trigonometry.MapToRangeIdempotent | project1/utils/trigonometry.py:101-102 | wrapping twice is wrapping once |
| Trigonometry.InRadiusMeansShorter | utils/trigonometry.py:44-56 | `in_radius(v, r)` holds exactly when the vector is strictly shorter than `|r|` |
| Trigonometry.Atan2 | utils/trigonometry.py:4-25 | the result lies in `[−π/2, 3π/2)`: `x < 0` adds π to `atan(y/x)` |
| Trigonometry.Atan2OnAxes | project1/utils/trigonometry.py:16-25 | on the axes the result is π/2, −π/2, 0 or π by the signs, and 0 at the origin |
| Trigonometry.NewOrientation | utils/trigonometry.py:27-42 | a zero velocity keeps the orientation; otherwise the result lies in `atan2`'s range |
| Trigonometry.NewOrientationSwapsAxes | project1/utils/trigonometry.py:27-42 | the arguments are passed to `atan2(x, y)` swapped: velocity `(t, 0)` gives π/2, `(0, t)` gives 0 |
| Physics.Static.constructor | project1/utils/physics.py:36-38 | the fields are the given position object and orientation |
| Physics.Static.SetPosition | project1/utils/physics.py:40-41 | the position is replaced by a new vector at `(x, y)` |
| Physics.Static.SetOrientation | project1/utils/physics.py:43-44 | the orientation becomes the argument |
| Physics.Static.Copy | project1/utils/physics.py:52-53 | a new static sharing the position object |
| Physics.Kinematic.constructor | project1/utils/physics.py:142-146 | the fields are the given objects and numbers |
| Physics.Kinematic.SetPosition | project3/utils/kinematic.py:51-53 | both coordinates of the position vector are overwritten in place |
| Physics.Kinematic.SetOrientation | project3/utils/kinematic.py:55-56 | the orientation becomes the argument |
| Physics.Kinematic.SetVelocity | project3/utils/kinematic.py:58-62 | each coordinate is set only when given, otherwise kept |
| Physics.Kinematic.SetAngularVelocity | project3/utils/kinematic.py:64-65 | the angular velocity becomes the argument |
| Physics.Kinematic.AddPosition | project1/utils/physics.py:215-228 | the deltas are added to the position in place |
| Physics.Kinematic.Copy | project3/utils/kinematic.py:100-101 | a new kinematic sharing the position and velocity objects |
| Physics.Kinematic.Advance | project1/utils/physics.py:188-189 | position moves by the old velocity times `dt`, orientation by the old angular velocity times `dt` |
| Physics.Kinematic.Update | project1/utils/physics.py:176-192 | position and orientation move by the old velocities, and the velocities then grow by the steering times `dt` |
| Physics.Kinematic.UpdateWithMaxSpeed | project1/utils/physics.py:194-213 | position moves by the unclipped velocity; the velocity is kept when within `max_speed` and otherwise replaced by a new vector clipped to it; only the angular velocity takes the steering |
| Physics.TooFastMeans | project1/utils/physics.py:210 | "faster than `max_speed`" is the exact squared comparison |
| Physics.ClippedLength | project1/utils/physics.py:210-211 | the clipped velocity has length `max_speed` and the original direction |
| Physics.CopySharesPosition | project3/utils/kinematic.py:100-101 | moving a shallow copy moves the original |
| Align.TargetRotation | project3/utils/align.py:48-55 | none only on a zero rotation or a zero slow radius; the sign of `rotation · maxRotation`; `maxRotation` outside the slow radius; never larger than `maxRotation` |
| Align.ScaledSpeed | project3/utils/align.py:50-52 | inside the slow radius the scaled speed is no larger than `maxRotation` and keeps its sign |
| Align.Clip | project3/utils/align.py:58-63 | an acceleration within the limit is kept; the result is within the limit with its sign kept; none only for the `0/0` case |
| Align.AlignSteering | utils/align.py:14-41 | linear is zero; inside the target radius the output is all zero; the angular part is within the limit; with positive radii, a non-zero time and a non-negative limit there is no division by zero |
| Align.AlignAccelerates | utils/align.py:26-38 | outside the target radius the angular output is the acceleration that reaches the target rotation in `timeToTarget`, clipped to the limit with its sign |
| Align.Align.GetSteering | project3/utils/align.py:32-67 | the controller on the two characters' state, which it only reads |
| KinematicFlee.EdgeForceZeroInside | project3/utils/kinematic_flee.py:58-72 | no push inside the 50-pixel margin box |
| KinematicFlee.EdgePushBounded | project2/utils/kinematic_flee.py:37-45 | on the screen each push component is at most `maxSpeed`, points into the screen at the low edge and back at the high one |
| KinematicFlee.FleeOrientationMeans | project3/utils/kinematic_flee.py:74-78 | a zero velocity keeps the orientation, any other gives the velocity's angle |
| KinematicFlee.FleeVelocityMeans | project3/utils/kinematic_flee.py:42-51 | a character on its target gets only the edge push; away from the edges it runs at exactly `maxSpeed` straight away from the target |
| KinematicFlee.KinematicFlee.constructor | project3/utils/kinematic_flee.py:25-33 | the fields are the given characters and numbers |
| KinematicFlee.KinematicFlee.GetEdgeForce | project2/utils/kinematic_flee.py:33-47 | the accumulated force is the two independent axis pushes |
| KinematicFlee.KinematicFlee.GetSteering | project3/utils/kinematic_flee.py:39-56 | rotation 0, velocity the flee velocity, and only the character's orientation is rewritten, to the new velocity's angle |
| Graph.MakeTileNode | project3/utils/node.py:20-23 | a tile node keeps `x` and `y` unchanged and is named `tile_{x}_{y}` |
| Graph.WithConnectionAppends | project3/utils/graph.py:22-25 | adding an edge appends it at the end of its origin's list, earlier entries unchanged |
| Graph.WithConnectionElsewhere | project3/utils/graph.py:22-25 | every other node's list is unchanged |
| Graph.WithConnectionTwice | project3/utils/graph.py:25 | no de-duplication: the same edge twice gives two entries |
| Graph.WithConnectionFiled | project3/utils/graph.py:22-25 | every list only holds edges out of its own node |
| Graph.Graph.constructor | project3/utils/graph.py:19-20 | a new graph has no connections |
| Graph.Graph.AddConnection | project3/utils/graph.py:22-25 | the adjacency gains exactly the new edge at the end of its origin's list |
| Graph.Graph.GetConnections | project3/utils/graph.py:27-28 | every returned edge leaves the given node; an unknown node has none |
| Graph.IsPathExtend | project3/utils/dijkstra.py:128-136 | a chain ending at `m` extended by an edge out of `m` is a chain to the edge's end |
| Graph.IsPathPrepend | project3/utils/tactical_a_star.py:207-215 | an edge into a chain's start extends it, adding the edge's cost |
| Graph.PathStaysInside | project3/utils/dijkstra.py:84-121 | a chain from a node of a set closed under edges ends in that set |
| Heuristic.EstimateOffTiles | project3/utils/manhattan_heuristic.py:14-16 | anything but two tile nodes, a missing node included, estimates 0 |
| Heuristic.EstimateSymmetric | project3/utils/manhattan_heuristic.py:15 | the estimate is symmetric |
| Heuristic.EstimateZeroIffSameTile | project3/utils/manhattan_heuristic.py:15 | between tiles, zero exactly for the same coordinates |
| Heuristic.EstimateTriangle | project3/utils/manhattan_heuristic.py:15 | the triangle inequality |
| Heuristic.EstimateAcrossEdge | project2/utils/game_graph.py:57-64 | across a 4-neighbour step the estimate to any tile changes by exactly 1 |
| Heuristic.EstimateConsistent | project3/utils/tactical_a_star.py:27-28 | `estimate(n)` is the distance to the goal: at most one more than a neighbour's, zero at the goal |
| GameGraph.NeighbourIsStep | project2/utils/game_graph.py:57-64 | the four offsets are exactly the four unit steps |
| GameGraph.GridPixelOnSurface | project2/utils/game_graph.py:47-54 | every grid tile samples a pixel on the picture |
| GameGraph.TileEdgesMember | project2/utils/game_graph.py:56-64 | a tile's edges are the cost-1 edges to its existing neighbours |
| GameGraph.TileEdgesAtMostFour | project2/utils/game_graph.py:56-64 | at most one edge per direction |
| GameGraph.TileGraphEdges | project2/utils/game_graph.py:42-45 | in the built graph an edge leaves a node exactly towards a walkable unit neighbour, with cost 1 |
| GameGraph.TileGraphSymmetric | project2/utils/game_graph.py:42-45 | the edge relation is symmetric |
| GameGraph.TileGraphDegree | project2/utils/game_graph.py:57-64 | at most four edges leave any node |
| GameGraph.GameGraph.constructor | project2/utils/game_graph.py:23-28 | construction builds the graph at once |
| GameGraph.GameGraph.BuildGraph | project2/utils/game_graph.py:30-45 | one node per walkable tile, and exactly the tile graph's edges |
| GameGraph.GameGraph.AddAllNodes | project2/utils/game_graph.py:31-39 | afterwards a node exists at a tile exactly when the tile is in the grid and not a wall, keyed by its coordinates |
| GameGraph.GameGraph.AddNodesOfRow | project2/utils/game_graph.py:35-39 | the row's walkable tiles get their nodes |
| GameGraph.GameGraph.AddAllConnections | project2/utils/game_graph.py:42-45 | the second pass adds exactly the tile graph's edges |
| GameGraph.GameGraph.AddConnectionsOfRow | project2/utils/game_graph.py:42-45 | the row's tiles get their edges in scanning order |
| GameGraph.GameGraph.AddConnectionsForTile | project2/utils/game_graph.py:56-64 | the tile's edges are appended to its list in N, E, S, W order |
| Dijkstra.PathfindingList.constructor | project3/utils/dijkstra.py:50-51 | a new list is empty |
| Dijkstra.PathfindingList.Add | project3/utils/dijkstra.py:56-57 | appends the record |
| Dijkstra.PathfindingList.Remove | project3/utils/dijkstra.py:59-60 | removes the first equal record, or reports it missing (Python raises) |
| Dijkstra.PathfindingList.Contains | project3/utils/dijkstra.py:62-63 | true exactly when some record is about the node |
| Dijkstra.PathfindingList.Find | project3/utils/dijkstra.py:65-69 | the first record about the node, none exactly when `contains` is false |
| Dijkstra.PathfindingList.SmallestElement | project3/utils/dijkstra.py:71-72 | a listed record of least cost so far, the first such; none only on an empty list |
| Dijkstra.PathfindingList.Set | project3/utils/dijkstra.py:104-113 | the in-place rewrite of one record |
| Dijkstra.RelaxSkipsClosed | project3/utils/dijkstra.py:100-101 | an edge into a closed node changes nothing |
| Dijkstra.RelaxChanges | project3/utils/dijkstra.py:95-117 | at most the end's record changes, only to a strictly lower cost equal to the current cost plus the edge's; a record is appended only for a node with none |
| Dijkstra.RelaxKeepsDistinct | project3/utils/dijkstra.py:116-117 | at most one open record per node |
| Dijkstra.ExhaustedMeansNoPath | project3/utils/dijkstra.py:124-125 | when the open list empties without the goal there is no path at all |
| Dijkstra.RelaxEdge | project3/utils/dijkstra.py:95-117 | the list operations of one relaxation compute `Relax` |
| Dijkstra.RelaxEdges | project3/utils/dijkstra.py:92-117 | the inner loop keeps the relaxation invariant over all out-edges |
| Dijkstra.MoveToClosed | project3/utils/dijkstra.py:120-121 | exactly the current record moves from open to closed |
| Dijkstra.PopCheapest | project3/utils/dijkstra.py:84-85 | the popped record is of least cost, and with non-negative costs no path to its node is cheaper |
| Dijkstra.SearchStep | project3/utils/dijkstra.py:84-89 | at the goal the lists are untouched; otherwise one round keeps the search invariant and closes one more node |
| Dijkstra.Expand | project3/utils/dijkstra.py:92-121 | one round keeps the invariant and shrinks the set of unclosed nodes |
| Dijkstra.ProcessNodes | project3/utils/dijkstra.py:84-121 | the loop ends at the goal with a justified record, or with no path to the goal |
| Dijkstra.CompilePath | project3/utils/dijkstra.py:128-136 | the walk back gives a start-to-goal chain costing the goal's cost so far; empty when start is goal |
| Dijkstra.PathfindDijkstra | project3/utils/dijkstra.py:74-136 | a start-to-goal chain, none exactly when no path exists, `[]` when start is goal, and with non-negative costs no path is cheaper |
| TacticalAStar.TacticalPathfindingList.constructor | project3/utils/tactical_a_star.py:100-101 | a new list is empty |
| TacticalAStar.TacticalPathfindingList.Add | project3/utils/tactical_a_star.py:106-107 | appends the record |
| TacticalAStar.TacticalPathfindingList.Remove | project3/utils/tactical_a_star.py:109-110 | removes the first equal record |
| TacticalAStar.TacticalPathfindingList.Contains | project3/utils/tactical_a_star.py:112-113 | true exactly when some record is about the node |
| TacticalAStar.TacticalPathfindingList.Find | project3/utils/tactical_a_star.py:115-119 | the first record about the node, none exactly when `contains` is false |
| TacticalAStar.TacticalPathfindingList.SmallestElement | project3/utils/tactical_a_star.py:121-122 | the first record of least estimated total cost; none only on an empty list |
| TacticalAStar.TacticalPathfindingList.Set | project3/utils/tactical_a_star.py:191-193 | the in-place rewrite of one record |
| TacticalAStar.FirstMinIndex | project3/utils/tactical_a_star.py:121-122 | a least estimated total, strictly below every earlier one |
| TacticalAStar.PlayerPenalty | project3/utils/tactical_a_star.py:124 | the penalty lies in `(0, 200]` and is 200 at the player's tile or without a player |
| TacticalAStar.PenaltyFallsWithDistance | project3/utils/tactical_a_star.py:167 | the penalty falls as the estimate to the player grows |
| TacticalAStar.RelaxOnlyImproves | project3/utils/tactical_a_star.py:165-196 | nothing changes unless the end is new or reached strictly more cheaply; a change leaves one open record for the end, through `c`, at the new cost, and a new end's estimate is its cost plus estimate plus penalty |
| TacticalAStar.RelaxSound | project3/utils/tactical_a_star.py:170-193 | a relaxation keeps one record per node over both lists, every record linked by a graph edge, and every estimate equal to cost plus its heuristic part |
| TacticalAStar.ExpandStepCloses | project3/utils/tactical_a_star.py:199-200 | every round leaves a closed record |
| TacticalAStar.LoopStops | project3/utils/tactical_a_star.py:154-160 | the loop stops on an empty open list, or when the cheapest open record is the goal, or when the fuel runs out |
| TacticalAStar.LoopInv | project3/utils/tactical_a_star.py:154-200 | the search invariant holds wherever the loop stops |
| TacticalAStar.Reconstruct | project3/utils/tactical_a_star.py:207-215 | the walk back never yields the no-path outcome |
| TacticalAStar.ReconstructIsPath | project3/utils/tactical_a_star.py:207-215 | a completed walk back is a start-to-goal chain |
| TacticalAStar.TacticalSearchFound | project3/utils/tactical_a_star.py:207-215 | a found path is a start-to-goal chain |
| TacticalAStar.TacticalSearchNoPath | project3/utils/tactical_a_star.py:203-204 | a `None` result means there is no path at all |
| TacticalAStar.TacticalSearchAtGoal | project3/utils/tactical_a_star.py:158-160 | start equal to goal gives `[]` |
| TacticalAStar.TacticalSearchCorrect | project3/utils/tactical_a_star.py:126-215 | the three promises of the search together |
| TacticalAStar.ReopeningLosesPredecessor | project3/utils/tactical_a_star.py:170-176 | on a four-node graph where the goal is reachable, re-opening removes the goal's predecessor from the closed list and reconstruction fails |
| TacticalAStar.RelaxConnection | project3/utils/tactical_a_star.py:165-196 | the list operations of one relaxation compute `Relax` |
| TacticalAStar.RelaxConnections | project3/utils/tactical_a_star.py:163-196 | the inner loop computes `RelaxAll` |
| TacticalAStar.ExpandCurrent | project3/utils/tactical_a_star.py:163-200 | one round computes `Expand` and closes the current record |
| TacticalAStar.ProcessNodes | project3/utils/tactical_a_star.py:154-200 | the loop stops where the functional loop stops |
| TacticalAStar.CompilePath | project3/utils/tactical_a_star.py:207-215 | the reconstruction loop computes `Reconstruct` |
| TacticalAStar.Conclude | project3/utils/tactical_a_star.py:203-215 | `None` when the loop ran dry, else the reconstruction |
| TacticalAStar.PathfindTacticalAStar | project3/utils/tactical_a_star.py:126-215 | the method is the functional search; a found path is a chain, `None` means no path, `[]` when start is goal |
| LegacyGraph.NodeEqWithinEpsilon | utils/graph.py:15-16 | node `==` compares ids and compares coordinates by pygame's vector `==`, within the default epsilon 1e-6 on each axis; it holds between equal records, is symmetric, and equal nodes are less than `2·ε²` apart squared |
| LegacyGraph.NodeEqTolerant | utils/graph.py:15-16 | node `==` is neither record equality nor transitive: nodes 7e-7 apart are equal, and two such steps apart are not |
| LegacyGraph.NodeEqNe | utils/graph.py:30-31 | `!=` looks at ids only, so the same id with coordinates at least the epsilon apart on an axis is neither `==` nor `!=` |
| LegacyGraph.NodeOrdering | utils/graph.py:18-28 | the orderings compare ids only and are mutually consistent |
| LegacyGraph.MakeConnection | utils/graph.py:90-94 | the connection keeps its id and ends in order |
| LegacyGraph.ConnectionCostIsDistance | utils/graph.py:90-97 | the cost is the Euclidean distance: zero exactly for coinciding points and the same in either direction |
| LegacyGraph.ConnectionEqIgnoresId | utils/graph.py:111-112 | connection `==` ignores the id: connections differing only in it are equal, and changing it keeps the answer; equal connections have equal costs and end-node ids |
| LegacyGraph.ConnectionEqNe | utils/graph.py:126-127 | `==` implies not `!=`, but two connections of equal cost between different nodes are neither `==` nor `!=` |
| LegacyGraph.ConnectionOrdering | utils/graph.py:114-125 | the orderings compare costs and are mutually consistent |
| LegacyGraph.Touching | utils/graph.py:150-151 | exactly the stored connections with the node at either end, in order |
| LegacyGraph.TouchingAppend | utils/graph.py:150-151 | a new connection joins the list of each of its ends |
| LegacyGraph.TouchingBothEnds | utils/graph.py:150-151 | a connection is listed at both of its ends |
| LegacyGraph.LegacyGraph.constructor | utils/graph.py:130-132 | a new graph has no nodes and no connections |
| LegacyGraph.LegacyGraph.AddNode | utils/graph.py:134-136 | the new node's id is the node count before the call, and `get_node` of it returns it |
| LegacyGraph.LegacyGraph.GetNode | utils/graph.py:141-142 | Python list indexing: negative ids count from the end, others are out of range |
| LegacyGraph.LegacyGraph.GetConnection | utils/graph.py:144-148 | the first connection from `node1` to `node2`, none exactly when there is none |
| LegacyGraph.LegacyGraph.GetConnections | utils/graph.py:150-151 | every connection touching the node and only those |
| LegacyGraph.ReconstructPath | utils/graph.py:159-164 | the list ends at `current`, starts at a key without a predecessor, and each element comes from the one before |
| LegacyGraph.ChainsAgree | utils/graph.py:159-164 | two such lists for the same `current` are equal |
| LegacyGraph.SelfLoopNeverEnds | utils/graph.py:161-163 | a node recorded as its own predecessor makes the walk endless |
| LegacyGraph.LinkedLength | utils/graph.py:161-163 | a walk that ends within `n` steps gives at most `n + 1` nodes |
| Game.TileCoordinateBlock | project3/utils/game.py:62-63 | `x // block_size` is the tile whose block holds `x` |
| Game.NodeAtOnTileGraph | project3/utils/game.py:62-63 | a position has a node exactly when its tile is walkable, and the node is that tile's |
| Game.GetPathSound | project3/utils/game.py:62-69 | none when either position has no node; a returned path joins the two positions' nodes |
| Game.GetPathAndEvadeSound | project3/utils/game.py:86-95 | none exactly when start or end has no node; a found path joins them; `None` from the search means no path; same tile gives `[]` |
| Game.InRangeAndZoneMeans | project3/utils/game.py:117-129 | the narrow zone never matters: in range and inside the widened zone |
| Game.TestPlayerInRangeAndZoneMeans | project3/utils/game.py:98-129 | true exactly when the distance is at most 150 and the enemy's x is between 700 and 1400 |
| Game.ExperimentCollisionMeans | project3/utils/game.py:225-241 | true exactly when the distance is strictly below the threshold |
| Game.NearestUnique | project3/utils/game.py:146-162 | the nearest route is unique |
| Game.NearestIndex | project3/utils/game.py:146-162 | none exactly when no route is non-empty, else the first route with the fewest connections |
| Game.FindNearestEnemy | project3/utils/game.py:131-162 | `None` enemies are skipped; `(None, None)` without a usable route; otherwise the nearest route with its own enemy, leading from the player's node to it |
| Game.FindNearestTargetAndEvadeObstacles | project3/utils/game.py:164-195 | the same choice over the tactical routes, unless a search failed |
| Project2Game.TestPlayerInRangeAndZoneMeans | project2/utils/game.py:75-102 | true exactly when the distance is at most 150 and the enemy's x is between 750 and 1250 |
| Project2Game.FindNearestEnemy | project2/utils/game.py:104-133 | every entry is read; `(None, None)` without a non-empty route; otherwise the nearest route with its enemy |
| Screen.ClampWithin | utils/game.py:46-54 | with `2·border <= dim` the coordinate ends in `[border, dim − border]`, is kept when already there, and clamping twice is clamping once |
| Screen.ClampOscillates | utils/game.py:46-54 | on a screen narrower than two borders every coordinate is moved, onto `dimension - border` or `border`, and each of those two is sent to the other |
| Screen.CheckBorder | utils/game.py:33-54 | each coordinate of the position is clamped independently, in place; nothing else changes |
| Screen.SquarePathIgnoresCount | utils/game.py:102-125 | the point count argument makes no difference |
| Screen.SquarePathShape | utils/game.py:115-125 | the four corners inset by `W·(1−border)/2` and `H·(1−border)/2`, in order round the square |
| Decisions.WithinMeans | project3/utils/flee_descision.py:51-56 | the squared-distance test is the Euclidean distance test |
| Decisions.FleeDecision | project3/utils/flee_descision.py:46-74 | the record is unchanged, or only its position moves, to an x within `[minX, maxX]` |
| Decisions.KinematicFleeDecision | project2/utils/kinematic_flee_descision.py:44-74 | the record is unchanged, or only its x moves, within `[minX, maxX]` |
| Decisions.Act | project2/utils/decision_tree.py:27-28 | only flee and enemy-attack actions write the record; `is_attacking` is set exactly by an enemy-attack action; orientation is never written; a flee keeps x within its bounds; a kinematic flee keeps y |
| Decisions.StringActions | project3/utils/arrive_descision.py:59-60 | patrol, attack, finder and wander give their tag whatever their fields; an enemy attack sets `is_attacking` and changes nothing else |
| Decisions.BehaviourActions | project3/utils/arrive_descision.py:35-38 | Arrive and Face get characters built from enemy and player with parameters in order; kinematic arrive chases horizontally with zero orientations |
| Decisions.FleeActionMeans | project3/utils/flee_descision.py:46-74 | none exactly when the player is farther than `max_distance` (record untouched); otherwise a Flee, and the position moves by the steering exactly when the new x is within bounds |
| Decisions.FleeIgnoresScreen | project3/utils/flee_descision.py:36-44 | the screen size makes no difference |
| Decisions.KinematicFleeActionMeans | project2/utils/kinematic_flee_descision.py:44-74 | none exactly when too far (record untouched); otherwise a KinematicFlee with the given parameters and zero-orientation statics |
| Decisions.KinematicFleeMoves | project2/utils/kinematic_flee_descision.py:65-71 | x moves by the flee velocity exactly when the new x is within bounds; y is kept |
| Decisions.PlayerAttackingDecision | project3/utils/wander_descision.py:168-171 | the result is one of the two actions themselves |
| Decisions.PlayerAttackingChoice | project3/utils/flee_descision.py:125-128 | the first action exactly when the player is attacking |
| DecisionTree.ReachedMeans | project3/utils/arrive_descision.py:139-143 | a reach test holds exactly when the false branch resolves to an Arrive and the distance is at most the arrival radius |
| DecisionTree.AnswerFromLeaf | project2/utils/decision_tree.py:57-59 | the tree's answer is some leaf action's answer |
| DecisionTree.ReadOnlyKeepsEnemy | project3/utils/arrive_descision.py:35-38 | a tree without writing actions leaves the record alone |
| DecisionTree.InRangeTestsWithinHeight | project2/utils/decision_tree.py:52-59 | with in-range tests only, `test_value` runs at most once per level |
| DecisionTree.UntakenBranchIgnored | project2/utils/decision_tree.py:52-55 | the result is the taken branch's result, whatever the other branch is |
| DecisionTree.TestsBound | project2/utils/decision_tree.py:57-59 | the number of `test_value` calls is below `2^height`, so the recursion is finite |
| DecisionTree.ArriveTreeOutcome | project3/main.py:263-290 | the arrive tree patrols exactly when out of range, attacks exactly when in range and within the arrival radius, arrives with the given parameters otherwise, never writes the record, and counts 2 or 3 tests |
| DecisionTree.ArriveTreeInZone | project3/utils/game.py:102-129 | wired with the zone test, the tree's choice depends on distance 150 and the 700 to 1400 zone |
| DecisionTree.KinematicArriveTreeOutcome | project2/main.py:282-304 | the kinematic arrive tree patrols exactly when out of range, attacks exactly when in range and within the arrival radius, or chases horizontally |

## Left out

- Input and output are not modelled: the pygame window, drawing, sprites and the event loop, together with `draw_path`, `draw_world_representation`, `check_collision`, `is_valid_position`, `key_checker` and `show_menu`.
- The picture is a colour function. `Surface.get_at` is a function parameter, and its out-of-range `IndexError` is the "off the picture" case of `GameGraph.IsWall`.
- `pathfind_astar` is not part of this model. `Game.GetPath` takes it as a function parameter, and the lemmas about it assume only that a returned path joins its start and goal (`Game.AStarSound`).
- The steering behaviours Arrive, Face, Flee and KinematicArrive are recorded by their constructor arguments only. Their steering needs square roots and trigonometry. `Flee.get_steering`, which the flee decision calls, is the `fleeLinear` function parameter of `Decisions.Steering`.
- Actions hold sprites and other rendering fields; these are not modelled.
- The first, shadowed `AttackAction` prints a message; that message is not modelled.
- `magnitude`, the non-zero case of `normalize`, `rotate_vector`, `math.atan` and `math.atan2` are not defined. They are fields of `Vectors.Maths`, with only the contracts in its `Valid` predicate.
- TacticalAStar.PathfindTacticalAStar: the tactical search can re-open nodes, so its loops are bounded by `fuel`, and `OutOfFuel` stands for a run longer than that bound. Dijkstra needs no such bound: its main loop ends because the set of unclosed nodes shrinks each round.
- TacticalAStar.ReopeningLosesPredecessor: it shows that `pathfind_tactical_astar` can raise `AttributeError` on a reachable goal when edge costs are negative. This is the `MissingPredecessor` outcome. The model keeps the code's behaviour rather than a corrected search.
  - `Game.FindNearestTargetAndEvadeObstacles` reports such a run as `failed`, because Python does not return at all.
- Dijkstra.PathfindDijkstra requires that no negative self-loop exists, which is stronger than what the code needs. Expanding a node with such a loop makes it its own predecessor. The walk back in `pathfind_dijkstra` then never ends, but only if that node lies strictly between start and goal on the goal's predecessor chain. A negative self-loop on the start, on the goal or off the chain is harmless.
- Dijkstra.PathfindDijkstra promises the cheapest path only when costs are non-negative. For negative costs it states only that the result is a path.
- Floats are modelled as `real`, so rounding is not captured.
- Physics.Static.SetPosition: `set_position` in project1/utils/physics.py stores the tuple `(x, y)`, so a later `.x` read of the position raises `AttributeError`. The model stores a fresh `Vector2` at `(x, y)`, as the method's docstring promises.
- The tile size is required to be non-zero in the `Game` functions and positive in the tile-graph lemmas. Python raises `ZeroDivisionError` for a zero size, and a negative size gives an empty graph. Both mains pass a `block_size` of 40.
- Python's `int` pixel coordinates become `real` wherever the source divides them. They also become `real` where the callers pass floats, as they do into the player and enemy positions of `find_nearest_enemy`; Python does not enforce the `int` annotations.
- The utils/graph.py Node arithmetic dunders (`__add__` to `__pow__`) are not modelled. Nothing in the core uses them.
- `Graph.add_connection` in utils/graph.py is not modelled. It calls the three-argument `Connection` with two arguments, so it cannot run.
  - Connections of the list-based graph are built with `LegacyGraph.MakeConnection` instead.
- LegacyGraph.ReconstructPath is generic over the key type. The `Node` of utils/graph.py defines `__eq__` without `__hash__`, so it cannot be a dictionary key.
- project3/main.py creates `FleeAction` with nine arguments for an eight-parameter constructor. Only the arrive wiring of the two mains is modelled.
  - `DecisionTree.ArriveTree` is that wiring.
  - `DecisionTree.KinematicArriveTree` is the second stage's wiring.
- The getters (`get_position`, `get_x`, `get_cost` and the others) are read-only functions without contracts of their own. They are used in the other members' contracts.
- `random_npc`, `center_npc` and their list versions use randomness and pygame surfaces; they are not modelled.
- The shared mutable default vectors of the constructors are a Python aliasing effect. It is not reproduced: every new object gets its own vectors.
- Physics.Kinematic.Advance, Physics.Kinematic.Update and Physics.Kinematic.UpdateWithMaxSpeed assume distinct position and velocity objects. Python allows one vector for both, but no caller in the source passes one.
- `utils/physics.py`, `utils/a_star.py` and `utils/follow_path.py` cannot run as written, so they are not part of this model.
