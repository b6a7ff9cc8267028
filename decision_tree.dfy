/**
 * Decision trees: a leaf is an action, an inner node a decision whose test
 * picks the branch to descend into. Consulting a tree threads the enemy's
 * record through every action it runs, and counts the calls of `test_value`.
 */
module DecisionTree {
  import opened Vectors
  import opened Decisions
  import Game

  /**
   * The tests of the concrete decisions. Positions are the tuples the
   * decision was built with. `PlayerReached` expects its false branch to
   * answer with an `Arrive`, `KinematicPlayerReached` with a
   * `KinematicArrive`.
   */
  datatype Test =
    | InRange(enemyPos: Vec2, playerPos: Vec2, testFunction: (Vec2, Vec2) -> bool)
    | PlayerReached(enemyPos: Vec2, playerPos: Vec2, arrivalRadius: real)
    | KinematicPlayerReached(enemyPos: Vec2, playerPos: Vec2, arrivalRadius: real)

  datatype Tree = Leaf(action: Action) | Decision(test: Test, whenTrue: Tree, whenFalse: Tree)

  /** The answer, the record afterwards, and how many tests were run. */
  datatype Decided = Decided(result: Result, enemy: Enemy, tests: nat)

  /** A test's value, the record after computing it, and the tests it ran (itself included). */
  datatype Probe = Probe(value: bool, enemy: Enemy, tests: nat)

  /** Whether the false branch's answer is the arrival kind a reach test expects. */
  predicate ArrivalKind(test: Test, answer: Result) {
    if test.PlayerReached? then answer.ArriveBehaviour? else answer.KinematicArriveBehaviour?
  }

  /**
   * `make_decision`: an action answers for itself; a decision computes its
   * test and hands over to the branch the test picks.
   */
  function Evaluate(t: Tree, enemy: Enemy, s: Steering): (d: Decided)
    decreases t, 1
  {
    match t
    case Leaf(a) =>
      var (answer, after) := Act(a, enemy, s);
      Decided(answer, after, 0)
    case Decision(test, whenTrue, whenFalse) =>
      var probe := TestValue(test, whenFalse, enemy, s);
      var next := if probe.value then Evaluate(whenTrue, probe.enemy, s) else Evaluate(whenFalse, probe.enemy, s);
      next.(tests := probe.tests + next.tests)
  }

  /**
   * `test_value`: the injected function on `(enemy_pos, player_pos)`, or,
   * for a reach test, the false branch consulted first and then a distance
   * check with the radius inclusive.
   */
  function TestValue(test: Test, whenFalse: Tree, enemy: Enemy, s: Steering): (p: Probe)
    decreases whenFalse, 2
  {
    if test.InRange? then
      Probe(test.testFunction(test.enemyPos, test.playerPos), enemy, 1)
    else
      var answer := Evaluate(whenFalse, enemy, s);
      var reached := ArrivalKind(test, answer.result) && Within(Sub(test.playerPos, test.enemyPos), test.arrivalRadius);
      Probe(reached, answer.enemy, answer.tests + 1)
  }

  /** The distance check of a reach test, against any square root of the squared distance. */
  lemma ReachedMeans(test: Test, whenFalse: Tree, enemy: Enemy, s: Steering, distance: real)
    requires !test.InRange?
    requires IsRoot(distance, LengthSq(Sub(test.playerPos, test.enemyPos)))
    ensures TestValue(test, whenFalse, enemy, s).value
        <==> ArrivalKind(test, Evaluate(whenFalse, enemy, s).result) && distance <= test.arrivalRadius
  {
    WithinMeans(Sub(test.playerPos, test.enemyPos), test.arrivalRadius, distance);
  }

  /** The actions at the leaves, left to right. */
  function Leaves(t: Tree): (r: seq<Action>)
    ensures |r| > 0
  {
    match t
    case Leaf(a) => [a]
    case Decision(_, whenTrue, whenFalse) => Leaves(whenTrue) + Leaves(whenFalse)
  }

  function Height(t: Tree): nat {
    match t
    case Leaf(_) => 0
    case Decision(_, whenTrue, whenFalse) => 1 + Max(Height(whenTrue), Height(whenFalse))
  }

  function Max(a: nat, b: nat): nat { if a < b then b else a }

  function Power2(n: nat): (r: nat)
    ensures r >= 1
  {
    if n == 0 then 1 else 2 * Power2(n - 1)
  }

  /** No decision of the tree is a reach test. */
  predicate InRangeOnly(t: Tree) {
    match t
    case Leaf(_) => true
    case Decision(test, whenTrue, whenFalse) => test.InRange? && InRangeOnly(whenTrue) && InRangeOnly(whenFalse)
  }

  /** No leaf of the tree writes to the enemy's record. */
  predicate ReadOnly(t: Tree) {
    forall a :: a in Leaves(t) ==> !Writes(a)
  }

  /**
   * Whatever the tree answers is what one of its leaves answers, for the
   * record as it stood when that leaf was reached.
   */
  lemma {:induction false} AnswerFromLeaf(t: Tree, enemy: Enemy, s: Steering)
    ensures exists a, before :: a in Leaves(t) && Act(a, before, s).0 == Evaluate(t, enemy, s).result
  {
    match t
    case Leaf(a) =>
      assert Act(a, enemy, s).0 == Evaluate(t, enemy, s).result;
    case Decision(test, whenTrue, whenFalse) =>
      var probe := TestValue(test, whenFalse, enemy, s);
      if probe.value {
        AnswerFromLeaf(whenTrue, probe.enemy, s);
        var a, before :| a in Leaves(whenTrue) && Act(a, before, s).0 == Evaluate(whenTrue, probe.enemy, s).result;
        assert a in Leaves(t);
      } else {
        AnswerFromLeaf(whenFalse, probe.enemy, s);
        var a, before :| a in Leaves(whenFalse) && Act(a, before, s).0 == Evaluate(whenFalse, probe.enemy, s).result;
        assert a in Leaves(t);
      }
  }

  /** A tree whose actions only read the record leaves it as it was. */
  lemma {:induction false} ReadOnlyKeepsEnemy(t: Tree, enemy: Enemy, s: Steering)
    requires ReadOnly(t)
    ensures Evaluate(t, enemy, s).enemy == enemy
  {
    match t
    case Leaf(a) =>
      assert a in Leaves(t);
    case Decision(test, whenTrue, whenFalse) =>
      assert ReadOnly(whenTrue) && ReadOnly(whenFalse) by {
        forall a | a in Leaves(whenTrue) ensures a in Leaves(t) { }
        forall a | a in Leaves(whenFalse) ensures a in Leaves(t) { }
      }
      ReadOnlyKeepsEnemy(whenTrue, enemy, s);
      ReadOnlyKeepsEnemy(whenFalse, enemy, s);
  }

  /**
   * With injected tests only, each decision on the way down runs its test
   * once, so at most `Height(t)` tests are run and the untaken branch is
   * never consulted.
   */
  lemma {:induction false} InRangeTestsWithinHeight(t: Tree, enemy: Enemy, s: Steering)
    requires InRangeOnly(t)
    ensures Evaluate(t, enemy, s).tests <= Height(t)
  {
    match t
    case Leaf(_) =>
    case Decision(test, whenTrue, whenFalse) =>
      InRangeTestsWithinHeight(whenTrue, enemy, s);
      InRangeTestsWithinHeight(whenFalse, enemy, s);
  }

  /** A decision on an injected test answers as the branch it picks, whatever the other branch is. */
  lemma UntakenBranchIgnored(test: Test, whenTrue: Tree, whenFalse: Tree, other: Tree, enemy: Enemy, s: Steering)
    requires test.InRange?
    ensures test.testFunction(test.enemyPos, test.playerPos) ==>
      Evaluate(Decision(test, whenTrue, whenFalse), enemy, s) == Evaluate(Decision(test, whenTrue, other), enemy, s)
    ensures !test.testFunction(test.enemyPos, test.playerPos) ==>
      Evaluate(Decision(test, whenTrue, whenFalse), enemy, s) == Evaluate(Decision(test, other, whenFalse), enemy, s)
    ensures Evaluate(Decision(test, whenTrue, whenFalse), enemy, s).result
         == (if test.testFunction(test.enemyPos, test.playerPos) then Evaluate(whenTrue, enemy, s)
             else Evaluate(whenFalse, enemy, s)).result
  {
  }

  /**
   * A reach test consults its false branch even when the true one is
   * taken, and consults it a second time when it is not, so in general the
   * number of tests grows with the number of nodes rather than the height.
   */
  lemma {:induction false} TestsBound(t: Tree, enemy: Enemy, s: Steering)
    ensures Evaluate(t, enemy, s).tests < Power2(Height(t))
  {
    match t
    case Leaf(_) =>
    case Decision(test, whenTrue, whenFalse) =>
      var h := Height(t) - 1;
      var probe := TestValue(test, whenFalse, enemy, s);
      TestsBound(whenTrue, probe.enemy, s);
      TestsBound(whenFalse, probe.enemy, s);
      TestsBound(whenFalse, enemy, s);
      PowerMonotone(Height(whenTrue), h);
      PowerMonotone(Height(whenFalse), h);
  }

  lemma {:induction false} PowerMonotone(a: nat, b: nat)
    requires a <= b
    ensures Power2(a) <= Power2(b)
    decreases b
  {
    if a < b {
      PowerMonotone(a, b - 1);
    }
  }

  /**
   * The tree an enemy chasing the player consults: attack when the player
   * is reached, otherwise arrive when the injected range test holds, else
   * patrol.
   */
  function ArriveTree(enemy: Enemy, player: Player, maxAcceleration: real, maxSpeed: real, arrivalRadius: real,
                      slowRadius: real, direction: string, inRange: (Vec2, Vec2) -> bool): Tree
  {
    var enemyPos, playerPos := Vec2(enemy.x, enemy.y), Vec2(player.x, player.y);
    Decision(PlayerReached(enemyPos, playerPos, arrivalRadius),
             Leaf(AttackAction(direction)),
             Decision(InRange(enemyPos, playerPos, inRange),
                      Leaf(ArriveAction(player, maxAcceleration, maxSpeed, arrivalRadius, slowRadius)),
                      Leaf(PatrolAction(direction))))
  }

  /**
   * The chasing tree answers "attack", an `Arrive` or "patrol", and nothing
   * else: "patrol" exactly when the range test fails; "attack" exactly when
   * it holds and the player is within the arrival radius; the `Arrive`,
   * from the enemy to the player, in between. The record is untouched, and
   * the range test runs twice unless the attack is chosen.
   */
  lemma ArriveTreeOutcome(enemy: Enemy, player: Player, maxAcceleration: real, maxSpeed: real, arrivalRadius: real,
                          slowRadius: real, direction: string, inRange: (Vec2, Vec2) -> bool, s: Steering,
                          distance: real)
    requires IsRoot(distance, LengthSq(Vec2(player.x - enemy.x, player.y - enemy.y)))
    ensures
      var d := Evaluate(ArriveTree(enemy, player, maxAcceleration, maxSpeed, arrivalRadius, slowRadius, direction,
                                   inRange), enemy, s);
      var near := inRange(Vec2(enemy.x, enemy.y), Vec2(player.x, player.y));
      && (d.result == Patrol <==> !near)
      && (d.result == Attack <==> near && distance <= arrivalRadius)
      && (d.result.ArriveBehaviour? <==> near && distance > arrivalRadius)
      && (d.result == Patrol || d.result == Attack || d.result.ArriveBehaviour?)
      && (d.result.ArriveBehaviour? ==>
            d.result == ArriveBehaviour(Pose(Vec2(enemy.x, enemy.y), enemy.orientation),
                                        Pose(Vec2(player.x, player.y), player.orientation),
                                        maxAcceleration, maxSpeed, arrivalRadius, slowRadius))
      && d.enemy == enemy
      && d.tests == (if d.result == Attack then 2 else 3)
  {
    var enemyPos, playerPos := Vec2(enemy.x, enemy.y), Vec2(player.x, player.y);
    assert Sub(playerPos, enemyPos) == Vec2(player.x - enemy.x, player.y - enemy.y);
    WithinMeans(Sub(playerPos, enemyPos), arrivalRadius, distance);
    var t := ArriveTree(enemy, player, maxAcceleration, maxSpeed, arrivalRadius, slowRadius, direction, inRange);
    var arrive := ArriveBehaviour(Pose(enemyPos, enemy.orientation), Pose(playerPos, player.orientation),
                                  maxAcceleration, maxSpeed, arrivalRadius, slowRadius);
    var chase := Evaluate(t.whenFalse, enemy, s);
    assert Evaluate(t.whenFalse.whenTrue, enemy, s) == Decided(arrive, enemy, 0);
    assert Evaluate(t.whenFalse.whenFalse, enemy, s) == Decided(Patrol, enemy, 0);
    assert TestValue(t.whenFalse.test, t.whenFalse.whenFalse, enemy, s) == Probe(inRange(enemyPos, playerPos), enemy, 1);
    assert chase == if inRange(enemyPos, playerPos) then Decided(arrive, enemy, 1) else Decided(Patrol, enemy, 1);
    assert TestValue(t.test, t.whenFalse, enemy, s)
        == Probe(chase.result.ArriveBehaviour? && Within(Sub(playerPos, enemyPos), arrivalRadius), enemy, chase.tests + 1);
    assert Evaluate(t.whenTrue, enemy, s) == Decided(Attack, enemy, 0);
  }

  /**
   * With the zone test of the third game plugged in, the chasing enemy
   * patrols unless the player is within 150 and the enemy between x = 700
   * and x = 1400, attacks when also within the arrival radius, and arrives
   * otherwise.
   */
  lemma ArriveTreeInZone(enemy: Enemy, player: Player, maxAcceleration: real, maxSpeed: real, arrivalRadius: real,
                         slowRadius: real, direction: string, s: Steering, distance: real)
    requires IsRoot(distance, LengthSq(Vec2(player.x - enemy.x, player.y - enemy.y)))
    ensures
      var d := Evaluate(ArriveTree(enemy, player, maxAcceleration, maxSpeed, arrivalRadius, slowRadius, direction,
                                   Game.TestPlayerInRangeAndZone), enemy, s);
      var inZone := distance <= 150.0 && 700.0 <= enemy.x <= 1400.0;
      && (d.result == Patrol <==> !inZone)
      && (d.result == Attack <==> inZone && distance <= arrivalRadius)
      && (d.result.ArriveBehaviour? <==> inZone && distance > arrivalRadius)
  {
    ArriveTreeOutcome(enemy, player, maxAcceleration, maxSpeed, arrivalRadius, slowRadius, direction,
                      Game.TestPlayerInRangeAndZone, s, distance);
    assert Sub(Vec2(player.x, player.y), Vec2(enemy.x, enemy.y)) == Vec2(player.x - enemy.x, player.y - enemy.y);
    Game.TestPlayerInRangeAndZoneMeans(Vec2(enemy.x, enemy.y), Vec2(player.x, player.y), distance);
  }

  /**
   * The same tree built from kinematic actions: attack when reached,
   * otherwise a horizontal `KinematicArrive` while the range test holds,
   * else patrol.
   */
  function KinematicArriveTree(enemy: Enemy, target: Vec2, maxSpeed: real, arrivalRadius: real, direction: string,
                               inRange: (Vec2, Vec2) -> bool): Tree
  {
    var enemyPos := Vec2(enemy.x, enemy.y);
    Decision(KinematicPlayerReached(enemyPos, target, arrivalRadius),
             Leaf(AttackAction(direction)),
             Decision(InRange(enemyPos, target, inRange),
                      Leaf(KinematicArriveAction(target, maxSpeed, arrivalRadius)),
                      Leaf(PatrolAction(direction))))
  }

  /** The outcomes of the kinematic chasing tree, as for the steering one. */
  lemma KinematicArriveTreeOutcome(enemy: Enemy, target: Vec2, maxSpeed: real, arrivalRadius: real, direction: string,
                                   inRange: (Vec2, Vec2) -> bool, s: Steering, distance: real)
    requires IsRoot(distance, LengthSq(Sub(target, Vec2(enemy.x, enemy.y))))
    ensures
      var d := Evaluate(KinematicArriveTree(enemy, target, maxSpeed, arrivalRadius, direction, inRange), enemy, s);
      var near := inRange(Vec2(enemy.x, enemy.y), target);
      && (d.result == Patrol <==> !near)
      && (d.result == Attack <==> near && distance <= arrivalRadius)
      && (d.result.KinematicArriveBehaviour? <==> near && distance > arrivalRadius)
      && (d.result.KinematicArriveBehaviour? ==>
            d.result == KinematicArriveBehaviour(Pose(Vec2(enemy.x, enemy.y), 0.0), Pose(Vec2(target.x, enemy.y), 0.0),
                                                 maxSpeed, arrivalRadius))
      && d.enemy == enemy
  {
    var enemyPos := Vec2(enemy.x, enemy.y);
    WithinMeans(Sub(target, enemyPos), arrivalRadius, distance);
    var t := KinematicArriveTree(enemy, target, maxSpeed, arrivalRadius, direction, inRange);
    var arrive := KinematicArriveBehaviour(Pose(enemyPos, 0.0), Pose(Vec2(target.x, enemy.y), 0.0), maxSpeed, arrivalRadius);
    var chase := Evaluate(t.whenFalse, enemy, s);
    assert Evaluate(t.whenFalse.whenTrue, enemy, s) == Decided(arrive, enemy, 0);
    assert Evaluate(t.whenFalse.whenFalse, enemy, s) == Decided(Patrol, enemy, 0);
    assert TestValue(t.whenFalse.test, t.whenFalse.whenFalse, enemy, s) == Probe(inRange(enemyPos, target), enemy, 1);
    assert chase == if inRange(enemyPos, target) then Decided(arrive, enemy, 1) else Decided(Patrol, enemy, 1);
    assert TestValue(t.test, t.whenFalse, enemy, s)
        == Probe(chase.result.KinematicArriveBehaviour? && Within(Sub(target, enemyPos), arrivalRadius), enemy, chase.tests + 1);
    assert Evaluate(t.whenTrue, enemy, s) == Decided(Attack, enemy, 0);
  }
}
