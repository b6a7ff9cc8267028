/**
 * The actions at the leaves of the enemies' decision trees and what each
 * yields when it is consulted. An action keeps a reference to its enemy's
 * record (a dictionary); here that record is passed in and its new value is
 * returned next to the action's result.
 */
module Decisions {
  import opened Vectors
  import opened KinematicFlee

  /** The keys of an enemy's record that the actions read or write. */
  datatype Enemy = Enemy(x: real, y: real, orientation: real, isAttacking: bool)

  /** The player as the actions receive it: `(x, y, orientation)`. */
  datatype Player = Player(x: real, y: real, orientation: real)

  /**
   * A freshly built `Static` or `Kinematic`: a position and an orientation
   * (the velocity and rotation of a new `Kinematic` are zero).
   */
  datatype Pose = Pose(position: Vec2, orientation: real)

  /**
   * What `make_decision` returns: one of the strings, `None`, the node
   * itself (the base `Action`), or a steering behaviour recorded by the
   * arguments it was constructed with.
   */
  datatype Result =
    | Patrol
    | Attack
    | Find
    | NoBehaviour
    | ThePlainAction
    | ArriveBehaviour(character: Pose, target: Pose, maxAcceleration: real, maxSpeed: real,
                      arrivalRadius: real, slowRadius: real)
    | KinematicArriveBehaviour(character: Pose, target: Pose, maxSpeed: real, arrivalRadius: real)
    | FaceBehaviour(character: Pose, target: Pose, maxAngularAcceleration: real, maxRotation: real,
                    targetRadius: real, slowRadius: real)
    | FleeBehaviour(character: Pose, target: Pose, maxSpeed: real)
    | KinematicFleeBehaviour(character: Pose, target: Pose, maxSpeed: real, maxDistance: real,
                             screenWidth: int, screenHeight: int)

  /**
   * The actions, by the fields their `make_decision` can depend on. Sprite
   * lists are not among them and are left out.
   */
  datatype Action =
    | PlainAction
    | ArriveAction(player: Player, maxAcceleration: real, maxSpeed: real, arrivalRadius: real, slowRadius: real)
    | KinematicArriveAction(target: Vec2, maxSpeed: real, arrivalRadius: real)
    | PatrolAction(direction: string)
    | AttackAction(direction: string)
    | FinderAction(player: Player)
    | FaceAction(player: Player, maxAngularAcceleration: real, maxRotation: real, targetRadius: real, slowRadius: real)
    | WanderAction(player: Player)
    | EnemyAttackAction(direction: string)
    | FleeAction(player: Player, maxSpeed: real, maxDistance: real, screenWidth: int, screenHeight: int,
                 minX: real, maxX: real)
    | KinematicFleeAction(target: Vec2, maxSpeed: real, maxDistance: real, screenWidth: int, screenHeight: int,
                          minX: real, maxX: real)

  /**
   * What the consulted behaviours compute that the actions go on to use:
   * the maths library, and the linear part of `Flee.get_steering` as a
   * function of that behaviour's constructor arguments (its code is not
   * part of this model).
   */
  datatype Steering = Steering(m: Maths, fleeLinear: (Pose, Pose, real) -> Vec2)

  /** `sqrt(d.x² + d.y²) <= radius`, without the square root. */
  predicate Within(d: Vec2, radius: real) {
    radius >= 0.0 && LengthSq(d) <= radius * radius
  }

  lemma WithinMeans(d: Vec2, radius: real, distance: real)
    requires IsRoot(distance, LengthSq(d))
    ensures Within(d, radius) <==> distance <= radius
  {
    RootAtMost(distance, LengthSq(d), radius);
  }

  /** `Kinematic(Vector2(enemy["x"], enemy["y"]), enemy["orientation"])`. */
  function EnemyKinematic(enemy: Enemy): Pose {
    Pose(Vec2(enemy.x, enemy.y), enemy.orientation)
  }

  /** `Kinematic(Vector2(player[0], player[1]), player[2])`. */
  function PlayerKinematic(player: Player): Pose {
    Pose(Vec2(player.x, player.y), player.orientation)
  }

  /** An action that moves an enemy or marks it as attacking. */
  predicate Writes(a: Action) {
    a.EnemyAttackAction? || a.FleeAction? || a.KinematicFleeAction?
  }

  /**
   * `FleeAction.make_decision`: within `maxDistance` of the player the enemy
   * flees, and is moved by the flee steering unless that would take its x
   * out of `[minX, maxX]`; further away the answer is `None`.
   */
  function FleeDecision(a: Action, enemy: Enemy, s: Steering): (r: (Result, Enemy))
    requires a.FleeAction?
    ensures r.1 == enemy || (r.1 == enemy.(x := r.1.x, y := r.1.y) && a.minX <= r.1.x <= a.maxX)
  {
    var character := EnemyKinematic(enemy);
    var target := Pose(Vec2(a.player.x, a.player.y), 0.0);
    if Within(Vec2(enemy.x - a.player.x, enemy.y - a.player.y), a.maxDistance) then
      var linear := s.fleeLinear(character, target, a.maxSpeed);
      var newX, newY := enemy.x + linear.x, enemy.y + linear.y;
      (FleeBehaviour(character, target, a.maxSpeed),
       if a.minX <= newX <= a.maxX then enemy.(x := newX, y := newY) else enemy)
    else
      (NoBehaviour, enemy)
  }

  /**
   * `KinematicFleeAction.make_decision`: the same shape, driven by the
   * kinematic flee's velocity; only x moves, since y is written back with
   * the enemy's own unchanged y. The returned behaviour's character has
   * been turned by `get_steering`.
   */
  function KinematicFleeDecision(a: Action, enemy: Enemy, s: Steering): (r: (Result, Enemy))
    requires a.KinematicFleeAction?
    ensures r.1 == enemy || (r.1 == enemy.(x := r.1.x) && a.minX <= r.1.x <= a.maxX)
  {
    var position := Vec2(enemy.x, enemy.y);
    if Within(Sub(position, a.target), a.maxDistance) then
      var velocity := KinematicFleeVelocity(a, enemy, s.m);
      var newX := enemy.x + velocity.x;
      (KinematicFleeBehaviour(Pose(position, FleeOrientation(0.0, velocity, s.m)), Pose(a.target, 0.0),
                              a.maxSpeed, a.maxDistance, a.screenWidth, a.screenHeight),
       if a.minX <= newX <= a.maxX then enemy.(x := newX, y := position.y) else enemy)
    else
      (NoBehaviour, enemy)
  }

  /** The velocity `KinematicFlee.get_steering` returns for this action's enemy and target. */
  function KinematicFleeVelocity(a: Action, enemy: Enemy, m: Maths): Vec2
    requires a.KinematicFleeAction?
  {
    var position := Vec2(enemy.x, enemy.y);
    FleeVelocity(Sub(position, a.target), EdgeForce(position, a.screenWidth as real, a.screenHeight as real, a.maxSpeed),
                 a.maxSpeed, m)
  }

  /**
   * `make_decision` of each action. Only the attacking and fleeing actions
   * touch the record: the first sets `is_attacking`, the others move the
   * enemy, never outside their x range, and nothing changes its orientation.
   */
  function Act(a: Action, enemy: Enemy, s: Steering): (r: (Result, Enemy))
    ensures !Writes(a) ==> r.1 == enemy
    ensures r.1.orientation == enemy.orientation
    ensures r.1.isAttacking == (enemy.isAttacking || a.EnemyAttackAction?)
    ensures (a.FleeAction? || a.KinematicFleeAction?) && r.1 != enemy ==> a.minX <= r.1.x <= a.maxX
    ensures !(a.FleeAction? || a.KinematicFleeAction?) ==> r.1.x == enemy.x && r.1.y == enemy.y
    ensures a.KinematicFleeAction? ==> r.1.y == enemy.y
  {
    match a
    case PlainAction => (ThePlainAction, enemy)
    case ArriveAction(player, maxAcceleration, maxSpeed, arrivalRadius, slowRadius) =>
      (ArriveBehaviour(EnemyKinematic(enemy), PlayerKinematic(player), maxAcceleration, maxSpeed, arrivalRadius, slowRadius),
       enemy)
    case KinematicArriveAction(target, maxSpeed, arrivalRadius) =>
      (KinematicArriveBehaviour(Pose(Vec2(enemy.x, enemy.y), 0.0), Pose(Vec2(target.x, enemy.y), 0.0),
                                maxSpeed, arrivalRadius),
       enemy)
    case PatrolAction(_) => (Patrol, enemy)
    case AttackAction(_) => (Attack, enemy)
    case FinderAction(_) => (Find, enemy)
    case FaceAction(player, maxAngularAcceleration, maxRotation, targetRadius, slowRadius) =>
      (FaceBehaviour(EnemyKinematic(enemy), PlayerKinematic(player), maxAngularAcceleration, maxRotation,
                     targetRadius, slowRadius),
       enemy)
    case WanderAction(_) => (Find, enemy)
    case EnemyAttackAction(_) => (Attack, enemy.(isAttacking := true))
    case FleeAction(_, _, _, _, _, _, _) => FleeDecision(a, enemy, s)
    case KinematicFleeAction(_, _, _, _, _, _, _) => KinematicFleeDecision(a, enemy, s)
  }

  /**
   * The string actions answer by their kind alone: "patrol", "attack" and
   * "find" whatever their fields and whatever the record; the attack of the
   * flee and wander trees also marks the enemy as attacking, and nothing else.
   */
  lemma StringActions(a: Action, enemy: Enemy, s: Steering)
    ensures a.PatrolAction? ==> Act(a, enemy, s) == (Patrol, enemy)
    ensures a.AttackAction? ==> Act(a, enemy, s) == (Attack, enemy)
    ensures a.FinderAction? || a.WanderAction? ==> Act(a, enemy, s) == (Find, enemy)
    ensures a.EnemyAttackAction? ==> Act(a, enemy, s) == (Attack, Enemy(enemy.x, enemy.y, enemy.orientation, true))
    ensures a.PlainAction? ==> Act(a, enemy, s) == (ThePlainAction, enemy)
  {
  }

  /**
   * The behaviour actions build their character at the enemy's position and
   * their target at the player's, with the parameters in constructor order;
   * the kinematic arrival keeps the enemy's height, so the chase is
   * horizontal only.
   */
  lemma BehaviourActions(a: Action, enemy: Enemy, s: Steering)
    ensures a.ArriveAction? ==>
      Act(a, enemy, s).0 == ArriveBehaviour(Pose(Vec2(enemy.x, enemy.y), enemy.orientation),
                                            Pose(Vec2(a.player.x, a.player.y), a.player.orientation),
                                            a.maxAcceleration, a.maxSpeed, a.arrivalRadius, a.slowRadius)
    ensures a.FaceAction? ==>
      Act(a, enemy, s).0 == FaceBehaviour(Pose(Vec2(enemy.x, enemy.y), enemy.orientation),
                                          Pose(Vec2(a.player.x, a.player.y), a.player.orientation),
                                          a.maxAngularAcceleration, a.maxRotation, a.targetRadius, a.slowRadius)
    ensures a.KinematicArriveAction? ==>
      var r := Act(a, enemy, s).0;
      r.KinematicArriveBehaviour? && r.character.position.y == r.target.position.y == enemy.y &&
      r.character.orientation == r.target.orientation == 0.0 && r.target.position.x == a.target.x
  {
  }

  /**
   * `FleeAction`: `None` exactly when the player is further than
   * `maxDistance`, and then the record is untouched; otherwise a `Flee` from
   * the enemy's kinematic to an orientation-0 static at the player, and the
   * enemy either stays or moves by the steering's linear part with its x in
   * range.
   */
  lemma FleeActionMeans(a: Action, enemy: Enemy, s: Steering, distance: real)
    requires a.FleeAction?
    requires IsRoot(distance, LengthSq(Vec2(enemy.x - a.player.x, enemy.y - a.player.y)))
    ensures Act(a, enemy, s).0 == NoBehaviour <==> distance > a.maxDistance
    ensures distance > a.maxDistance ==> Act(a, enemy, s).1 == enemy
    ensures distance <= a.maxDistance ==>
      var character, target := Pose(Vec2(enemy.x, enemy.y), enemy.orientation), Pose(Vec2(a.player.x, a.player.y), 0.0);
      var linear := s.fleeLinear(character, target, a.maxSpeed);
      var moved := enemy.(x := enemy.x + linear.x, y := enemy.y + linear.y);
      Act(a, enemy, s) == (FleeBehaviour(character, target, a.maxSpeed),
                           if a.minX <= moved.x <= a.maxX then moved else enemy)
  {
    WithinMeans(Vec2(enemy.x - a.player.x, enemy.y - a.player.y), a.maxDistance, distance);
  }

  /** The screen size a `FleeAction` stores plays no part in its decision. */
  lemma FleeIgnoresScreen(player: Player, maxSpeed: real, maxDistance: real, width: int, height: int,
                          otherWidth: int, otherHeight: int, minX: real, maxX: real, enemy: Enemy, s: Steering)
    ensures Act(FleeAction(player, maxSpeed, maxDistance, width, height, minX, maxX), enemy, s)
         == Act(FleeAction(player, maxSpeed, maxDistance, otherWidth, otherHeight, minX, maxX), enemy, s)
  {
  }

  /**
   * `KinematicFleeAction`: `None` exactly when the target is further than
   * `maxDistance`, and then the record is untouched; otherwise a
   * `KinematicFlee` from the enemy's position carrying the action's speed,
   * distance and screen size.
   */
  lemma KinematicFleeActionMeans(a: Action, enemy: Enemy, s: Steering, distance: real)
    requires a.KinematicFleeAction?
    requires IsRoot(distance, LengthSq(Sub(Vec2(enemy.x, enemy.y), a.target)))
    ensures Act(a, enemy, s).0 == NoBehaviour <==> distance > a.maxDistance
    ensures distance > a.maxDistance ==> Act(a, enemy, s).1 == enemy
    ensures distance <= a.maxDistance ==>
      var r := Act(a, enemy, s).0;
      r.KinematicFleeBehaviour? && r.character.position == Vec2(enemy.x, enemy.y) &&
      r.target == Pose(a.target, 0.0) && r.maxSpeed == a.maxSpeed && r.maxDistance == a.maxDistance &&
      r.screenWidth == a.screenWidth && r.screenHeight == a.screenHeight
  {
    assert Act(a, enemy, s) == KinematicFleeDecision(a, enemy, s);
    WithinMeans(Sub(Vec2(enemy.x, enemy.y), a.target), a.maxDistance, distance);
  }

  /**
   * When a `KinematicFleeAction` flees, the enemy's x moves by the flee
   * velocity's x if that stays in `[minX, maxX]`, and y never changes.
   */
  lemma KinematicFleeMoves(a: Action, enemy: Enemy, s: Steering)
    requires a.KinematicFleeAction?
    requires Within(Sub(Vec2(enemy.x, enemy.y), a.target), a.maxDistance)
    ensures
      var newX := enemy.x + KinematicFleeVelocity(a, enemy, s.m).x;
      Act(a, enemy, s).1 == if a.minX <= newX <= a.maxX then enemy.(x := newX) else enemy
  {
    var newX := enemy.x + KinematicFleeVelocity(a, enemy, s.m).x;
    var d := KinematicFleeDecision(a, enemy, s);
    assert d.1 == if a.minX <= newX <= a.maxX then enemy.(x := newX, y := enemy.y) else enemy;
    assert Act(a, enemy, s) == d;
  }

  /**
   * `PlayerAttackingDecision.make_decision(p)`: the first action (flee or
   * wander) when the player is attacking, the attack action otherwise. The
   * node itself is the answer, not what it would decide.
   */
  function PlayerAttackingDecision(whenAttacking: Action, attackAction: Action, isPlayerAttacking: bool): (r: Action)
    ensures r == whenAttacking || r == attackAction
  {
    if isPlayerAttacking then whenAttacking else attackAction
  }

  /**
   * The choice of `PlayerAttackingDecision` in both directions, when the two
   * actions differ.
   */
  lemma PlayerAttackingChoice(whenAttacking: Action, attackAction: Action, isPlayerAttacking: bool)
    requires whenAttacking != attackAction
    ensures PlayerAttackingDecision(whenAttacking, attackAction, isPlayerAttacking) == whenAttacking
        <==> isPlayerAttacking
  {
  }
}
