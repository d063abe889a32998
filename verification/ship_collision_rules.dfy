/** The rules offered a collision between the player's ship and an asteroid.
    Every guard asks that both bodies be Alive; two rules also ask for lives
    left, two for none left. The rules are offered the event in one fixed
    order, taken as a parameter, and each guard is re-evaluated against
    what the earlier actions left; the lemmas show what the order decides. */
module ShipCollisionRules {
  import opened Ships
  import opened Bodies
  import opened GameWorld
  import opened RuleOrder

  /** The collision event, in canonical order: the ship, then the asteroid. */
  datatype ShipHitsAsteroid = ShipHitsAsteroid(ship: Ship, asteroid: Asteroid)

  /** The shared objects the rules reach: the world, its HUD, the screens. */
  datatype Context = Context(world: World, hud: GamePlayHud, screens: ScreenManager)

  datatype Rule =
    | ThenDestroyAsteroid
    | ThenReduceLifes
    | ThenDestroyPlayersShip
    | ThenRemovePlayersShipFromTheGame
    | ThenGameOver

  /** Everything the rules read or change during one collision. */
  datatype Collision = Collision(
    ship: StateObject,
    asteroid: AsteroidState,
    lifes: int,
    scores: int,
    world: set<object>,
    screens: seq<Screen>)

  function ViewOf(e: ShipHitsAsteroid, c: Context): Collision
    reads e.ship, e.asteroid, c.world, c.hud, c.screens
  {
    Collision(e.ship.state, e.asteroid.state, c.hud.lifes, c.hud.scores, c.world.entities, c.screens.screens)
  }

  predicate BothAlive(v: Collision)
  {
    Report(v.ship) == ShipState.Alive && v.asteroid == AsteroidState.Alive
  }

  predicate EnoughLifes(v: Collision)
  {
    BothAlive(v) && v.lifes > 0
  }

  predicate NotEnoughLifes(v: Collision)
  {
    BothAlive(v) && v.lifes <= 0
  }

  /** The guard of each rule. */
  function ExecuteCondition(rule: Rule, v: Collision): (r: bool)
    ensures r ==> BothAlive(v)
    ensures rule == ThenDestroyAsteroid ==> (r <==> BothAlive(v))
    ensures rule == ThenReduceLifes || rule == ThenDestroyPlayersShip ==> (r <==> BothAlive(v) && v.lifes > 0)
    ensures rule == ThenRemovePlayersShipFromTheGame || rule == ThenGameOver ==> (r <==> BothAlive(v) && v.lifes <= 0)
  {
    match rule
    case ThenDestroyAsteroid => BothAlive(v)
    case ThenReduceLifes => EnoughLifes(v)
    case ThenDestroyPlayersShip => EnoughLifes(v)
    case ThenRemovePlayersShipFromTheGame => NotEnoughLifes(v)
    case ThenGameOver => NotEnoughLifes(v)
  }

  /** The game-over rule either asks for a name, when the leaderboard takes
      the score, or shows the game-over message. */
  function GameOverScreen(highScore: bool): Screen
  {
    if highScore then HighScorePrompt else GameOverMessage
  }

  /** The action of each rule. Each changes exactly one thing, and none
      touches the score. */
  function Act(rule: Rule, e: ShipHitsAsteroid, canAddLeader: int -> bool, v: Collision): (r: Collision)
    ensures r.scores == v.scores
    ensures r.asteroid == (if rule == ThenDestroyAsteroid then Destroyed else v.asteroid)
    ensures r.lifes == (if rule == ThenReduceLifes then v.lifes - 1 else v.lifes)
    ensures r.ship == (if rule == ThenDestroyPlayersShip then DestroyState else v.ship)
    ensures r.world == (if rule == ThenRemovePlayersShipFromTheGame then v.world - {e.ship} else v.world)
    ensures r.screens == (if rule == ThenGameOver then v.screens + [GameOverScreen(canAddLeader(v.scores))] else v.screens)
  {
    match rule
    case ThenDestroyAsteroid => v.(asteroid := Destroyed)
    case ThenReduceLifes => v.(lifes := v.lifes - 1)
    case ThenDestroyPlayersShip => v.(ship := DestroyState)
    case ThenRemovePlayersShipFromTheGame => v.(world := v.world - {e.ship})
    case ThenGameOver => v.(screens := v.screens + [GameOverScreen(canAddLeader(v.scores))])
  }

  /** One rule offered the event: its action runs when its guard holds. */
  function Offer(rule: Rule, e: ShipHitsAsteroid, canAddLeader: int -> bool, v: Collision): Collision
  {
    if ExecuteCondition(rule, v) then Act(rule, e, canAddLeader, v) else v
  }

  /** One rule offered this event, as a step of the fold. */
  function Step(e: ShipHitsAsteroid, canAddLeader: int -> bool): (Rule, Collision) -> Collision
  {
    (rule, v) => Offer(rule, e, canAddLeader, v)
  }

  /** The rules offered the event one after another, in the given order. */
  function Resolve(rules: seq<Rule>, e: ShipHitsAsteroid, canAddLeader: int -> bool, v: Collision): Collision
  {
    Fold(rules, Step(e, canAddLeader), v)
  }

  /** Once either body is not Alive, no rule fires: the rest of the
      dispatch changes nothing. */
  lemma {:induction false} ResolveInert(rules: seq<Rule>, e: ShipHitsAsteroid, canAddLeader: int -> bool, v: Collision)
    requires !BothAlive(v)
    ensures Resolve(rules, e, canAddLeader, v) == v
    decreases |rules|
  {
    if rules != [] {
      ResolveInert(rules[1..], e, canAddLeader, v);
    }
  }

  /** A ship that is respawning (in Reset) does not count as Alive, so a
      collision with it has no effect at all. */
  lemma ResettingShipIsNotHit(rules: seq<Rule>, e: ShipHitsAsteroid, canAddLeader: int -> bool, v: Collision)
    requires v.ship.ResetState?
    ensures Resolve(rules, e, canAddLeader, v) == v
  {
    ResolveInert(rules, e, canAddLeader, v);
  }

  /** With both bodies Alive, exactly one of "lives left" and "no lives
      left" holds. */
  lemma GuardsPartition(v: Collision)
    ensures !(EnoughLifes(v) && NotEnoughLifes(v))
    ensures BothAlive(v) ==> EnoughLifes(v) || NotEnoughLifes(v)
  {
  }

  /** After the ship-destroying rule fires, no later guard holds, so the
      rules after it in the order do nothing. */
  lemma DestroyedShipEndsDispatch(rest: seq<Rule>, e: ShipHitsAsteroid, canAddLeader: int -> bool, v: Collision)
    requires EnoughLifes(v)
    ensures forall rule :: !ExecuteCondition(rule, Act(ThenDestroyPlayersShip, e, canAddLeader, v))
    ensures Resolve([ThenDestroyPlayersShip] + rest, e, canAddLeader, v) == v.(ship := DestroyState)
  {
    assert ([ThenDestroyPlayersShip] + rest)[1..] == rest;
    ResolveInert(rest, e, canAddLeader, v.(ship := DestroyState));
  }

  /** Without the life-reducing rule, the lives are untouched. */
  lemma {:induction false} LifesOnlyFromReduce(rules: seq<Rule>, e: ShipHitsAsteroid, canAddLeader: int -> bool, v: Collision)
    requires ThenReduceLifes !in rules
    ensures Resolve(rules, e, canAddLeader, v).lifes == v.lifes
    decreases |rules|
  {
    if rules != [] {
      LifesOnlyFromReduce(rules[1..], e, canAddLeader, Offer(rules[0], e, canAddLeader, v));
    }
  }

  /** With each rule registered once, one collision costs at most one life
      and never adds one. */
  lemma {:induction false} AtMostOneLifeLost(rules: seq<Rule>, e: ShipHitsAsteroid, canAddLeader: int -> bool, v: Collision)
    requires Distinct(rules)
    ensures v.lifes - 1 <= Resolve(rules, e, canAddLeader, v).lifes <= v.lifes
    decreases |rules|
  {
    if rules != [] {
      DistinctTail(rules);
      var next := Offer(rules[0], e, canAddLeader, v);
      if rules[0] == ThenReduceLifes {
        LifesOnlyFromReduce(rules[1..], e, canAddLeader, next);
      } else {
        AtMostOneLifeLost(rules[1..], e, canAddLeader, next);
      }
    }
  }

  /** Whatever the order, a collision that destroys a live ship leaves the
      player at least one life: the destroy rule needs lives left, and
      once the ship is destroyed the life-reducing rule no longer fires. */
  lemma {:induction false} DestroyedShipKeepsALife(rules: seq<Rule>, e: ShipHitsAsteroid, canAddLeader: int -> bool, v: Collision)
    requires v.ship == AliveState || (v.ship == DestroyState && v.lifes > 0)
    ensures var r := Resolve(rules, e, canAddLeader, v);
            r.ship == AliveState || (r.ship == DestroyState && r.lifes > 0)
    decreases |rules|
  {
    if rules != [] {
      DestroyedShipKeepsALife(rules[1..], e, canAddLeader, Offer(rules[0], e, canAddLeader, v));
    }
  }

  /** Order matters: when the destroy rule comes before every life-reducing
      rule, a ship with lives left never loses one. */
  lemma DestroyBeforeReduceSparesLife(pre: seq<Rule>, post: seq<Rule>, e: ShipHitsAsteroid, canAddLeader: int -> bool, v: Collision)
    requires EnoughLifes(v)
    requires ThenReduceLifes !in pre
    ensures Resolve(pre + [ThenDestroyPlayersShip] + post, e, canAddLeader, v).lifes == v.lifes
  {
    FoldAppend(pre + [ThenDestroyPlayersShip], post, Step(e, canAddLeader), v);
    FoldAppend(pre, [ThenDestroyPlayersShip], Step(e, canAddLeader), v);
    LifesOnlyFromReduce(pre, e, canAddLeader, v);
    var before := Resolve(pre, e, canAddLeader, v);
    var after := Offer(ThenDestroyPlayersShip, e, canAddLeader, before);
    assert Resolve([ThenDestroyPlayersShip], e, canAddLeader, before) == after;
    if EnoughLifes(before) {
      ResolveInert(post, e, canAddLeader, after);
    } else {
      ResolveInert(post, e, canAddLeader, before);
    }
  }

  /** Order matters: at the last life, with the life-reducing rule offered
      first and the asteroid-destroying rule after both terminal rules, the
      lives drop to zero, which turns the destroy guard off and the
      terminal guards on: the ship is taken out of the world (still Alive),
      the game-over screen opens once and the asteroid is destroyed. */
  lemma ReduceFirstAtLastLife(pre: seq<Rule>, post: seq<Rule>, e: ShipHitsAsteroid, canAddLeader: int -> bool, v: Collision)
    requires v.ship == AliveState && v.asteroid == AsteroidState.Alive && v.lifes == 1
    requires Distinct(pre) && ThenDestroyAsteroid !in pre
    requires ThenRemovePlayersShipFromTheGame in pre && ThenGameOver in pre
    ensures Resolve([ThenReduceLifes] + (pre + [ThenDestroyAsteroid] + post), e, canAddLeader, v)
         == v.(lifes := 0,
               world := v.world - {e.ship},
               screens := v.screens + [GameOverScreen(canAddLeader(v.scores))],
               asteroid := Destroyed)
  {
    var rest := pre + [ThenDestroyAsteroid] + post;
    assert ([ThenReduceLifes] + rest)[1..] == rest;
    TerminalCollision(pre, post, e, canAddLeader, Offer(ThenReduceLifes, e, canAddLeader, v));
  }

  /** With no lives left and the asteroid-destroying rule absent, only the
      two terminal rules act: the ship leaves the world and the game-over
      screen opens, each at most once. */
  lemma {:induction false} TerminalBranch(rules: seq<Rule>, e: ShipHitsAsteroid, canAddLeader: int -> bool, v: Collision)
    requires NotEnoughLifes(v)
    requires Distinct(rules) && ThenDestroyAsteroid !in rules
    ensures Resolve(rules, e, canAddLeader, v)
         == v.(world := if ThenRemovePlayersShipFromTheGame in rules then v.world - {e.ship} else v.world,
               screens := if ThenGameOver in rules then v.screens + [GameOverScreen(canAddLeader(v.scores))] else v.screens)
    decreases |rules|
  {
    if rules != [] {
      DistinctTail(rules);
      TerminalBranch(rules[1..], e, canAddLeader, Offer(rules[0], e, canAddLeader, v));
    }
  }

  /** The terminal collision: with no lives left, in any order that offers
      the asteroid-destroying rule after the others, the ship is removed from
      the world but not destroyed, the lives stay, the asteroid is destroyed
      and the game-over screen opens once. */
  lemma TerminalCollision(pre: seq<Rule>, post: seq<Rule>, e: ShipHitsAsteroid, canAddLeader: int -> bool, v: Collision)
    requires NotEnoughLifes(v)
    requires Distinct(pre) && ThenDestroyAsteroid !in pre
    requires ThenRemovePlayersShipFromTheGame in pre && ThenGameOver in pre
    ensures Resolve(pre + [ThenDestroyAsteroid] + post, e, canAddLeader, v)
         == v.(world := v.world - {e.ship},
               screens := v.screens + [GameOverScreen(canAddLeader(v.scores))],
               asteroid := Destroyed)
  {
    FoldAppend(pre + [ThenDestroyAsteroid], post, Step(e, canAddLeader), v);
    FoldAppend(pre, [ThenDestroyAsteroid], Step(e, canAddLeader), v);
    TerminalBranch(pre, e, canAddLeader, v);
    var before := Resolve(pre, e, canAddLeader, v);
    var after := Offer(ThenDestroyAsteroid, e, canAddLeader, before);
    assert Resolve([ThenDestroyAsteroid], e, canAddLeader, before) == after;
    ResolveInert(post, e, canAddLeader, after);
  }

  /** The actions, on the objects themselves. */
  method ExecuteAction(rule: Rule, e: ShipHitsAsteroid, c: Context, canAddLeader: int -> bool)
    modifies e.ship, e.asteroid, c.world, c.hud, c.screens
    ensures ViewOf(e, c) == Act(rule, e, canAddLeader, old(ViewOf(e, c)))
    ensures e.ship.Data() == old(e.ship.Data()).(state := e.ship.state)
    ensures e.asteroid.position == old(e.asteroid.position) && e.asteroid.heading == old(e.asteroid.heading)
  {
    match rule
    case ThenDestroyAsteroid =>
      e.asteroid.Destroy();
    case ThenReduceLifes =>
      c.hud.lifes := c.hud.lifes - 1;
    case ThenDestroyPlayersShip =>
      e.ship.Destroy();
    case ThenRemovePlayersShipFromTheGame =>
      c.world.Remove(e.ship);
    case ThenGameOver =>
      if canAddLeader(c.hud.scores) {
        c.screens.AddScreen(HighScorePrompt);
      } else {
        c.screens.AddScreen(GameOverMessage);
      }
  }

  /** The rule engine's dispatch of one collision to the rules registered
      for it, in the given order. */
  method Dispatch(rules: seq<Rule>, e: ShipHitsAsteroid, c: Context, canAddLeader: int -> bool)
    modifies e.ship, e.asteroid, c.world, c.hud, c.screens
    ensures ViewOf(e, c) == Resolve(rules, e, canAddLeader, old(ViewOf(e, c)))
    ensures e.ship.Data() == old(e.ship.Data()).(state := e.ship.state)
    ensures e.asteroid.position == old(e.asteroid.position) && e.asteroid.heading == old(e.asteroid.heading)
  {
    var i := 0;
    while i < |rules|
      invariant 0 <= i <= |rules|
      invariant ViewOf(e, c) == Resolve(rules[..i], e, canAddLeader, old(ViewOf(e, c)))
      invariant e.ship.Data() == old(e.ship.Data()).(state := e.ship.state)
      invariant e.asteroid.position == old(e.asteroid.position) && e.asteroid.heading == old(e.asteroid.heading)
    {
      FoldAppend(rules[..i], [rules[i]], Step(e, canAddLeader), old(ViewOf(e, c)));
      assert rules[..i + 1] == rules[..i] + [rules[i]];
      if ExecuteCondition(rules[i], ViewOf(e, c)) {
        ExecuteAction(rules[i], e, c, canAddLeader);
      }
      i := i + 1;
    }
    assert rules[..i] == rules;
  }
}
