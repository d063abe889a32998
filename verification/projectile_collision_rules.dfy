/** The rules offered a collision between a projectile and an asteroid.
    Every guard asks only that the asteroid be Alive (the split rule also
    that it be Big); the projectile itself is not consulted. The order the
    rules are offered in is a parameter: with each rule registered once,
    the lemmas show that the outcome depends only on which rules come
    before the asteroid-destroying one. */
module ProjectileCollisionRules {
  import opened Geometry
  import opened Bodies
  import opened GameWorld
  import opened RuleOrder

  /** The collision event, in canonical order: the projectile, then the asteroid. */
  datatype ProjectileHitsAsteroid = ProjectileHitsAsteroid(projectile: Projectile, asteroid: Asteroid)

  /** The shared objects the rules reach: the world and its HUD. */
  datatype Context = Context(world: World, hud: GamePlayHud)

  datatype Rule =
    | ThenScore
    | ThenRemoveProjectile
    | ThenDestroyAsteroid
    | TheFallAsteroidAppart

  /** How far, in degrees, each half of a split asteroid turns away from
      the original heading. */
  const SplitAngle: real := 20.0

  /** Everything the rules read or change during one collision; `spawned`
      lists the asteroids requested from the entity factory so far. */
  datatype Hit = Hit(
    asteroid: AsteroidState,
    kind: AsteroidType,
    position: Vec,
    heading: real,
    scores: int,
    world: set<object>,
    spawned: seq<Spawn>)

  function ViewOf(e: ProjectileHitsAsteroid, c: Context): Hit
    reads e.asteroid, c.world, c.hud
  {
    Hit(e.asteroid.state, e.asteroid.kind, e.asteroid.position, e.asteroid.heading,
        c.hud.scores, c.world.entities, [])
  }

  function Members(asteroids: seq<Asteroid>): set<object>
  {
    set a: Asteroid | a in asteroids
  }

  lemma MembersAppend(s: seq<Asteroid>, t: seq<Asteroid>)
    ensures Members(s + t) == Members(s) + Members(t)
  {
    forall a: Asteroid | a in s + t ensures a in s || a in t {
      var k :| 0 <= k < |s + t| && (s + t)[k] == a;
      if k < |s| { assert s[k] == a; } else { assert t[k - |s|] == a; }
    }
  }

  /** The guard of each rule. */
  function ExecuteCondition(rule: Rule, v: Hit): (r: bool)
    ensures r ==> v.asteroid == AsteroidState.Alive
    ensures rule == TheFallAsteroidAppart ==> (r <==> v.asteroid == AsteroidState.Alive && v.kind == Big)
    ensures rule != TheFallAsteroidAppart ==> (r <==> v.asteroid == AsteroidState.Alive)
  {
    match rule
    case TheFallAsteroidAppart => v.asteroid == AsteroidState.Alive && v.kind == Big
    case _ => v.asteroid == AsteroidState.Alive
  }

  /** The two Medium halves of a split asteroid. */
  function Halves(position: Vec, heading: real): (r: seq<Spawn>)
    ensures |r| == 2
    ensures forall k :: 0 <= k < 2 ==> r[k].kind == Medium && r[k].position == position
    ensures r[0].heading == heading - SplitAngle && r[1].heading == heading + SplitAngle
  {
    [Spawn(Medium, position, heading - SplitAngle), Spawn(Medium, position, heading + SplitAngle)]
  }

  /** The action of each rule; `points` is the score table of the score
      manager. Each action changes exactly one thing. */
  function Act(rule: Rule, e: ProjectileHitsAsteroid, points: AsteroidType -> int, v: Hit): (r: Hit)
    ensures r.kind == v.kind && r.position == v.position && r.heading == v.heading
    ensures r.scores == (if rule == ThenScore then v.scores + points(v.kind) else v.scores)
    ensures r.world == (if rule == ThenRemoveProjectile then v.world - {e.projectile} else v.world)
    ensures r.asteroid == (if rule == ThenDestroyAsteroid then Destroyed else v.asteroid)
    ensures r.spawned == (if rule == TheFallAsteroidAppart then v.spawned + Halves(v.position, v.heading) else v.spawned)
  {
    match rule
    case ThenScore => v.(scores := v.scores + points(v.kind))
    case ThenRemoveProjectile => v.(world := v.world - {e.projectile})
    case ThenDestroyAsteroid => v.(asteroid := Destroyed)
    case TheFallAsteroidAppart => v.(spawned := v.spawned + Halves(v.position, v.heading))
  }

  function Offer(rule: Rule, e: ProjectileHitsAsteroid, points: AsteroidType -> int, v: Hit): Hit
  {
    if ExecuteCondition(rule, v) then Act(rule, e, points, v) else v
  }

  /** One rule offered this event, as a step of the fold. */
  function Step(e: ProjectileHitsAsteroid, points: AsteroidType -> int): (Rule, Hit) -> Hit
  {
    (rule, v) => Offer(rule, e, points, v)
  }

  /** The rules offered the event one after another, in the given order. */
  function Resolve(rules: seq<Rule>, e: ProjectileHitsAsteroid, points: AsteroidType -> int, v: Hit): Hit
  {
    Fold(rules, Step(e, points), v)
  }

  /** Once the asteroid is not Alive, no rule fires. */
  lemma {:induction false} ResolveInert(rules: seq<Rule>, e: ProjectileHitsAsteroid, points: AsteroidType -> int, v: Hit)
    requires v.asteroid != AsteroidState.Alive
    ensures Resolve(rules, e, points, v) == v
    decreases |rules|
  {
    if rules != [] {
      ResolveInert(rules[1..], e, points, v);
    }
  }

  /** Order matters: offered first, the asteroid-destroying rule turns off
      every other guard, so no score, no removal and no split follow. */
  lemma DestroyFirstSuppressesRest(rest: seq<Rule>, e: ProjectileHitsAsteroid, points: AsteroidType -> int, v: Hit)
    requires v.asteroid == AsteroidState.Alive
    ensures Resolve([ThenDestroyAsteroid] + rest, e, points, v) == v.(asteroid := Destroyed)
  {
    assert ([ThenDestroyAsteroid] + rest)[1..] == rest;
    ResolveInert(rest, e, points, v.(asteroid := Destroyed));
  }

  /** While the asteroid stays Alive, each rule present acts once and the
      effects do not depend on their order. */
  lemma {:induction false} LiveBranch(rules: seq<Rule>, e: ProjectileHitsAsteroid, points: AsteroidType -> int, v: Hit)
    requires v.asteroid == AsteroidState.Alive
    requires Distinct(rules) && ThenDestroyAsteroid !in rules
    ensures Resolve(rules, e, points, v)
         == v.(scores := if ThenScore in rules then v.scores + points(v.kind) else v.scores,
               world := if ThenRemoveProjectile in rules then v.world - {e.projectile} else v.world,
               spawned := if TheFallAsteroidAppart in rules && v.kind == Big then v.spawned + Halves(v.position, v.heading) else v.spawned)
    decreases |rules|
  {
    if rules != [] {
      DistinctTail(rules);
      LiveBranch(rules[1..], e, points, Offer(rules[0], e, points, v));
    }
  }

  /** In any order with each rule once, the rules before the
      asteroid-destroying one act as in `LiveBranch`, that rule destroys the
      asteroid, and the rules after it do nothing. */
  lemma DestroyAfterLiveRules(pre: seq<Rule>, post: seq<Rule>, e: ProjectileHitsAsteroid, points: AsteroidType -> int, v: Hit)
    requires v.asteroid == AsteroidState.Alive
    requires Distinct(pre) && ThenDestroyAsteroid !in pre
    ensures Resolve(pre + [ThenDestroyAsteroid] + post, e, points, v)
         == v.(scores := if ThenScore in pre then v.scores + points(v.kind) else v.scores,
               world := if ThenRemoveProjectile in pre then v.world - {e.projectile} else v.world,
               spawned := if TheFallAsteroidAppart in pre && v.kind == Big then v.spawned + Halves(v.position, v.heading) else v.spawned,
               asteroid := Destroyed)
  {
    FoldAppend(pre + [ThenDestroyAsteroid], post, Step(e, points), v);
    FoldAppend(pre, [ThenDestroyAsteroid], Step(e, points), v);
    LiveBranch(pre, e, points, v);
    var before := Resolve(pre, e, points, v);
    var after := Offer(ThenDestroyAsteroid, e, points, before);
    assert Resolve([ThenDestroyAsteroid], e, points, before) == after;
    ResolveInert(post, e, points, after);
  }

  /** A projectile hitting a live asteroid, with the asteroid-destroying rule
      offered after the other three: the score rises by the asteroid's
      points once, the projectile leaves the world, a Big asteroid yields
      exactly two Medium halves at its position turned 20 degrees either
      way, and the asteroid is destroyed. */
  lemma ProjectileHit(pre: seq<Rule>, post: seq<Rule>, e: ProjectileHitsAsteroid, points: AsteroidType -> int, v: Hit)
    requires v.asteroid == AsteroidState.Alive
    requires Distinct(pre) && ThenDestroyAsteroid !in pre
    requires ThenScore in pre && ThenRemoveProjectile in pre && TheFallAsteroidAppart in pre
    ensures Resolve(pre + [ThenDestroyAsteroid] + post, e, points, v)
         == v.(scores := v.scores + points(v.kind),
               world := v.world - {e.projectile},
               spawned := if v.kind == Big then v.spawned + Halves(v.position, v.heading) else v.spawned,
               asteroid := Destroyed)
  {
    DestroyAfterLiveRules(pre, post, e, points, v);
  }

  /** The split action: two new Medium asteroids from the entity factory,
      both added to the world. */
  method FallAsteroidAppart(e: ProjectileHitsAsteroid, world: World) returns (first: Asteroid, second: Asteroid)
    modifies world
    ensures fresh(first) && fresh(second) && first != second
    ensures [first.SpawnOf(), second.SpawnOf()] == Halves(e.asteroid.position, e.asteroid.heading)
    ensures first.state == AsteroidState.Alive && second.state == AsteroidState.Alive
    ensures world.entities == old(world.entities) + {first, second}
  {
    first := new Asteroid(Spawn(Medium, e.asteroid.position, e.asteroid.heading - SplitAngle));
    second := new Asteroid(Spawn(Medium, e.asteroid.position, e.asteroid.heading + SplitAngle));
    world.Add({first, second});
  }

  /** The actions, on the objects themselves; `created` are the asteroids
      the action brought into the world. */
  method ExecuteAction(rule: Rule, e: ProjectileHitsAsteroid, c: Context, points: AsteroidType -> int)
    returns (created: seq<Asteroid>)
    modifies e.asteroid, c.world, c.hud
    ensures var r := Act(rule, e, points, old(ViewOf(e, c)));
            && e.asteroid.state == r.asteroid
            && c.hud.scores == r.scores
            && c.world.entities == r.world + Members(created)
            && |created| == |r.spawned|
            && (forall k :: 0 <= k < |created| ==>
                  fresh(created[k]) && created[k].state == AsteroidState.Alive && created[k].SpawnOf() == r.spawned[k])
    ensures c.hud.lifes == old(c.hud.lifes)
    ensures e.asteroid.position == old(e.asteroid.position) && e.asteroid.heading == old(e.asteroid.heading)
  {
    created := [];
    match rule
    case ThenScore =>
      c.hud.scores := c.hud.scores + points(e.asteroid.kind);
    case ThenRemoveProjectile =>
      c.world.Remove(e.projectile);
    case ThenDestroyAsteroid =>
      e.asteroid.Destroy();
    case TheFallAsteroidAppart =>
      var first, second := FallAsteroidAppart(e, c.world);
      created := [first, second];
      assert first in created && second in created;
      assert Members(created) == {first, second};
  }

  /** The objects agree with the view `v`, the asteroids in `spawned` being
      the live ones the view's spawn requests brought into the world. */
  ghost predicate Mirrors(v: Hit, e: ProjectileHitsAsteroid, c: Context, spawned: seq<Asteroid>)
    reads e.asteroid, c.world, c.hud, spawned
  {
    && v.kind == e.asteroid.kind && v.position == e.asteroid.position && v.heading == e.asteroid.heading
    && v.asteroid == e.asteroid.state
    && v.scores == c.hud.scores
    && c.world.entities == v.world + Members(spawned)
    && |spawned| == |v.spawned|
    && (forall k :: 0 <= k < |spawned| ==> spawned[k].SpawnOf() == v.spawned[k] && spawned[k].state == AsteroidState.Alive)
  }

  /** One rule offered the event on the objects: its action runs when its
      guard holds, and the objects go on mirroring the fold. */
  method OfferTo(rule: Rule, e: ProjectileHitsAsteroid, c: Context, points: AsteroidType -> int,
                 ghost v: Hit, spawned: seq<Asteroid>)
    returns (spawnedAfter: seq<Asteroid>)
    requires Mirrors(v, e, c, spawned) && e.asteroid !in spawned
    modifies e.asteroid, c.world, c.hud
    ensures Mirrors(Offer(rule, e, points, v), e, c, spawnedAfter)
    ensures spawnedAfter[..|spawned|] == spawned
    ensures forall k :: |spawned| <= k < |spawnedAfter| ==> fresh(spawnedAfter[k])
    ensures c.hud.lifes == old(c.hud.lifes)
  {
    spawnedAfter := spawned;
    if ExecuteCondition(rule, ViewOf(e, c)) {
      assert ExecuteCondition(rule, v);
      var created := ExecuteAction(rule, e, c, points);
      MembersAppend(spawned, created);
      spawnedAfter := spawned + created;
    }
  }

  /** The rule engine's dispatch of one collision to the rules registered
      for it, in the given order; `spawned` are the asteroids it created. */
  method Dispatch(rules: seq<Rule>, e: ProjectileHitsAsteroid, c: Context, points: AsteroidType -> int)
    returns (spawned: seq<Asteroid>)
    modifies e.asteroid, c.world, c.hud
    ensures Mirrors(Resolve(rules, e, points, old(ViewOf(e, c))), e, c, spawned)
    ensures forall k :: 0 <= k < |spawned| ==> fresh(spawned[k])
    ensures c.hud.lifes == old(c.hud.lifes)
  {
    spawned := [];
    ghost var v := ViewOf(e, c);
    assert Members(spawned) == {};
    var i := 0;
    while i < |rules|
      invariant 0 <= i <= |rules|
      invariant c.hud.lifes == old(c.hud.lifes)
      invariant v == Resolve(rules[..i], e, points, old(ViewOf(e, c)))
      invariant forall k :: 0 <= k < |spawned| ==> fresh(spawned[k])
      invariant Mirrors(v, e, c, spawned)
    {
      FoldAppend(rules[..i], [rules[i]], Step(e, points), old(ViewOf(e, c)));
      assert rules[..i + 1] == rules[..i] + [rules[i]];
      var next := OfferTo(rules[i], e, c, points, v, spawned);
      forall k | 0 <= k < |next| ensures fresh(next[k]) {
        if k < |spawned| { assert next[k] == spawned[k]; }
      }
      spawned := next;
      v := Offer(rules[i], e, points, v);
      i := i + 1;
    }
    assert rules[..i] == rules;
  }
}
