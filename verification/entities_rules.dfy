/** The entity lifecycle rules: a created entity joins the world, a
    destroyed asteroid leaves it, and a ship that has reached Dead is put
    back at the centre of the viewport in Reset. None of the three is
    guarded, so each action applies to every event of its type. Together
    with the ship's own state machine the last rule closes the respawn
    loop; the lemmas at the end follow that loop end to end. */
module EntitiesRules {
  import opened Geometry
  import opened Ships
  import opened Bodies
  import opened GameWorld

  datatype EntityCreatedEvent = EntityCreatedEvent(entity: object)

  datatype AsteroidDestroyedEvent = AsteroidDestroyedEvent(asteroid: Asteroid)

  /** The drawable area; only its size is used. */
  datatype Viewport = Viewport(width: real, height: real)

  function Centre(viewport: Viewport): Vec
  {
    Vec(viewport.width / 2.0, viewport.height / 2.0)
  }

  /** The ship after the respawn rule: moved to the centre, then `Reset()`. */
  function Respawned(d: ShipData, viewport: Viewport): (r: ShipData)
    ensures r.state == ResetState(ResetDuration) && Report(r.state) == ShipState.Reset
    ensures r.position == Centre(viewport) && r.velocity == Zero
    ensures r.action == d.action && r.rotation == d.rotation
    ensures r.shots == d.shots && r.published == d.published
  {
    AfterReset(d.(position := Centre(viewport)))
  }

  /** Add the new entity to the world. */
  method AddItToTheWorld(e: EntityCreatedEvent, world: World)
    modifies world
    ensures world.entities == old(world.entities) + {e.entity}
  {
    world.Add({e.entity});
  }

  /** Remove the destroyed asteroid from the world. */
  method RemoveAsteroid(e: AsteroidDestroyedEvent, world: World)
    modifies world
    ensures world.entities == old(world.entities) - {e.asteroid}
  {
    world.Remove(e.asteroid);
  }

  /** Move the destroyed ship to the centre of the viewport and reset it. */
  method ResetPlayersShip(e: ShipDestroyedEvent, viewport: Viewport)
    modifies e.ship
    ensures e.ship.Data() == Respawned(old(e.ship.Data()), viewport)
    ensures e.ship.State() == ShipState.Reset
  {
    e.ship.position := Centre(viewport);
    e.ship.Reset();
  }

  /** The respawn loop, with the ship's event delivered after the ship has
      stored its Dead state: the update in which the debris effect
      completes leaves the ship Dead and publishes one event for it; the
      respawn rule, handling that event, puts the ship at the centre in
      Reset with zero velocity; and from there the ship counts down and is
      Alive again once more than the reset time has passed. */
  lemma RespawnLoop(ship: Ship, d: ShipData, time: real, viewport: Viewport, times: seq<real>)
    requires d.state == DestroyState
    requires NonNegative(times)
    ensures var dead := Updated(ship, d, time, true);
            && dead.state == DeadState
            && dead.published == d.published + [ShipDestroyedEvent(ship)]
            && var back := Respawned(dead, viewport);
               && back.state == ResetState(ResetDuration)
               && back.position == Centre(viewport) && back.velocity == Zero
               && Run(ship, back, times).state
                  == if Sum(times) <= ResetDuration then ResetState(ResetDuration - Sum(times)) else AliveState
  {
    var back := Respawned(Updated(ship, d, time, true), viewport);
    ResetCountdown(ship, back, times);
  }

  /** The completion callback of the debris effect as the ship performs it:
      the Dead state is constructed first, and constructing it publishes
      the ship's event; only afterwards is it stored as the ship's state.
      With a publisher that delivers synchronously, the respawn rule runs
      inside that construction, so the state it installs is then replaced
      by the Dead state. */
  function DeathWithSynchronousDelivery(ship: Ship, d: ShipData, viewport: Viewport): (r: ShipData)
    requires d.state == DestroyState
    ensures r.published == d.published + [ShipDestroyedEvent(ship)]
  {
    var announced := d.(published := d.published + [ShipDestroyedEvent(ship)]);
    Respawned(announced, viewport).(state := DeadState)
  }

  /** With synchronous delivery the respawn is lost: the ship ends Dead,
      although moved to the centre and stopped, and no further update
      brings it back. */
  lemma SynchronousRespawnIsOverwritten(ship: Ship, d: ShipData, viewport: Viewport, times: seq<real>)
    requires d.state == DestroyState
    ensures var r := DeathWithSynchronousDelivery(ship, d, viewport);
            && r.state == DeadState
            && r.position == Centre(viewport) && r.velocity == Zero
            && Run(ship, r, times) == r
  {
    DeadIsInert(ship, DeathWithSynchronousDelivery(ship, d, viewport), times);
  }
}
