# KenneyAsteroids gameplay core in Dafny

This project models three pieces of the KenneyAsteroids gameplay core and
proves properties of them:

- **The player ship's lifecycle** (`Ship.cs`). The ship holds exactly one
  state object: Alive, Reset, Destroy or Dead. `Reset()` and `Destroy()`
  replace that object from outside. A Reset state turns itself into Alive
  once its 2.5-unit countdown falls below zero. A Destroy state turns into
  Dead when its debris effect completes. Entering Dead publishes one
  `ShipDestroyedEvent`. In Alive and Reset, every update carries out the
  pending command (turn, thrust, move, fire) and then clears it.
- **The collision rules** (`PhysicsRules.cs`). These rules fire when a ship
  hits an asteroid or a projectile hits an asteroid. Each rule is a guard
  plus an action on the HUD counters, the world's membership or the
  entities' states.
- **The entity lifecycle rules** (`EntitiesRules.cs`). These add created
  entities to the world, remove destroyed asteroids, and respawn a
  destroyed ship at the viewport centre.

`Ship` is a class. `Ships.Updated` is the pure specification of one
`Update`. `Ship.Update` is proved against it, and the lemmas about runs of
updates are stated over it.

The rules registered for an event are offered it one by one, in one
fixed order. Each guard is re-evaluated against the state left by the
rules before it. The rule engine that fixes the order is not part of this
model, so the order is taken as a parameter:

- `RuleOrder.Fold` is that left-to-right fold, defined once. For each
  family of rules, `Resolve` is the fold of that family's guarded actions.
- `Dispatch` is the loop on the objects, and it is proved to agree with
  `Resolve`.
- The lemmas show which outcomes do not depend on the order and which
  do.

Three consequences of the code are worth stating plainly:

- **The last life.** No order of the ship–asteroid rules both takes the
  last life and destroys the ship. Both `ThenReduceLifes` and
  `ThenDestroyPlayersShip` need lives above zero, and a destroyed ship
  fails every guard (PhysicsRules.cs:26, 48, 57, 67).
  `ShipCollisionRules.DestroyedShipKeepsALife` shows that a destroyed ship
  always keeps at least one life. `ShipCollisionRules.ReduceFirstAtLastLife`
  shows what the order "reduce first" does at the last life.
- **Thrust.** An update that carries Accelerate adds `_maxAcceleration`
  along the heading, with no frame-time factor (Ship.cs:150).
- **Projectile rules and order.** Offered first, `ThenDestroyAsteroid`
  turns off every other projectile guard, because each of them needs the
  asteroid Alive (PhysicsRules.cs:150, 192).
  `ProjectileCollisionRules.DestroyFirstSuppressesRest` proves it.

## Model

| member | source | states |
|---|---|---|
| `Ships.Report` | src/KenneyAsteroids.Core/Entities/Ship.cs:72-81 | `State` is total. It reports Alive, Reset, Destroy or Dead exactly for the matching state object, and it reports Reset for a Reset state even though that state specialises Alive. |
| `Ships.AfterReset` | src/KenneyAsteroids.Core/Entities/Ship.cs:212-220 | Entering Reset gives a fresh 2.5 countdown and zero velocity. Command, position, rotation, shots and published events are unchanged. |
| `Ships.AliveUpdate` | src/KenneyAsteroids.Core/Entities/Ship.cs:138-161 | An Alive update clears the command. Rotation is unchanged unless exactly one of Left and Right is set. Velocity is unchanged without Accelerate. The position advances by velocity times time. One shot, from the new position and rotation, is fired exactly when Fire is set. |
| `Ships.Updated` | src/KenneyAsteroids.Core/Entities/Ship.cs:99-102 | Alive and Reset updates do exactly what `AliveUpdate` does (turn, move, fire, clear the command), apart from the state. A Reset update runs the whole Alive update first. Alive stays Alive. Reset counts down and becomes Alive once the remainder is below zero, and its countdown is never negative. Destroy keeps the command and becomes Dead exactly when the debris effect completes. That step only swaps the state and appends one event: position, velocity, rotation, command and shots stay as they were. Dead is entered only from Destroy. Entering Dead publishes exactly one event, and Dead changes nothing. |
| `Ships.AliveStaysAlive` | src/KenneyAsteroids.Core/Entities/Ship.cs:138-161 | No sequence of updates takes an Alive ship out of Alive. |
| `Ships.ResetCountdown` | src/KenneyAsteroids.Core/Entities/Ship.cs:237-246 | Take non-negative frame times starting from Reset. The ship is in Reset with the countdown less the total time while that total is at most the countdown, and Alive afterwards. |
| `Ships.DeadIsInert` | src/KenneyAsteroids.Core/Entities/Ship.cs:249-258 | Any number of updates leaves a Dead ship exactly as it was. |
| `Ships.DestroyIgnoresAction` | src/KenneyAsteroids.Core/Entities/Ship.cs:206-209 | In Destroy, an update does the same whatever the pending command, and it leaves that command in place. |
| `Ships.Ship.constructor` | src/KenneyAsteroids.Core/Entities/Ship.cs:29-61 | A new ship is Alive at the origin with zero velocity and rotation, command None, no shots and no events. It keeps the given turn rate and thrust step. |
| `Ships.Ship.Apply` | src/KenneyAsteroids.Core/Entities/Ship.cs:84-87 | Only the pending command changes, and it is replaced by the given one. |
| `Ships.Ship.Reset` | src/KenneyAsteroids.Core/Entities/Ship.cs:89-92 | From any state, the ship is left in Reset as `AfterReset` describes. |
| `Ships.Ship.Destroy` | src/KenneyAsteroids.Core/Entities/Ship.cs:94-97 | From any state, the ship is left in Destroy, and nothing else changes. |
| `Ships.Ship.Update` | src/KenneyAsteroids.Core/Entities/Ship.cs:99-102 | The new ship equals `Updated` of the old one. |
| `Ships.Ship.UpdateAlive` | src/KenneyAsteroids.Core/Entities/Ship.cs:138-161 | The new ship equals `AliveUpdate` of the old one. |
| `Bodies.Asteroid.constructor` | src/KenneyAsteroids.Core/Screens/GamePlay/Rules/PhysicsRules.cs:221-222 | A created asteroid is Alive, with the requested size, position and heading. |
| `Bodies.Asteroid.Destroy` | src/KenneyAsteroids.Core/Screens/GamePlay/Rules/PhysicsRules.cs:192 | The asteroid leaves Alive, and its position and heading are kept. |
| `GameWorld.World.Add` | src/KenneyAsteroids.Core/Screens/GamePlay/Rules/PhysicsRules.cs:224 | The world gains exactly the given entities. |
| `GameWorld.World.Remove` | src/KenneyAsteroids.Core/Screens/GamePlay/Rules/PhysicsRules.cs:88 | The world loses exactly the given entity. |
| `GameWorld.ScreenManager.AddScreen` | src/KenneyAsteroids.Core/Screens/GamePlay/Rules/PhysicsRules.cs:120 | The screen is appended after the existing ones. |
| `ShipCollisionRules.ExecuteCondition` | src/KenneyAsteroids.Core/Screens/GamePlay/Rules/PhysicsRules.cs:25-79 | Every guard needs the ship Alive and the asteroid Alive. Reduce and destroy-ship additionally need lives above zero. Remove-ship and game-over need lives at most zero. |
| `ShipCollisionRules.Act` | src/KenneyAsteroids.Core/Screens/GamePlay/Rules/PhysicsRules.cs:37-126 | Each action changes exactly one thing, and none changes the score. The asteroid is destroyed, or the lives drop by exactly one, or the ship enters Destroy, or only the ship leaves the world, or one screen opens (the high-score prompt when the leaderboard accepts the score, else the game-over message). |
| `ShipCollisionRules.ResolveInert` | src/KenneyAsteroids.Core/Screens/GamePlay/Rules/PhysicsRules.cs:25-26 | If either body is not Alive, no rule in any order changes anything. |
| `ShipCollisionRules.ResettingShipIsNotHit` | src/KenneyAsteroids.Core/Screens/GamePlay/Rules/PhysicsRules.cs:26 | A collision with a ship in Reset has no effect in any order. |
| `ShipCollisionRules.GuardsPartition` | src/KenneyAsteroids.Core/Screens/GamePlay/Rules/PhysicsRules.cs:47-79 | The guards "enough lives" and "not enough lives" never both hold. With both bodies Alive, one of them does. |
| `ShipCollisionRules.DestroyedShipEndsDispatch` | src/KenneyAsteroids.Core/Screens/GamePlay/Rules/PhysicsRules.cs:67 | After the destroy-ship action, no guard holds. The rest of the dispatch changes nothing. |
| `ShipCollisionRules.LifesOnlyFromReduce` | src/KenneyAsteroids.Core/Screens/GamePlay/Rules/PhysicsRules.cs:57 | Without the reduce rule, a dispatch never changes the lives. |
| `ShipCollisionRules.AtMostOneLifeLost` | src/KenneyAsteroids.Core/Screens/GamePlay/Rules/PhysicsRules.cs:47-57 | With each rule registered once, a collision costs at most one life and never adds one, in any order. |
| `ShipCollisionRules.DestroyedShipKeepsALife` | src/KenneyAsteroids.Core/Screens/GamePlay/Rules/PhysicsRules.cs:47-68 | In every order, the ship ends Alive, or in Destroy with at least one life left. |
| `ShipCollisionRules.DestroyBeforeReduceSparesLife` | src/KenneyAsteroids.Core/Screens/GamePlay/Rules/PhysicsRules.cs:60-68 | Place the destroy-ship rule before any reduce rule. A ship with lives left then loses none. |
| `ShipCollisionRules.ReduceFirstAtLastLife` | src/KenneyAsteroids.Core/Screens/GamePlay/Rules/PhysicsRules.cs:47-126 | At one life, take an order that starts with the reduce rule and offers the asteroid rule after both terminal rules, each rule once. The lives go to zero. The ship is not destroyed but leaves the world. The game-over screen opens once, and the asteroid is destroyed. |
| `ShipCollisionRules.TerminalBranch` | src/KenneyAsteroids.Core/Screens/GamePlay/Rules/PhysicsRules.cs:71-126 | Take no lives left and no asteroid-destroying rule. Then exactly the ship's removal and one game-over screen happen, each only if its rule is registered. |
| `ShipCollisionRules.TerminalCollision` | src/KenneyAsteroids.Core/Screens/GamePlay/Rules/PhysicsRules.cs:78-126 | Take no lives left, and the asteroid rule after both terminal rules. The ship leaves the world without being destroyed, the game-over screen opens once, and the asteroid is destroyed. |
| `ShipCollisionRules.ExecuteAction` | src/KenneyAsteroids.Core/Screens/GamePlay/Rules/PhysicsRules.cs:28-37 | On the objects, an action has exactly `Act`'s effect. Only the ship's state is changed on the ship, and the asteroid keeps its position and heading. |
| `ShipCollisionRules.Dispatch` | src/KenneyAsteroids.Core/Screens/GamePlay/Rules/PhysicsRules.cs:14-28 | Offering the event to the rules in order has exactly `Resolve`'s effect on the objects. |
| `ProjectileCollisionRules.ExecuteCondition` | src/KenneyAsteroids.Core/Screens/GamePlay/Rules/PhysicsRules.cs:150 | Every guard holds exactly when the asteroid is Alive, and for the split rule also Big. The projectile is not consulted. |
| `ProjectileCollisionRules.Halves` | src/KenneyAsteroids.Core/Screens/GamePlay/Rules/PhysicsRules.cs:216-222 | Two Medium asteroids at the original position, heading 20 degrees to either side of the original. |
| `ProjectileCollisionRules.Act` | src/KenneyAsteroids.Core/Screens/GamePlay/Rules/PhysicsRules.cs:163-224 | Each action changes exactly one thing. The score rises by the asteroid's points, or only the projectile leaves the world, or the asteroid is destroyed, or exactly the two halves are requested. |
| `ProjectileCollisionRules.ResolveInert` | src/KenneyAsteroids.Core/Screens/GamePlay/Rules/PhysicsRules.cs:150 | Once the asteroid is not Alive, no rule in any order changes anything. |
| `ProjectileCollisionRules.DestroyFirstSuppressesRest` | src/KenneyAsteroids.Core/Screens/GamePlay/Rules/PhysicsRules.cs:188-193 | Offered first, the asteroid-destroying rule is the only one that acts. |
| `ProjectileCollisionRules.LiveBranch` | src/KenneyAsteroids.Core/Screens/GamePlay/Rules/PhysicsRules.cs:148-225 | Take each rule once, with no asteroid-destroying rule. Each registered rule acts exactly once, whatever the order: one score, one removal, and the halves only for a Big asteroid. |
| `ProjectileCollisionRules.DestroyAfterLiveRules` | src/KenneyAsteroids.Core/Screens/GamePlay/Rules/PhysicsRules.cs:148-194 | In any order with each rule once, the rules before the asteroid rule act as `LiveBranch` says. Then the asteroid is destroyed, and the rules after it do nothing. So the outcome depends only on which rules come before the asteroid rule. |
| `ProjectileCollisionRules.ProjectileHit` | src/KenneyAsteroids.Core/Screens/GamePlay/Rules/PhysicsRules.cs:142-225 | Offer the asteroid rule after the other three, in any order among them. The score rises once, the projectile leaves the world, and a Big asteroid yields exactly its two halves. The asteroid is destroyed. |
| `ProjectileCollisionRules.FallAsteroidAppart` | src/KenneyAsteroids.Core/Screens/GamePlay/Rules/PhysicsRules.cs:214-225 | Two new, distinct, Alive asteroids matching `Halves` of the hit one, and both join the world. |
| `ProjectileCollisionRules.ExecuteAction` | src/KenneyAsteroids.Core/Screens/GamePlay/Rules/PhysicsRules.cs:163-193 | On the objects, an action has exactly `Act`'s effect. Any new asteroids are fresh and Alive, match the requested spawns and are in the world. |
| `ProjectileCollisionRules.OfferTo` | src/KenneyAsteroids.Core/Screens/GamePlay/Rules/PhysicsRules.cs:142-146 | Offering the event to one rule runs its action only when its guard holds. The objects then mirror `Offer`'s view, and only fresh asteroids are added to the spawned list. |
| `ProjectileCollisionRules.Dispatch` | src/KenneyAsteroids.Core/Screens/GamePlay/Rules/PhysicsRules.cs:142-146 | Offering the event to the rules in order leaves the objects mirroring `Resolve`. The asteroids created are fresh, Alive and match the requested spawns, and the lives are untouched. |
| `EntitiesRules.Respawned` | src/KenneyAsteroids.Core/Screens/GamePlay/Rules/EntitiesRules.cs:62-66 | The respawned ship is in Reset with a full countdown, at the viewport centre, with zero velocity. Everything else is kept. |
| `EntitiesRules.AddItToTheWorld` | src/KenneyAsteroids.Core/Screens/GamePlay/Rules/EntitiesRules.cs:25-28 | The world gains exactly the created entity. |
| `EntitiesRules.RemoveAsteroid` | src/KenneyAsteroids.Core/Screens/GamePlay/Rules/EntitiesRules.cs:45 | The world loses exactly the destroyed asteroid. |
| `EntitiesRules.ResetPlayersShip` | src/KenneyAsteroids.Core/Screens/GamePlay/Rules/EntitiesRules.cs:62-66 | The ship becomes `Respawned` of its old self and reports Reset. |
| `EntitiesRules.RespawnLoop` | src/KenneyAsteroids.Core/Screens/GamePlay/Rules/EntitiesRules.cs:64-65 | Completing the debris leaves the ship Dead and publishes one event. Handling it puts the ship at the centre in Reset with zero velocity. The following updates count down and return it to Alive. |
| `EntitiesRules.DeathWithSynchronousDelivery` | src/KenneyAsteroids.Core/Entities/Ship.cs:198 | The debris callback as written, with the event delivered while the Dead state is being constructed. Exactly one event is published. |
| `EntitiesRules.SynchronousRespawnIsOverwritten` | src/KenneyAsteroids.Core/Entities/Ship.cs:251-254 | Under synchronous delivery the ship ends Dead, at the centre and stopped, and no further update changes it. |

## Left out

- Floating point. Positions, velocities, rotations and time are exact reals, and the `float` rounding of the game is not modelled.
- Thrust. The thrust step (`ToDirection`, the speed clamp with `Length` and `Normalize`) is the ship's opaque `accelerate` function of velocity and rotation. Only when it is applied is modelled, not what it computes.
- Asteroid headings. A heading is the angle of the asteroid's velocity, in degrees. `ToRotation` and `AsRadians` are not modelled, and the split turns the heading by 20 on that scale.
- The weapon. `Weapon.Update` and `Weapon.Fire` are not modelled. A fire request is recorded as a `Shot` in the ship's `shots`, oldest first.
- The particle engine. It is random and external, and its implementation is not part of this model. The model assumes its completion callback fires during the Destroy state's `Update` and takes that as the `debrisDone` argument of `Ship.Update`. A completion reached through `DestroyState.Draw`, which also passes time to the engine (Ship.cs:203), is not modelled.
- Event delivery. The publisher's implementation is not part of this model. In the main model a published event lands in the ship's `published` list and is handled after the ship has stored its new state. The as-written order under synchronous delivery is under "## Findings".
- Drawing. All `Draw` bodies, the Reset pulse and the debris sprites are rendering.
- Game over. The prompt and message screens, their accept and cancel continuations, `LoadingScreen`, `DateTime.Now` and the leaderboard write are UI, clock and external storage. The rule's effect is reduced to the screen it opens. `CanAddLeader` is an uninterpreted function of the score.
- The HUD lookup. `World.First(x => x is GamePlayHud)` is replaced by passing the HUD directly.
- Score table. `GamePlayScoreManager.GetScore` is an uninterpreted function of the asteroid's size.
- Entity rule guards. The three entity rules' conditions are the constant `true` (EntitiesRules.cs:23, 43, 60). The model has no guard for them and applies each action to every event of its type.
- Unseen implementations. The rule engine's registration, priorities and symmetric matching of collision pairs are not modelled. Neither are the internals of `World`, `Asteroid` and the entity factory, beyond the stand-ins' state.
- Viewport centre. The viewport's size is real-valued. If `IViewport.Width` were an integer, `Width / 2` would truncate, which the model does not capture.
- Other files. src/KenneyAsteroids.Core/Screens/GamePlay/GamePlayScreen.cs (service lookups, music, input, screen navigation) and src/Core/Version.cs (resource I/O) are not part of this model.

## Findings

| source | as written | input that shows it | evidently intended | confidence | as-written member | corrected member |
|---|---|---|---|---|---|---|
| src/KenneyAsteroids.Core/Entities/Ship.cs:198 | The debris callback runs `_ship._state = new DeadState(_ship)`. The `DeadState` constructor publishes `ShipDestroyedEvent` (line 253) before the assignment stores the new state. With a publisher that delivers synchronously, the respawn rule's `Reset()` (EntitiesRules.cs:64-65) runs first and is then overwritten by the stored Dead state. | A ship in Destroy whose debris effect completes during an update, with the respawn rule registered for `ShipDestroyedEvent` and synchronous delivery. | Store Dead first, then publish, so that the respawn rule's Reset survives and the ship returns to Alive after 2.5 units of time. | medium, not executed; the publisher's delivery is not part of this model | `EntitiesRules.SynchronousRespawnIsOverwritten` | `EntitiesRules.RespawnLoop` |
