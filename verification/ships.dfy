/** The player's ship and its lifecycle state machine (Alive, Reset, Destroy,
    Dead). The ship owns exactly one state object at a time; `Reset` and
    `Destroy` replace it from outside, and the Reset and Destroy states
    replace it themselves. `Updated` is the pure specification of one
    `Update` call; the lemmas below it are about sequences of updates. */
module Ships {
  import opened Geometry

  /** `ShipAction` is a flags enumeration: one bit per command, combined. */
  type ShipAction = bv4

  const None: ShipAction := 0
  const Accelerate: ShipAction := 1
  const Left: ShipAction := 2
  const Right: ShipAction := 4
  const Fire: ShipAction := 8

  predicate HasFlag(action: ShipAction, flag: ShipAction)
  {
    (action & flag) == flag
  }

  /** The read-only summary of the ship's state that rules consult. */
  datatype ShipState = Alive | Destroy | Reset | Dead

  /** The private state objects. `ResetState` carries the countdown that
      it lowers on every update. */
  datatype StateObject = AliveState | ResetState(ttl: real) | DestroyState | DeadState

  /** Time a respawned ship spends in Reset before it is Alive again. */
  const ResetDuration: real := 2.5

  /** A request handed to the ship's weapon: fire from here, at this angle. */
  datatype Shot = Shot(position: Vec, rotation: real)

  /** The domain event a ship publishes once when it enters Dead. */
  datatype ShipDestroyedEvent = ShipDestroyedEvent(ship: Ship)

  /** Everything about a ship that its methods change. */
  datatype ShipData = ShipData(
    state: StateObject,
    action: ShipAction,
    velocity: Vec,
    position: Vec,
    rotation: real,
    shots: seq<Shot>,
    published: seq<ShipDestroyedEvent>)

  /** What `Ship.State` reports for a state object. The Reset test comes
      first, so a resetting ship reports Reset although its state object
      specialises the Alive one; every state object is reported. */
  function Report(s: StateObject): (r: ShipState)
    ensures r == Alive <==> s == AliveState
    ensures r == Reset <==> s.ResetState?
    ensures r == Destroy <==> s == DestroyState
    ensures r == Dead <==> s == DeadState
  {
    match s
    case ResetState(_) => Reset
    case AliveState => Alive
    case DestroyState => Destroy
    case DeadState => Dead
  }

  /** The ship after `Reset()`: a fresh Reset state, which stops the ship. */
  function AfterReset(d: ShipData): (r: ShipData)
    ensures Report(r.state) == Reset && r.state.ttl == ResetDuration
    ensures r.velocity == Zero
    ensures r.action == d.action && r.position == d.position && r.rotation == d.rotation
    ensures r.shots == d.shots && r.published == d.published
  {
    d.(state := ResetState(ResetDuration), velocity := Zero)
  }

  /** One Alive update: turn, thrust, move, fire, then consume the command. */
  function AliveUpdate(ship: Ship, d: ShipData, time: real): (r: ShipData)
    ensures r.action == None
    ensures r.state == d.state && r.published == d.published
    ensures HasFlag(d.action, Left) == HasFlag(d.action, Right) ==> r.rotation == d.rotation
    ensures !HasFlag(d.action, Accelerate) ==> r.velocity == d.velocity
    ensures r.position == Plus(d.position, Times(r.velocity, time))
    ensures HasFlag(d.action, Fire) ==> r.shots == d.shots + [Shot(r.position, r.rotation)]
    ensures !HasFlag(d.action, Fire) ==> r.shots == d.shots
  {
    var turned := if HasFlag(d.action, Left) then d.rotation - ship.maxRotation * time else d.rotation;
    var rotation := if HasFlag(d.action, Right) then turned + ship.maxRotation * time else turned;
    var velocity := if HasFlag(d.action, Accelerate) then ship.accelerate(d.velocity, rotation) else d.velocity;
    var position := Plus(d.position, Times(velocity, time));
    d.(rotation := rotation,
       velocity := velocity,
       position := position,
       shots := if HasFlag(d.action, Fire) then d.shots + [Shot(position, rotation)] else d.shots,
       action := None)
  }

  /** One `Update(time)` of the ship, dispatched on its current state object.
      `debrisDone` says whether the debris effect of a Destroy state reports
      its completion during this update. */
  function Updated(ship: Ship, d: ShipData, time: real, debrisDone: bool): (r: ShipData)
    // an Alive or Reset update turns, moves and fires as an Alive one does,
    // and so consumes the pending command
    ensures d.state == AliveState || d.state.ResetState? ==> r == AliveUpdate(ship, d, time).(state := r.state)
    ensures d.state == AliveState || d.state.ResetState? ==> r.action == None
    ensures d.state == AliveState ==> r.state == AliveState
    // the countdown: Reset stays while the remaining time is not negative
    ensures d.state.ResetState? && d.state.ttl - time >= 0.0 ==> r.state == ResetState(d.state.ttl - time)
    ensures d.state.ResetState? && d.state.ttl - time < 0.0 ==> r.state == AliveState
    ensures r.state.ResetState? ==> r.state.ttl >= 0.0
    // Destroy neither reads nor consumes the command, and leaves only on completion
    ensures d.state == DestroyState ==> r.action == d.action && (r.state == DeadState <==> debrisDone)
    ensures d.state == DestroyState && !debrisDone ==> r == d
    // entering Dead swaps the state object and publishes; nothing else changes
    ensures d.state == DestroyState && debrisDone
            ==> r == d.(state := DeadState, published := d.published + [ShipDestroyedEvent(ship)])
    // Dead is reached only from Destroy, and entering it publishes exactly one event
    ensures r.state == DeadState ==> d.state == DestroyState || d.state == DeadState
    ensures d.state == DestroyState && debrisDone ==> r.published == d.published + [ShipDestroyedEvent(ship)]
    ensures !(d.state == DestroyState && debrisDone) ==> r.published == d.published
    ensures d.state == DeadState ==> r == d
  {
    match d.state
    case AliveState => AliveUpdate(ship, d, time)
    case ResetState(ttl) =>
      var moved := AliveUpdate(ship, d, time);
      moved.(state := if ttl - time < 0.0 then AliveState else ResetState(ttl - time))
    case DestroyState =>
      if debrisDone then d.(state := DeadState, published := d.published + [ShipDestroyedEvent(ship)]) else d
    case DeadState => d
  }

  /** Successive updates with the given frame times, during which no debris
      effect completes. */
  ghost function Run(ship: Ship, d: ShipData, times: seq<real>): ShipData
    decreases |times|
  {
    if times == [] then d else Run(ship, Updated(ship, d, times[0], false), times[1..])
  }

  ghost function Sum(times: seq<real>): real
    decreases |times|
  {
    if times == [] then 0.0 else times[0] + Sum(times[1..])
  }

  ghost predicate NonNegative(times: seq<real>)
  {
    forall k :: 0 <= k < |times| ==> times[k] >= 0.0
  }

  lemma {:induction false} SumNonNegative(times: seq<real>)
    requires NonNegative(times)
    ensures Sum(times) >= 0.0
    decreases |times|
  {
    if times != [] {
      SumNonNegative(times[1..]);
    }
  }

  /** Once Alive, updates alone never leave Alive. */
  lemma {:induction false} AliveStaysAlive(ship: Ship, d: ShipData, times: seq<real>)
    requires d.state == AliveState
    ensures Run(ship, d, times).state == AliveState
    decreases |times|
  {
    if times != [] {
      AliveStaysAlive(ship, Updated(ship, d, times[0], false), times[1..]);
    }
  }

  /** The Reset countdown: with non-negative frame times the ship stays in
      Reset, its countdown lowered by the time spent, until the total time
      exceeds what was left, and from the first update that drives the
      countdown below zero on it is Alive. */
  lemma {:induction false} ResetCountdown(ship: Ship, d: ShipData, times: seq<real>)
    requires d.state.ResetState? && d.state.ttl >= 0.0
    requires NonNegative(times)
    ensures Run(ship, d, times).state ==
            if Sum(times) <= d.state.ttl then ResetState(d.state.ttl - Sum(times)) else AliveState
    decreases |times|
  {
    if times != [] {
      var next := Updated(ship, d, times[0], false);
      assert NonNegative(times[1..]) by {
        forall k | 0 <= k < |times[1..]| ensures times[1..][k] >= 0.0 {
          assert times[1..][k] == times[k + 1];
        }
      }
      SumNonNegative(times[1..]);
      assert Sum(times) == times[0] + Sum(times[1..]);
      assert Run(ship, d, times) == Run(ship, next, times[1..]);
      if d.state.ttl - times[0] < 0.0 {
        AliveStaysAlive(ship, next, times[1..]);
      } else {
        ResetCountdown(ship, next, times[1..]);
      }
    }
  }

  /** Dead is inert: no number of updates changes anything about the ship. */
  lemma {:induction false} DeadIsInert(ship: Ship, d: ShipData, times: seq<real>)
    requires d.state == DeadState
    ensures Run(ship, d, times) == d
    decreases |times|
  {
    if times != [] {
      DeadIsInert(ship, Updated(ship, d, times[0], false), times[1..]);
    }
  }

  /** While the ship is in Destroy, what an update does does not depend on
      the pending command, and the command is left in place. */
  lemma DestroyIgnoresAction(ship: Ship, d: ShipData, command: ShipAction, time: real, debrisDone: bool)
    requires d.state == DestroyState
    ensures Updated(ship, d.(action := command), time, debrisDone)
         == Updated(ship, d, time, debrisDone).(action := command)
  {
  }

  class Ship {
    /** Turn rate, radians per unit of time. */
    const maxRotation: real
    /** The velocity after one Accelerate command, from the current velocity
        and rotation: one step of the maximum acceleration along the
        heading, scaled back to the maximum speed when longer. */
    const accelerate: (Vec, real) -> Vec

    var velocity: Vec
    var action: ShipAction
    var state: StateObject
    var position: Vec
    var rotation: real
    /** Requests handed to the ship's weapon, oldest first. */
    var shots: seq<Shot>
    /** Events handed to the event publisher, oldest first. */
    var published: seq<ShipDestroyedEvent>

    function Data(): ShipData
      reads this
    {
      ShipData(state, action, velocity, position, rotation, shots, published)
    }

    function State(): ShipState
      reads this
    {
      Report(state)
    }

    /** A new ship is Alive and still, at the origin, with no pending command. */
    constructor (maxRotation: real, accelerate: (Vec, real) -> Vec)
      ensures this.maxRotation == maxRotation && this.accelerate == accelerate
      ensures Data() == ShipData(AliveState, None, Zero, Zero, 0.0, [], [])
      ensures State() == Alive
    {
      this.maxRotation := maxRotation;
      this.accelerate := accelerate;
      velocity := Zero;
      action := None;
      position := Zero;
      rotation := 0.0;
      shots := [];
      published := [];
      state := AliveState;
    }

    /** Record the command for the next update, replacing any pending one. */
    method Apply(command: ShipAction)
      modifies this
      ensures Data() == old(Data()).(action := command)
    {
      action := command;
    }

    /** Enter Reset from whatever state the ship is in. */
    method Reset()
      modifies this
      ensures Data() == AfterReset(old(Data()))
      ensures State() == ShipState.Reset
    {
      state := ResetState(ResetDuration);
      velocity := Zero;
    }

    /** Enter Destroy from whatever state the ship is in; nothing else changes. */
    method Destroy()
      modifies this
      ensures Data() == old(Data()).(state := DestroyState)
      ensures State() == ShipState.Destroy
    {
      state := DestroyState;
    }

    method Update(time: real, debrisDone: bool)
      modifies this
      ensures Data() == Updated(this, old(Data()), time, debrisDone)
    {
      match state
      case AliveState =>
        UpdateAlive(time);
      case ResetState(ttl) =>
        UpdateAlive(time);
        var remaining := ttl - time;
        if remaining < 0.0 {
          state := AliveState;
        } else {
          state := ResetState(remaining);
        }
      case DestroyState =>
        if debrisDone {
          state := DeadState;
          published := published + [ShipDestroyedEvent(this)];
        }
      case DeadState =>
    }

    method UpdateAlive(time: real)
      modifies this
      ensures Data() == AliveUpdate(this, old(Data()), time)
    {
      if HasFlag(action, Left) {
        rotation := rotation - maxRotation * time;
      }
      if HasFlag(action, Right) {
        rotation := rotation + maxRotation * time;
      }
      if HasFlag(action, Accelerate) {
        velocity := accelerate(velocity, rotation);
      }
      position := Plus(position, Times(velocity, time));
      if HasFlag(action, Fire) {
        shots := shots + [Shot(position, rotation)];
      }
      action := None;
    }
  }
}
