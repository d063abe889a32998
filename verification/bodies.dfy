/** The other bodies that take part in collisions. Their classes are not part
    of this model; these stand-ins hold only what the collision rules read
    and change: an asteroid's state, size, position and heading, and a
    projectile's identity. */
module Bodies {
  import opened Geometry

  /** Only Alive is consulted by the rules; Destroyed stands for every state
      an asteroid's `Destroy()` leads to. */
  datatype AsteroidState = Alive | Destroyed

  datatype AsteroidType = Small | Medium | Big

  /** What the entity factory is asked for when an asteroid is created:
      its size, where it starts and the angle of its direction of travel. */
  datatype Spawn = Spawn(kind: AsteroidType, position: Vec, heading: real)

  class Asteroid {
    const kind: AsteroidType
    var position: Vec
    /** The angle of the velocity, in degrees. */
    var heading: real
    var state: AsteroidState

    function SpawnOf(): Spawn
      reads this
    {
      Spawn(kind, position, heading)
    }

    /** The entity factory's `CreateAsteroid`: a new, live asteroid. */
    constructor (request: Spawn)
      ensures SpawnOf() == request && state == Alive
    {
      kind := request.kind;
      position := request.position;
      heading := request.heading;
      state := Alive;
    }

    method Destroy()
      modifies this
      ensures state == Destroyed
      ensures position == old(position) && heading == old(heading)
    {
      state := Destroyed;
    }
  }

  class Projectile {
    constructor ()
    {
    }
  }
}
