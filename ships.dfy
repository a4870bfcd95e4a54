/** The player's ship: drifts on the wrapped field, turns while a turning key is held,
    switches its sprite frame while thrusting, and fires missiles from its nose. */
module Ships {
  import opened Geometry
  import opened Assets
  import opened Sprites
  import opened Groups

  /** Horizontal offset, in the ship's sprite sheet, of the frame drawn while thrusting. */
  const ThrustFrameShift: int := 90
  /** A missile starts this far ahead of the ship's centre ... */
  const NoseDistance: int := 45
  /** ... and moves this many forward vectors faster than the ship. */
  const MissileSpeed: int := 4

  class Ship {
    var pos: Vec
    var vel: Vec
    /** Angles and turning rates in units of 0.05 radian. */
    var angle: int
    var angleVel: int
    var thrust: bool
    /** Centre of the source rectangle in the ship's sprite sheet. */
    var imageCenter: Vec
    const radius: int

    /** The sprite frame shows the engine flame exactly while thrusting. */
    predicate FrameMatchesThrust()
      reads this
    {
      imageCenter == if thrust then ShipInfo.center.Plus(Vec(ThrustFrameShift, 0)) else ShipInfo.center
    }

    constructor (pos: Vec, vel: Vec, angle: int, info: ImageInfo)
      ensures this.pos == pos && this.vel == vel && this.angle == angle
      ensures angleVel == 0 && !thrust
      ensures imageCenter == info.center && radius == info.radius
    {
      this.pos := pos;
      this.vel := vel;
      this.angle := angle;
      this.angleVel := 0;
      this.thrust := false;
      this.imageCenter := info.center;
      this.radius := info.radius;
    }

    /** Moves by the current velocity, wrapping onto the field, and turns by the current
        turning rate. `nextVel` is the velocity after friction and thrust, which the game
        computes in floating point. */
    method Update(nextVel: Vec)
      modifies this`pos, this`angle, this`vel
      ensures pos == WrapPos(old(pos).Plus(old(vel))) && InField(pos)
      ensures angle == old(angle) + angleVel
      ensures vel == nextVel
    {
      pos := WrapPos(pos.Plus(vel));
      angle := angle + angleVel;
      vel := nextVel;
    }

    /** Each press of the left key turns 0.05 radian per tick more to the left. */
    method KeydownLeft()
      modifies this`angleVel
      ensures angleVel == old(angleVel) - 1
    {
      angleVel := angleVel - 1;
    }

    method KeydownRight()
      modifies this`angleVel
      ensures angleVel == old(angleVel) + 1
    {
      angleVel := angleVel + 1;
    }

    /** Releasing either turning key stops all turning. */
    method KeyupLeft()
      modifies this`angleVel
      ensures angleVel == 0
    {
      angleVel := 0;
    }

    method KeyupRight()
      modifies this`angleVel
      ensures angleVel == 0
    {
      angleVel := 0;
    }

    /** Engine on: the flame frame is selected by shifting the source rectangle right. The
        engine sound is not modelled. */
    method Thruston()
      modifies this`thrust, this`imageCenter
      ensures thrust
      ensures imageCenter == old(imageCenter).Plus(Vec(ThrustFrameShift, 0))
      ensures !old(thrust) && old(FrameMatchesThrust()) ==> FrameMatchesThrust()
    {
      thrust := true;
      imageCenter := imageCenter.Plus(Vec(ThrustFrameShift, 0));
    }

    /** Engine off: the source rectangle moves back left. */
    method Thrustoff()
      modifies this`thrust, this`imageCenter
      ensures !thrust
      ensures imageCenter == old(imageCenter).Plus(Vec(-ThrustFrameShift, 0))
      ensures old(thrust) && old(FrameMatchesThrust()) ==> FrameMatchesThrust()
    {
      thrust := false;
      imageCenter := imageCenter.Plus(Vec(-ThrustFrameShift, 0));
    }

    /** Fires one missile from the ship's nose along `forward`, the unit vector of the
        ship's heading, and adds it to the missile group. */
    method Shoot(forward: Vec, missiles: Group) returns (missile: Sprite)
      modifies missiles`members
      ensures fresh(missile)
      ensures missiles.members == old(missiles.members) + {missile}
      ensures |missiles.members| == |old(missiles.members)| + 1
      ensures missile.State()
              == Motion(pos.Plus(forward.Scale(NoseDistance)), vel.Plus(forward.Scale(MissileSpeed)), angle, 0, 0)
      ensures missile.radius == 3 && missile.lifespan == Finite(50)
    {
      var missileVel := vel.Plus(forward.Scale(MissileSpeed));
      var missilePos := pos.Plus(forward.Scale(NoseDistance));
      missile := new Sprite(missilePos, missileVel, angle, 0, MissileInfo);
      missiles.Add(missile);
    }
  }
}
