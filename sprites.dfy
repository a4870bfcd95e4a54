/** Rocks and missiles: sprites that drift across the wrapped field, turn at a fixed rate,
    grow one tick older per update and report when they have outlived their lifespan. */
module Sprites {
  import opened Geometry
  import opened Assets

  /** The part of a sprite that one update changes or reads. */
  datatype Motion = Motion(pos: Vec, vel: Vec, angle: int, angleVel: int, age: int)

  /** One update of a sprite: move by the velocity and wrap onto the field, turn by the
      angular velocity, grow one tick older. The velocities stay as they are. */
  function Advance(m: Motion): (r: Motion)
    ensures InField(r.pos)
    ensures (m.pos.x + m.vel.x - r.pos.x) % WIDTH == 0 && (m.pos.y + m.vel.y - r.pos.y) % HEIGHT == 0
    ensures r.angle - m.angle == m.angleVel
    ensures r.age == m.age + 1
    ensures r.vel == m.vel && r.angleVel == m.angleVel
  {
    Motion(WrapPos(m.pos.Plus(m.vel)), m.vel, m.angle + m.angleVel, m.angleVel, m.age + 1)
  }

  /** `k` updates in a row. */
  function AdvanceN(m: Motion, k: nat): Motion
    decreases k
  {
    if k == 0 then m else Advance(AdvanceN(m, k - 1))
  }

  /** After `k` updates a sprite is exactly `k` ticks older, and after at least one of them
      it lies on the field. */
  lemma {:induction false} AgeAfterUpdates(m: Motion, k: nat)
    ensures AdvanceN(m, k).age == m.age + k
    ensures 0 < k ==> InField(AdvanceN(m, k).pos)
    decreases k
  {
    if k > 0 {
      AgeAfterUpdates(m, k - 1);
    }
  }

  /** A sprite created with age 0 reports expiry on its `k`-th update exactly when its
      lifespan is finite and `k` has reached it; one with an infinite lifespan never does. */
  lemma ExpiryOnUpdate(m: Motion, life: Lifespan, k: nat)
    requires m.age == 0
    ensures Expired(AdvanceN(m, k).age, life) <==> life.Finite? && k >= life.ticks
  {
    AgeAfterUpdates(m, k);
  }

  /** A fresh missile survives its first 49 updates and reports expiry on the 50th. */
  lemma MissileExpiresOnFiftiethUpdate(m: Motion)
    requires m.age == 0
    ensures forall k: nat :: 1 <= k < 50 ==> !Expired(AdvanceN(m, k).age, MissileInfo.lifespan)
    ensures Expired(AdvanceN(m, 50).age, MissileInfo.lifespan)
  {
    assert MissileInfo.lifespan == Finite(50);
    forall k: nat | 1 <= k < 50
      ensures !Expired(AdvanceN(m, k).age, MissileInfo.lifespan)
    {
      ExpiryOnUpdate(m, MissileInfo.lifespan, k);
    }
    ExpiryOnUpdate(m, MissileInfo.lifespan, 50);
  }

  /** A rock or a missile. Its velocity, angular velocity, radius and lifespan are fixed when
      it is built; the update changes its position, angle and age in place. */
  class Sprite {
    var pos: Vec
    var vel: Vec
    var angle: int
    var angleVel: int
    var age: int
    const radius: int
    const lifespan: Lifespan

    function State(): Motion
      reads this
    {
      Motion(pos, vel, angle, angleVel, age)
    }

    predicate HasExpired()
      reads this
    {
      Expired(age, lifespan)
    }

    /** The sprite starts at age 0 with the descriptor's radius and lifespan; the sound the
        game plays on creation is not modelled. */
    constructor (pos: Vec, vel: Vec, angle: int, angleVel: int, info: ImageInfo)
      ensures State() == Motion(pos, vel, angle, angleVel, 0)
      ensures radius == info.radius && lifespan == info.lifespan
    {
      this.pos := pos;
      this.vel := vel;
      this.angle := angle;
      this.angleVel := angleVel;
      this.age := 0;
      this.radius := info.radius;
      this.lifespan := info.lifespan;
    }

    /** Moves, turns and ages the sprite once and answers whether it has now expired. */
    method Update() returns (expired: bool)
      modifies this
      ensures State() == Advance(old(State()))
      ensures expired <==> HasExpired()
      ensures expired <==> Expired(old(age) + 1, lifespan)
    {
      pos := WrapPos(pos.Plus(vel));
      angle := angle + angleVel;
      age := age + 1;
      expired := lifespan.Finite? && age >= lifespan.ticks;
    }

    /** Whether this sprite overlaps an object at `otherPos` with radius `otherRadius`:
        the distance between the centres is strictly below the sum of the radii. */
    predicate CollidesWith(otherPos: Vec, otherRadius: int)
      reads this
    {
      Collides(pos, otherPos, radius, otherRadius)
    }
  }
}
