/** Points on the wrapped 800 x 600 playing field, the toroidal position wrap and the
    circle-against-circle collision test, stated without square roots. */
module Geometry {

  const WIDTH: int := 800
  const HEIGHT: int := 600

  /** A position or a velocity; the game keeps both as two-element lists. */
  datatype Vec = Vec(x: int, y: int) {
    function Plus(other: Vec): Vec {
      Vec(x + other.x, y + other.y)
    }

    function Scale(k: int): Vec {
      Vec(k * x, k * y)
    }
  }

  predicate InField(p: Vec) {
    0 <= p.x < WIDTH && 0 <= p.y < HEIGHT
  }

  /** Python's `c % size` for a positive modulus: the one representative of `c` in [0, size). */
  function Wrap(c: int, size: int): (r: int)
    requires 0 < size
    ensures 0 <= r < size
    ensures 0 <= c < size ==> r == c
  {
    c % size
  }

  /** Both coordinates wrapped onto the field. */
  function WrapPos(p: Vec): (r: Vec)
    ensures InField(r)
    ensures (p.x - r.x) % WIDTH == 0 && (p.y - r.y) % HEIGHT == 0
    ensures InField(p) ==> r == p
  {
    Vec(Wrap(p.x, WIDTH), Wrap(p.y, HEIGHT))
  }

  /** The square of the Euclidean distance between two centres. */
  function DistSq(p: Vec, q: Vec): (d: int)
    ensures 0 <= d
  {
    (p.x - q.x) * (p.x - q.x) + (p.y - q.y) * (p.y - q.y)
  }

  /** `dist(p, q) < r1 + r2`, written on squares: a distance is never negative, so a sum of
      radii that is not positive is never reached, and otherwise squaring keeps the order. */
  predicate Collides(p: Vec, q: Vec, r1: int, r2: int) {
    0 < r1 + r2 && DistSq(p, q) < (r1 + r2) * (r1 + r2)
  }

  /** `dist(p, q) >= bound` for a non-negative bound, written on squares. */
  predicate FarEnough(p: Vec, q: Vec, bound: int) {
    bound <= 0 || DistSq(p, q) >= bound * bound
  }

  /** Squaring is strictly monotone on non-negative reals. */
  lemma SquareMonotone(a: real, b: real)
    requires 0.0 <= a && 0.0 <= b
    ensures a < b <==> a * a < b * b
  {
    var aa, ab, bb := a * a, a * b, b * b;
    if a < b {
      assert aa <= ab;
      assert ab < bb;
    } else {
      assert bb <= ab;
      assert ab <= aa;
    }
  }

  /** For the true distance `d` between the centres (any non-negative real whose square is
      DistSq), Collides holds exactly when `d < r1 + r2`; so a distance equal to the sum of
      the radii is no collision. */
  lemma CollidesIffCloserThanRadii(p: Vec, q: Vec, r1: int, r2: int, d: real)
    requires 0.0 <= d && d * d == DistSq(p, q) as real
    ensures Collides(p, q, r1, r2) <==> d < (r1 + r2) as real
  {
    var s := r1 + r2;
    if 0 < s {
      SquareMonotone(d, s as real);
      assert (s * s) as real == (s as real) * (s as real);
    }
  }

  /** For the true distance `d` between two points, FarEnough holds exactly when `d >= bound`. */
  lemma FarEnoughIffDistance(p: Vec, q: Vec, bound: int, d: real)
    requires 0.0 <= d && d * d == DistSq(p, q) as real
    ensures FarEnough(p, q, bound) <==> d >= bound as real
  {
    if 0 < bound {
      SquareMonotone(d, bound as real);
      assert (bound * bound) as real == (bound as real) * (bound as real);
    }
  }

  /** Collision does not depend on which of the two objects asks. */
  lemma CollidesSymmetric(p: Vec, q: Vec, r1: int, r2: int)
    ensures Collides(p, q, r1, r2) == Collides(q, p, r2, r1)
  {
    assert (p.x - q.x) * (p.x - q.x) == (q.x - p.x) * (q.x - p.x);
    assert (p.y - q.y) * (p.y - q.y) == (q.y - p.y) * (q.y - p.y);
  }
}
