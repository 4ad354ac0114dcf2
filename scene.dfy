/**
 * Scene objects the components refer to. Unity objects are compared by
 * reference, so each one is an identity number; a world position is a
 * triple of reals (float rounding is not modelled).
 */
module Scene {
  type Transform = nat
  type Agent = nat

  datatype Vec3 = Vec3(x: real, y: real, z: real)

  function SquaredDistance(a: Vec3, b: Vec3): real
  {
    (a.x - b.x) * (a.x - b.x) + (a.y - b.y) * (a.y - b.y) + (a.z - b.z) * (a.z - b.z)
  }

  /**
   * `Vector3.Distance(a, b) < radius`, stated without a square root: the
   * distance is the non-negative root of the squared distance.
   */
  predicate Within(a: Vec3, b: Vec3, radius: real)
    ensures Within(a, b, radius) ==> radius > 0.0
    ensures a == b ==> (Within(a, b, radius) <==> radius > 0.0)
    ensures Within(a, b, radius) <==> radius > 0.0 && SquaredDistance(b, a) < radius * radius
  {
    if radius > 0.0 then
      SquareMonotone(0.0, radius);
      SquaredDistance(a, b) < radius * radius
    else false
  }

  /** Within agrees with comparing the distance itself. */
  lemma WithinIsDistance(a: Vec3, b: Vec3, radius: real, distance: real)
    requires distance >= 0.0 && distance * distance == SquaredDistance(a, b)
    ensures Within(a, b, radius) <==> distance < radius
  {
    if distance < radius {
      assert distance * distance < radius * radius by { SquareMonotone(distance, radius); }
    } else if radius > 0.0 {
      SquareMonotone(radius, distance);
      assert radius * radius <= distance * distance;
    }
  }

  lemma SquareMonotone(x: real, y: real)
    requires 0.0 <= x <= y
    ensures x * x <= y * y
    ensures x < y ==> x * x < y * y
  {
    if x < y {
      var d := y - x;
      assert y * y == x * x + 2.0 * x * d + d * d;
      assert d * d > 0.0;
      assert x * d >= 0.0;
    }
  }
}
