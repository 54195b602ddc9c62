/** Three-component real vectors: ray origins, directions, sample points and colours. */
module Vectors {

  datatype Vec3 = Vec3(x: real, y: real, z: real)

  const Zero: Vec3 := Vec3(0.0, 0.0, 0.0)

  function Add(a: Vec3, b: Vec3): Vec3 {
    Vec3(a.x + b.x, a.y + b.y, a.z + b.z)
  }

  function Scale(k: real, a: Vec3): Vec3 {
    Vec3(k * a.x, k * a.y, k * a.z)
  }

  /** Every component lies in the closed interval [lo, hi]. */
  predicate Within(a: Vec3, lo: real, hi: real) {
    lo <= a.x <= hi && lo <= a.y <= hi && lo <= a.z <= hi
  }
}
