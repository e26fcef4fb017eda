/** Plain vectors standing for bevy's `Vec2` and `Vec3`; `f32` components are idealised as `real`. */
module Vectors {

  /** `std::f32::consts::PI` as an `f32` value. */
  const Pi: real := 3.1415927410125732

  datatype Vec2 = Vec2(x: real, y: real)

  datatype Vec3 = Vec3(x: real, y: real, z: real)

  function Add(a: Vec3, b: Vec3): Vec3 {
    Vec3(a.x + b.x, a.y + b.y, a.z + b.z)
  }

  function Scale(k: real, a: Vec3): Vec3 {
    Vec3(k * a.x, k * a.y, k * a.z)
  }

  function Cross(a: Vec3, b: Vec3): Vec3 {
    Vec3(a.y * b.z - a.z * b.y, a.z * b.x - a.x * b.z, a.x * b.y - a.y * b.x)
  }

  /** The `yzx` swizzle. */
  function Yzx(a: Vec3): Vec3 {
    Vec3(a.y, a.z, a.x)
  }
}
