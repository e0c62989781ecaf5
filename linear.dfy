/** The small part of the `glam` vector library the rasterizer uses: 2-, 3- and 4-component
    vectors over `real` and a column-major 4x4 matrix. */
module Linear {
  import opened RealArith

  datatype Vec2 = Vec2(x: real, y: real)
  datatype Vec3 = Vec3(x: real, y: real, z: real)
  datatype Vec4 = Vec4(x: real, y: real, z: real, w: real)

  /** A 4x4 matrix stored, as `glam::Mat4` is, by its four columns. */
  datatype Mat4 = Mat4(c0: Vec4, c1: Vec4, c2: Vec4, c3: Vec4)

  const ZeroVec2: Vec2 := Vec2(0.0, 0.0)
  const ZeroVec3: Vec3 := Vec3(0.0, 0.0, 0.0)
  const OneVec4: Vec4 := Vec4(1.0, 1.0, 1.0, 1.0)

  const Identity: Mat4 :=
    Mat4(Vec4(1.0, 0.0, 0.0, 0.0), Vec4(0.0, 1.0, 0.0, 0.0),
         Vec4(0.0, 0.0, 1.0, 0.0), Vec4(0.0, 0.0, 0.0, 1.0))

  function Splat3(s: real): Vec3 { Vec3(s, s, s) }

  function Neg3(a: Vec3): Vec3 { Vec3(-a.x, -a.y, -a.z) }
  function Dot3(a: Vec3, b: Vec3): real { a.x * b.x + a.y * b.y + a.z * b.z }

  function Add4(a: Vec4, b: Vec4): Vec4 { Vec4(a.x + b.x, a.y + b.y, a.z + b.z, a.w + b.w) }
  function Scale4(a: Vec4, s: real): Vec4 { Vec4(a.x * s, a.y * s, a.z * s, a.w * s) }
  /** Component-wise product (`Vec4 * Vec4`). */
  function Mul4(a: Vec4, b: Vec4): Vec4 { Vec4(a.x * b.x, a.y * b.y, a.z * b.z, a.w * b.w) }
  /** Linear interpolation of scalars: `a + (b - a) * t`. */
  function Lerp(a: real, b: real, t: real): real { a + (b - a) * t }
  /** `Vec4::lerp`: `Lerp` component-wise. */
  function Lerp4(a: Vec4, b: Vec4, t: real): Vec4
  {
    Vec4(Lerp(a.x, b.x, t), Lerp(a.y, b.y, t), Lerp(a.z, b.z, t), Lerp(a.w, b.w, t))
  }

  /** `Vec4::from((v, w))`. */
  function Extend(v: Vec3, w: real): Vec4 { Vec4(v.x, v.y, v.z, w) }
  /** The `xyz()` swizzle. */
  function Xyz(v: Vec4): Vec3 { Vec3(v.x, v.y, v.z) }
  /** The `xy()` swizzle. */
  function Xy(v: Vec3): Vec2 { Vec2(v.x, v.y) }

  /** `Mat4 * Vec4`: the combination of the columns weighted by the vector's components. */
  function Transform(m: Mat4, v: Vec4): Vec4
  {
    Add4(Add4(Scale4(m.c0, v.x), Scale4(m.c1, v.y)), Add4(Scale4(m.c2, v.z), Scale4(m.c3, v.w)))
  }

  /** Every channel of `c` lies in [0, 1]. */
  predicate InUnitRange(c: Vec4)
  {
    0.0 <= c.x <= 1.0 && 0.0 <= c.y <= 1.0 && 0.0 <= c.z <= 1.0 && 0.0 <= c.w <= 1.0
  }

  lemma IdentityTransform(v: Vec4)
    ensures Transform(Identity, v) == v
  {
  }

  /** A lerp between two values of [0, 1] with a weight in [0, 1] stays in [0, 1]. */
  lemma LerpScalarUnit(a: real, b: real, t: real)
    requires 0.0 <= a <= 1.0 && 0.0 <= b <= 1.0 && 0.0 <= t <= 1.0
    ensures 0.0 <= Lerp(a, b, t) <= 1.0
  {
    if a <= b {
      LerpUp(a, b, t);
    } else {
      LerpUp(b, a, 1.0 - t);
      assert Lerp(a, b, t) == b + (a - b) * (1.0 - t);
    }
  }

  /** A lerp with a weight in [0, 1] between two colours in the unit range stays in the unit range. */
  lemma LerpUnitRange(a: Vec4, b: Vec4, t: real)
    requires InUnitRange(a) && InUnitRange(b) && 0.0 <= t <= 1.0
    ensures InUnitRange(Lerp4(a, b, t))
  {
    LerpScalarUnit(a.x, b.x, t);
    LerpScalarUnit(a.y, b.y, t);
    LerpScalarUnit(a.z, b.z, t);
    LerpScalarUnit(a.w, b.w, t);
  }
}
