/** The free helper functions of the renderer: projection to normalized device coordinates,
    the viewport mapping and the edge function. */
module Projection {
  import opened RealArith
  import opened Linear

  /** A projected vertex: its position after the perspective divide and `1/w`. */
  datatype Projected = Projected(ndc: Vec3, rec: real)

  /** Homogeneous clip coordinates of a model-space point: `mvp * (p, 1)`. */
  function Clip(p: Vec3, mvp: Mat4): Vec4
  {
    Transform(mvp, Extend(p, 1.0))
  }

  /** The perspective divide of a clip-space point: `xyz / w`, and `1/w`. Over reals `w`
      must not be 0 (IEEE floats give infinities there instead). */
  function PerspectiveDivide(c: Vec4): (r: Projected)
    requires c.w != 0.0
    ensures r.rec * c.w == 1.0
    ensures Scale4(Extend(r.ndc, 1.0), c.w) == c
  {
    UndoScale(c.x, c.w);
    UndoScale(c.y, c.w);
    UndoScale(c.z, c.w);
    var rec := 1.0 / c.w;
    var recPos := Scale4(c, rec);
    Projected(Xyz(recPos), rec)
  }

  /** `project`: the perspective divide of `mvp * (p, 1)`. Scaling the result back by `w`
      recovers the clip-space point. */
  function Project(p: Vec3, mvp: Mat4): (r: Projected)
    requires Clip(p, mvp).w != 0.0
    ensures r.rec * Clip(p, mvp).w == 1.0
    ensures Scale4(Extend(r.ndc, 1.0), Clip(p, mvp).w) == Clip(p, mvp)
  {
    PerspectiveDivide(Clip(p, mvp))
  }

  /** Under the identity matrix a point lands at `w = 1`. */
  lemma ClipIdentity(p: Vec3)
    ensures Clip(p, Identity) == Extend(p, 1.0)
  {
    IdentityTransform(Extend(p, 1.0));
  }

  /** Under the identity matrix a point projects to itself, with `1/w = 1`. */
  lemma ProjectIdentity(p: Vec3)
    ensures Clip(p, Identity).w == 1.0
    ensures Project(p, Identity) == Projected(p, 1.0)
  {
    ClipIdentity(p);
  }

  /** `clip_to_screen_space`: `(ndc * -0.5 + 0.5) * screen_size`, component-wise. */
  function ClipToScreenSpace(ndc: Vec2, size: Vec2): Vec2
  {
    Vec2((ndc.x * -0.5 + 0.5) * size.x, (ndc.y * -0.5 + 0.5) * size.y)
  }

  /** `edge_function(a, c, b)`; the parameter order is the source's. */
  function EdgeFunction(a: Vec2, c: Vec2, b: Vec2): real
  {
    (c.x - a.x) * (b.y - a.y) - (c.y - a.y) * (b.x - a.x)
  }

  /** Twice the signed area of a triangle by the shoelace formula. */
  function TwiceSignedArea(v0: Vec2, v1: Vec2, v2: Vec2): real
  {
    (v0.x * v1.y - v1.x * v0.y) + (v1.x * v2.y - v2.x * v1.y) + (v2.x * v0.y - v0.x * v2.y)
  }

  /** On each axis NDC -1 maps to the far edge of the screen, +1 to the origin and 0 to the
      centre: both axes are flipped. */
  lemma ClipToScreenCorners(ndc: Vec2, size: Vec2)
    ensures ndc.x == -1.0 ==> ClipToScreenSpace(ndc, size).x == size.x
    ensures ndc.x == 1.0 ==> ClipToScreenSpace(ndc, size).x == 0.0
    ensures ndc.x == 0.0 ==> ClipToScreenSpace(ndc, size).x == size.x / 2.0
    ensures ndc.y == -1.0 ==> ClipToScreenSpace(ndc, size).y == size.y
    ensures ndc.y == 1.0 ==> ClipToScreenSpace(ndc, size).y == 0.0
    ensures ndc.y == 0.0 ==> ClipToScreenSpace(ndc, size).y == size.y / 2.0
  {
  }

  /** On a screen of positive size, a larger NDC coordinate lands on a smaller pixel coordinate. */
  lemma ClipToScreenFlips(a: Vec2, b: Vec2, size: Vec2)
    requires size.x > 0.0 && size.y > 0.0
    ensures a.x < b.x ==> ClipToScreenSpace(a, size).x > ClipToScreenSpace(b, size).x
    ensures a.y < b.y ==> ClipToScreenSpace(a, size).y > ClipToScreenSpace(b, size).y
  {
    if a.x < b.x {
      MulStrictMono(b.x * -0.5 + 0.5, a.x * -0.5 + 0.5, size.x);
    }
    if a.y < b.y {
      MulStrictMono(b.y * -0.5 + 0.5, a.y * -0.5 + 0.5, size.y);
    }
  }

  /** The viewport mapping is invertible on a screen of non-zero size. */
  lemma ClipToScreenInverse(ndc: Vec2, size: Vec2)
    requires size.x != 0.0 && size.y != 0.0
    ensures 1.0 - 2.0 * (ClipToScreenSpace(ndc, size).x / size.x) == ndc.x
    ensures 1.0 - 2.0 * (ClipToScreenSpace(ndc, size).y / size.y) == ndc.y
  {
    var s := ClipToScreenSpace(ndc, size);
    var kx, ky := ndc.x * -0.5 + 0.5, ndc.y * -0.5 + 0.5;
    DivCancel(kx, size.x);
    DivCancel(ky, size.y);
    assert s.x == kx * size.x && s.y == ky * size.y;
    assert s.x / size.x == kx && s.y / size.y == ky;
    assert 1.0 - 2.0 * kx == ndc.x && 1.0 - 2.0 * ky == ndc.y;
  }

  /** Swapping the last two arguments negates the edge function. */
  lemma EdgeAntisymmetric(a: Vec2, b: Vec2, c: Vec2)
    ensures EdgeFunction(a, c, b) == -EdgeFunction(a, b, c)
  {
  }

  /** The edge function vanishes when two of its points coincide. */
  lemma EdgeDegenerate(a: Vec2, b: Vec2, c: Vec2)
    requires a == b || b == c || a == c
    ensures EdgeFunction(a, c, b) == 0.0
  {
  }

  /** The edge function of a whole triangle is twice its signed area. */
  lemma EdgeIsTwiceArea(v0: Vec2, v1: Vec2, v2: Vec2)
    ensures EdgeFunction(v0, v1, v2) == TwiceSignedArea(v0, v1, v2)
  {
  }

  /** The three edge values at any point add up to the edge value of the whole triangle. */
  lemma EdgeSum(v0: Vec2, v1: Vec2, v2: Vec2, p: Vec2)
    ensures EdgeFunction(v1, v2, p) + EdgeFunction(v2, v0, p) + EdgeFunction(v0, v1, p)
         == EdgeFunction(v0, v1, v2)
  {
  }

  /** The coverage test of the rasterizer: all three edge values strictly positive. */
  predicate Inside(v0: Vec2, v1: Vec2, v2: Vec2, p: Vec2)
  {
    EdgeFunction(v1, v2, p) > 0.0 && EdgeFunction(v2, v0, p) > 0.0 && EdgeFunction(v0, v1, p) > 0.0
  }

  /** The barycentric weights of `p`: its three edge values times the reciprocal of the
      triangle's edge value. */
  function Barycentric(v0: Vec2, v1: Vec2, v2: Vec2, p: Vec2): Vec3
    requires EdgeFunction(v0, v1, v2) != 0.0
  {
    var areaRep := 1.0 / EdgeFunction(v0, v1, v2);
    Vec3(EdgeFunction(v1, v2, p) * areaRep, EdgeFunction(v2, v0, p) * areaRep, EdgeFunction(v0, v1, p) * areaRep)
  }

  /** At a covered point the triangle has positive area and each barycentric weight lies
      strictly between 0 and 1; the three sum to 1. */
  lemma BarycentricWeights(v0: Vec2, v1: Vec2, v2: Vec2, p: Vec2)
    requires Inside(v0, v1, v2, p)
    ensures EdgeFunction(v0, v1, v2) > 0.0
    ensures var b := Barycentric(v0, v1, v2, p);
            0.0 < b.x < 1.0 && 0.0 < b.y < 1.0 && 0.0 < b.z < 1.0 && b.x + b.y + b.z == 1.0
  {
    var a0, a1, a2 := EdgeFunction(v1, v2, p), EdgeFunction(v2, v0, p), EdgeFunction(v0, v1, p);
    var area := EdgeFunction(v0, v1, v2);
    EdgeSum(v0, v1, v2, p);
    assert area == a0 + a1 + a2;
    RecipPos(area);
    var rep := 1.0 / area;
    NormalizedWeights(a0, a1, a2, rep);
    assert Barycentric(v0, v1, v2, p) == Vec3(a0 * rep, a1 * rep, a2 * rep);
  }

  /** The edge values weight the vertices into the point itself, scaled by the area:
      barycentric coordinates reproduce `p`. */
  lemma BarycentricPoint(v0: Vec2, v1: Vec2, v2: Vec2, p: Vec2)
    ensures EdgeFunction(v1, v2, p) * v0.x + EdgeFunction(v2, v0, p) * v1.x + EdgeFunction(v0, v1, p) * v2.x
         == EdgeFunction(v0, v1, v2) * p.x
    ensures EdgeFunction(v1, v2, p) * v0.y + EdgeFunction(v2, v0, p) * v1.y + EdgeFunction(v0, v1, p) * v2.y
         == EdgeFunction(v0, v1, v2) * p.y
  {
  }
}
