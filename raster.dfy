/** `Triangle::draw` (src/model.rs; the uncompiled copy in src/triangle.rs is the same code):
    project the three vertices, map them to the screen, visit every pixel centre of the
    clamped bounding box, and where the centre is strictly inside the triangle and its
    interpolated depth is below the stored one, write the depth and then the shaded colour. */
module Raster {
  import opened Numeric
  import opened RealArith
  import opened IntArith
  import opened Linear
  import opened Projection
  import opened Textures
  import opened Geometry
  import opened Window

  /** Everything one call of `Triangle::draw` is given besides the two buffers. `normalize`
      stands for `Vec3::normalize`, a square-root computation kept abstract. */
  datatype Pass = Pass(tri: Triangle, mvp: Mat4, invTrans: Mat4, material: Material, normalize: Vec3 -> Vec3)

  /** The conditions under which the draw is defined over reals: no vertex lands on the
      plane `w = 0`, and a texture, if any, can be addressed (is at least 2 by 2). */
  predicate Drawable(pass: Pass)
  {
    Clip(pass.tri.v0.position, pass.mvp).w != 0.0 &&
    Clip(pass.tri.v1.position, pass.mvp).w != 0.0 &&
    Clip(pass.tri.v2.position, pass.mvp).w != 0.0 &&
    (pass.material.texture.Some? ==> Addressable(pass.material.texture.value))
  }

  /** The projected vertices and their screen positions. */
  datatype Screen = Screen(p0: Projected, p1: Projected, p2: Projected, s0: Vec2, s1: Vec2, s2: Vec2)

  function ToScreen(pass: Pass, width: nat, height: nat): Screen
    requires Drawable(pass)
  {
    var p0 := Project(pass.tri.v0.position, pass.mvp);
    var p1 := Project(pass.tri.v1.position, pass.mvp);
    var p2 := Project(pass.tri.v2.position, pass.mvp);
    var size := Vec2(width as real, height as real);
    Screen(p0, p1, p2,
           ClipToScreenSpace(Xy(p0.ndc), size), ClipToScreenSpace(Xy(p1.ndc), size),
           ClipToScreenSpace(Xy(p2.ndc), size))
  }

  /** The pixel ranges `x0..x1` and `y0..y1` the draw visits. */
  datatype Rect = Rect(x0: nat, x1: nat, y0: nat, y1: nat)

  predicate InRect(box: Rect, x: nat, y: nat)
  {
    box.x0 <= x < box.x1 && box.y0 <= y < box.y1
  }

  /** The bounding box of the screen triangle, its minimum clamped to 0 and its maximum plus
      one clamped to the screen size, truncated to `usize`: it never leaves the screen. */
  function BoundingBox(s: Screen, width: nat, height: nat): (r: Rect)
    ensures r.x1 <= width && r.y1 <= height
  {
    Rect(ToUsize(Max(Min(s.s0.x, Min(s.s1.x, s.s2.x)), 0.0)),
         ToUsize(Min(Max(s.s0.x, Max(s.s1.x, s.s2.x)) + 1.0, width as real)),
         ToUsize(Max(Min(s.s0.y, Min(s.s1.y, s.s2.y)), 0.0)),
         ToUsize(Min(Max(s.s0.y, Max(s.s1.y, s.s2.y)) + 1.0, height as real)))
  }

  /** The centre of pixel `(x, y)`. */
  function Centre(x: nat, y: nat): Vec2
  {
    Vec2(x as real + 0.5, y as real + 0.5)
  }

  /** The coverage test: all three edge values at the pixel centre strictly positive. */
  predicate Covers(s: Screen, x: nat, y: nat)
  {
    Inside(s.s0, s.s1, s.s2, Centre(x, y))
  }

  /** The barycentric weights of a covered pixel centre. */
  function Weights(s: Screen, x: nat, y: nat): (b: Vec3)
    requires Covers(s, x, y)
    ensures 0.0 < b.x < 1.0 && 0.0 < b.y < 1.0 && 0.0 < b.z < 1.0 && b.x + b.y + b.z == 1.0
  {
    BarycentricWeights(s.s0, s.s1, s.s2, Centre(x, y));
    Barycentric(s.s0, s.s1, s.s2, Centre(x, y))
  }

  /** The interpolated depth of a covered pixel (linear in screen space). */
  function DepthAt(s: Screen, x: nat, y: nat): real
    requires Covers(s, x, y)
  {
    var b := Weights(s, x, y);
    s.p0.ndc.z * b.x + s.p1.ndc.z * b.y + s.p2.ndc.z * b.z
  }

  /** `1.0 / a`, except that for `a == 0` (where `f32` gives an infinity) the value is 0. */
  function Recip(a: real): (r: real)
    ensures a != 0.0 ==> r * a == 1.0
  {
    if a == 0.0 then 0.0 else 1.0 / a
  }

  /** The perspective correction of a pixel: the reciprocal of the interpolated `1/w`. */
  function Correction(s: Screen, b: Vec3): real
  {
    Recip(b.x * s.p0.rec + b.y * s.p1.rec + b.z * s.p2.rec)
  }

  /** Perspective-correct interpolation of one component of a vertex attribute. */
  function Interpolate(a0: real, a1: real, a2: real, s: Screen, b: Vec3): real
  {
    (a0 * s.p0.rec * b.x + a1 * s.p1.rec * b.y + a2 * s.p2.rec * b.z) * Correction(s, b)
  }

  /** The light direction before normalization. */
  const LightDir: Vec3 := Vec3(0.3, -0.8, -0.4)

  /** The base colour of the material, times the texture sample at `uv` if it has a texture. */
  function BaseColor(m: Material, uv: Vec2): Vec4
    requires m.texture.Some? ==> Addressable(m.texture.value)
  {
    if m.texture.Some? then Mul4(m.baseColor, SamplePixel(m.texture.value, uv.x, uv.y)) else m.baseColor
  }

  /** The colour of a covered pixel: the interpolated normal and texture coordinate, the base
      colour, and a diffuse term against the fixed light direction. */
  function ColorAt(pass: Pass, s: Screen, x: nat, y: nat): Vec3
    requires Drawable(pass) && Covers(s, x, y)
  {
    var b := Weights(s, x, y);
    var v := pass.tri;
    var n0 := Transform(pass.invTrans, Extend(v.v0.normal, 1.0));
    var n1 := Transform(pass.invTrans, Extend(v.v1.normal, 1.0));
    var n2 := Transform(pass.invTrans, Extend(v.v2.normal, 1.0));
    var normal := pass.normalize(Vec3(Interpolate(n0.x, n1.x, n2.x, s, b),
                                      Interpolate(n0.y, n1.y, n2.y, s, b),
                                      Interpolate(n0.z, n1.z, n2.z, s, b)));
    var uv := Vec2(Interpolate(v.v0.texCoord.x, v.v1.texCoord.x, v.v2.texCoord.x, s, b),
                   Interpolate(v.v0.texCoord.y, v.v1.texCoord.y, v.v2.texCoord.y, s, b));
    var intensity := Dot3(normal, Neg3(pass.normalize(LightDir)));
    Xyz(Scale4(BaseColor(pass.material, uv), intensity))
  }

  /** With `Material::default()`, white and untextured, every shaded pixel is grey: its three
      channels are the one diffuse intensity. */
  lemma DefaultMaterialGrey(pass: Pass, s: Screen, x: nat, y: nat)
    requires Drawable(pass) && Covers(s, x, y) && pass.material == DefaultMaterial
    ensures var c := ColorAt(pass, s, x, y); c.x == c.y == c.z
  {
  }

  /** The depth test of a pixel against the stored depth `d`. */
  predicate DepthTest(s: Screen, x: nat, y: nat, d: real)
  {
    Covers(s, x, y) && DepthAt(s, x, y) < d
  }

  /** The stored depth after the pixel is visited: lowered to the fragment's depth when the
      fragment passes, unchanged otherwise. */
  function PixelDepth(s: Screen, x: nat, y: nat, d: real): (r: real)
    ensures r <= d
    ensures r < d <==> DepthTest(s, x, y, d)
  {
    if DepthTest(s, x, y, d) then DepthAt(s, x, y) else d
  }

  /** The stored colour after the pixel is visited: replaced exactly when the depth was. */
  function PixelColor(pass: Pass, s: Screen, x: nat, y: nat, d: real, c: Vec3): (r: Vec3)
    requires Drawable(pass)
    ensures PixelDepth(s, x, y, d) == d ==> r == c
  {
    if DepthTest(s, x, y, d) then ColorAt(pass, s, x, y) else c
  }

  /** The contents of the depth buffer and the colour buffer, cell by cell. */
  datatype Buffers = Buffers(depth: seq<real>, color: seq<Vec3>)

  predicate Sized(b: Buffers, width: nat, height: nat)
  {
    |b.depth| == width * height && |b.color| == width * height
  }

  /** The column of flat cell `k` on a grid of width `width`. */
  function Col(k: nat, width: nat): nat
  {
    if width == 0 then 0 else k % width
  }

  /** The row of flat cell `k` on a grid of width `width`. */
  function Row(k: nat, width: nat): nat
  {
    if width == 0 then 0 else k / width
  }

  /** The buffers after one draw: every cell `k`, at column `Col(k)` and row `Row(k)`,
      is visited once, whether or not it lies in the bounding box. */
  function Drawn(pass: Pass, width: nat, height: nat, b: Buffers): (r: Buffers)
    requires Drawable(pass) && Sized(b, width, height)
    ensures Sized(r, width, height)
    ensures forall k :: 0 <= k < width * height ==> r.depth[k] <= b.depth[k]
    ensures forall k :: 0 <= k < width * height && r.depth[k] == b.depth[k] ==> r.color[k] == b.color[k]
    ensures forall k :: 0 <= k < width * height && r.depth[k] != b.depth[k] ==>
              var s, x, y := ToScreen(pass, width, height), Col(k, width), Row(k, width);
              Covers(s, x, y) && r.depth[k] == DepthAt(s, x, y) && r.color[k] == ColorAt(pass, s, x, y)
    ensures forall k :: 0 <= k < width * height && !Covers(ToScreen(pass, width, height), Col(k, width), Row(k, width)) ==>
              r.depth[k] == b.depth[k] && r.color[k] == b.color[k]
  {
    var s := ToScreen(pass, width, height);
    var n := width * height;
    Buffers(seq(n, k requires 0 <= k < n => PixelDepth(s, Col(k, width), Row(k, width), b.depth[k])),
            seq(n, k requires 0 <= k < n => PixelColor(pass, s, Col(k, width), Row(k, width), b.depth[k], b.color[k])))
  }

  // --- The bounding box loses no covered pixel of the screen

  /** Along one axis: a centre between the smallest and the largest vertex coordinate lies in
      the clamped, truncated range the draw visits. */
  lemma AxisInRange(lo: real, hi: real, size: nat, x: nat)
    requires lo <= x as real + 0.5 <= hi && x < size
    ensures ToUsize(Max(lo, 0.0)) <= x < ToUsize(Min(hi + 1.0, size as real))
  {
  }

  /** A covered pixel centre lies within the vertices' range on each axis. */
  lemma CentreBetweenVertices(s: Screen, x: nat, y: nat)
    requires Covers(s, x, y)
    ensures Min(s.s0.x, Min(s.s1.x, s.s2.x)) <= Centre(x, y).x <= Max(s.s0.x, Max(s.s1.x, s.s2.x))
    ensures Min(s.s0.y, Min(s.s1.y, s.s2.y)) <= Centre(x, y).y <= Max(s.s0.y, Max(s.s1.y, s.s2.y))
  {
    var p := Centre(x, y);
    var a0, a1, a2 := EdgeFunction(s.s1, s.s2, p), EdgeFunction(s.s2, s.s0, p), EdgeFunction(s.s0, s.s1, p);
    EdgeSum(s.s0, s.s1, s.s2, p);
    BarycentricPoint(s.s0, s.s1, s.s2, p);
    ConvexBound(a0, a1, a2, s.s0.x, s.s1.x, s.s2.x, p.x);
    ConvexBound(a0, a1, a2, s.s0.y, s.s1.y, s.s2.y, p.y);
  }

  /** Every on-screen pixel the triangle covers lies in the bounding box the draw visits. */
  lemma CoveredInBox(s: Screen, width: nat, height: nat, x: nat, y: nat)
    requires x < width && y < height && Covers(s, x, y)
    ensures InRect(BoundingBox(s, width, height), x, y)
  {
    CentreBetweenVertices(s, x, y);
    AxisInRange(Min(s.s0.x, Min(s.s1.x, s.s2.x)), Max(s.s0.x, Max(s.s1.x, s.s2.x)), width, x);
    AxisInRange(Min(s.s0.y, Min(s.s1.y, s.s2.y)), Max(s.s0.y, Max(s.s1.y, s.s2.y)), height, y);
  }

  // --- What one draw, or two, leaves in the buffers

  /** The interpolated depth of a covered pixel lies between the smallest and the largest
      depth of the three projected vertices. */
  lemma DepthBetweenVertices(s: Screen, x: nat, y: nat)
    requires Covers(s, x, y)
    ensures Min(s.p0.ndc.z, Min(s.p1.ndc.z, s.p2.ndc.z)) <= DepthAt(s, x, y)
    ensures DepthAt(s, x, y) <= Max(s.p0.ndc.z, Max(s.p1.ndc.z, s.p2.ndc.z))
  {
    var b := Weights(s, x, y);
    var z := DepthAt(s, x, y);
    assert b.x * s.p0.ndc.z + b.y * s.p1.ndc.z + b.z * s.p2.ndc.z == (b.x + b.y + b.z) * z;
    ConvexBound(b.x, b.y, b.z, s.p0.ndc.z, s.p1.ndc.z, s.p2.ndc.z, z);
  }

  /** The depth test keeps the smaller of the stored depth and the fragment's. */
  lemma PixelDepthIsMin(s: Screen, x: nat, y: nat, d: real)
    ensures Covers(s, x, y) ==> PixelDepth(s, x, y, d) == Min(d, DepthAt(s, x, y))
    ensures !Covers(s, x, y) ==> PixelDepth(s, x, y, d) == d
  {
  }

  /** Drawing the same triangle a second time changes neither buffer: every covered pixel
      already holds a depth at or below the fragment's, so the strict test fails. */
  lemma DrawnIdempotent(pass: Pass, w: nat, h: nat, b: Buffers)
    requires Drawable(pass) && Sized(b, w, h)
    ensures Drawn(pass, w, h, Drawn(pass, w, h, b)) == Drawn(pass, w, h, b)
  {
    var s := ToScreen(pass, w, h);
    var r := Drawn(pass, w, h, b);
    var r2 := Drawn(pass, w, h, r);
    forall k | 0 <= k < w * h
      ensures r2.depth[k] == r.depth[k] && r2.color[k] == r.color[k]
    {
      var x, y := Col(k, w), Row(k, w);
      assert r.depth[k] == PixelDepth(s, x, y, b.depth[k]);
      assert !DepthTest(s, x, y, r.depth[k]);
      assert r2.depth[k] == PixelDepth(s, x, y, r.depth[k]);
      assert r2.color[k] == PixelColor(pass, s, x, y, r.depth[k], r.color[k]);
    }
  }

  /** The depth buffer after two draws does not depend on their order: each cell ends at the
      smallest of its old depth and the depths of the fragments that cover it. */
  lemma DrawnDepthCommutes(p1: Pass, p2: Pass, w: nat, h: nat, b: Buffers)
    requires Drawable(p1) && Drawable(p2) && Sized(b, w, h)
    ensures Drawn(p2, w, h, Drawn(p1, w, h, b)).depth == Drawn(p1, w, h, Drawn(p2, w, h, b)).depth
  {
    var s1, s2 := ToScreen(p1, w, h), ToScreen(p2, w, h);
    var r12, r21 := Drawn(p2, w, h, Drawn(p1, w, h, b)), Drawn(p1, w, h, Drawn(p2, w, h, b));
    forall k | 0 <= k < w * h
      ensures r12.depth[k] == r21.depth[k]
    {
      var x, y, d := Col(k, w), Row(k, w), b.depth[k];
      PixelDepthIsMin(s1, x, y, d);
      PixelDepthIsMin(s2, x, y, d);
      PixelDepthIsMin(s2, x, y, PixelDepth(s1, x, y, d));
      PixelDepthIsMin(s1, x, y, PixelDepth(s2, x, y, d));
    }
  }

  /** Occlusion: at a pixel both triangles cover, the colour of the nearer one remains,
      whichever is drawn first, when it is also nearer than the depth already stored. */
  lemma NearerWins(p1: Pass, p2: Pass, w: nat, h: nat, b: Buffers, k: nat)
    requires Drawable(p1) && Drawable(p2) && Sized(b, w, h) && k < w * h
    requires Covers(ToScreen(p1, w, h), Col(k, w), Row(k, w)) && Covers(ToScreen(p2, w, h), Col(k, w), Row(k, w))
    requires DepthAt(ToScreen(p1, w, h), Col(k, w), Row(k, w)) < DepthAt(ToScreen(p2, w, h), Col(k, w), Row(k, w))
    requires DepthAt(ToScreen(p1, w, h), Col(k, w), Row(k, w)) < b.depth[k]
    ensures Drawn(p2, w, h, Drawn(p1, w, h, b)).color[k] == ColorAt(p1, ToScreen(p1, w, h), Col(k, w), Row(k, w))
    ensures Drawn(p1, w, h, Drawn(p2, w, h, b)).color[k] == ColorAt(p1, ToScreen(p1, w, h), Col(k, w), Row(k, w))
  {
    var s1, s2 := ToScreen(p1, w, h), ToScreen(p2, w, h);
    var x, y, d := Col(k, w), Row(k, w), b.depth[k];
    var r1, r2 := Drawn(p1, w, h, b), Drawn(p2, w, h, b);
    assert r1.depth[k] == DepthAt(s1, x, y) && r1.color[k] == ColorAt(p1, s1, x, y);
    assert Drawn(p2, w, h, r1).color[k] == PixelColor(p2, s2, x, y, r1.depth[k], r1.color[k]);
    PixelDepthIsMin(s2, x, y, d);
    assert r2.depth[k] > DepthAt(s1, x, y);
    assert Drawn(p1, w, h, r2).color[k] == PixelColor(p1, s1, x, y, r2.depth[k], r2.color[k]);
  }

  // --- A worked case

  /** A triangle with NDC corners (-1, -1), (1, -1) and (-1, 1), at any depths, drawn
      untransformed and untextured. */
  predicate CornerTriangle(pass: Pass)
  {
    pass.mvp == Identity && pass.material.texture.None? &&
    Xy(pass.tri.v0.position) == Vec2(-1.0, -1.0) &&
    Xy(pass.tri.v1.position) == Vec2(1.0, -1.0) &&
    Xy(pass.tri.v2.position) == Vec2(-1.0, 1.0)
  }

  /** A triangle drawn untransformed, without a texture, can be drawn: each vertex lands at
      `w = 1`, projects to itself, and is mapped to the screen by the viewport alone. */
  lemma IdentityScreen(pass: Pass, w: nat, h: nat)
    requires pass.mvp == Identity && pass.material.texture.None?
    ensures Drawable(pass)
    ensures var v, size := pass.tri, Vec2(w as real, h as real);
            ToScreen(pass, w, h)
            == Screen(Projected(v.v0.position, 1.0), Projected(v.v1.position, 1.0), Projected(v.v2.position, 1.0),
                      ClipToScreenSpace(Xy(v.v0.position), size), ClipToScreenSpace(Xy(v.v1.position), size),
                      ClipToScreenSpace(Xy(v.v2.position), size))
  {
    ProjectIdentity(pass.tri.v0.position);
    ProjectIdentity(pass.tri.v1.position);
    ProjectIdentity(pass.tri.v2.position);
  }

  /** On an `n` by `n` screen the flipped axes put the corners at (n, n), (0, n) and (n, 0). */
  lemma CornerScreen(pass: Pass, n: nat)
    requires CornerTriangle(pass)
    ensures Drawable(pass)
    ensures var s, m := ToScreen(pass, n, n), n as real;
            s.s0 == Vec2(m, m) && s.s1 == Vec2(0.0, m) && s.s2 == Vec2(m, 0.0)
  {
    IdentityScreen(pass, n, n);
    var size := Vec2(n as real, n as real);
    ClipToScreenCorners(Xy(pass.tri.v0.position), size);
    ClipToScreenCorners(Xy(pass.tri.v1.position), size);
    ClipToScreenCorners(Xy(pass.tri.v2.position), size);
  }

  /** On an `n` by `n` screen the corner triangle covers exactly the pixels whose centre lies
      strictly beyond the diagonal `x + y = n`: those with `x + y >= n`. The pixels whose
      centre lies on the diagonal are not covered. */
  lemma CornerTriangleCoverage(pass: Pass, n: nat, x: nat, y: nat)
    requires CornerTriangle(pass) && x < n && y < n
    ensures Drawable(pass)
    ensures Covers(ToScreen(pass, n, n), x, y) <==> n <= x + y
  {
    CornerScreen(pass, n);
    CornerCovers(pass, n, x, y);
  }

  /** Coverage of a drawable pass whose vertices reach the corner triangle's screen corners. */
  lemma CornerCovers(pass: Pass, n: nat, x: nat, y: nat)
    requires Drawable(pass) && x < n && y < n
    requires var s, m := ToScreen(pass, n, n), n as real;
             s.s0 == Vec2(m, m) && s.s1 == Vec2(0.0, m) && s.s2 == Vec2(m, 0.0)
    ensures Covers(ToScreen(pass, n, n), x, y) <==> n <= x + y
  {
    CornerInside(n as real, Centre(x, y));
  }

  /** The half-screen triangle with its right angle at the far corner `(m, m)` holds exactly the
      points above its hypotenuse and short of the far edges. */
  lemma CornerInside(m: real, p: Vec2)
    requires 0.0 < m
    ensures Inside(Vec2(m, m), Vec2(0.0, m), Vec2(m, 0.0), p) <==> m < p.x + p.y && p.x < m && p.y < m
  {
    var s0, s1, s2 := Vec2(m, m), Vec2(0.0, m), Vec2(m, 0.0);
    assert EdgeFunction(s1, s2, p) == m * (p.x + p.y - m);
    assert EdgeFunction(s2, s0, p) == m * (m - p.x);
    assert EdgeFunction(s0, s1, p) == m * (m - p.y);
    PositiveFactor(m, p.x + p.y - m);
    PositiveFactor(m, m - p.x);
    PositiveFactor(m, m - p.y);
  }

  /** With a positive factor, a product is positive exactly when the other factor is. */
  lemma PositiveFactor(m: real, a: real)
    requires 0.0 < m
    ensures m * a > 0.0 <==> a > 0.0
  {
    if a > 0.0 {
      MulPos(m, a);
    } else {
      MulMono(a, 0.0, m);
    }
  }

  // --- The draw itself

  /** Cell `(c, r)` of the box has been visited when the column loop is at `x` and the row
      loop at `y`: the box is walked column by column, each column top to bottom. */
  predicate Visited(box: Rect, c: nat, r: nat, x: nat, y: nat)
  {
    InRect(box, c, r) && (c < x || (c == x && r < y))
  }

  /** The loop invariant of the draw: visited cells hold their final contents `t`, all other
      cells their contents `b0` from before the draw. */
  ghost predicate DrawnUpTo(w: nat, h: nat, box: Rect, x: nat, y: nat, b0: Buffers, t: Buffers, b: Buffers)
  {
    Sized(b0, w, h) && Sized(t, w, h) && Sized(b, w, h) &&
    forall k :: 0 <= k < w * h ==>
      if Visited(box, Col(k, w), Row(k, w), x, y) then b.depth[k] == t.depth[k] && b.color[k] == t.color[k]
      else b.depth[k] == b0.depth[k] && b.color[k] == b0.color[k]
  }

  /** Flat cell `k` of a `w` by `h` grid is at column `Col(k, w) < w` and row `Row(k, w) < h`. */
  lemma CellOfFlat(k: nat, w: nat, h: nat)
    requires k < w * h
    ensures Col(k, w) < w && Row(k, w) < h && k == Col(k, w) + Row(k, w) * w
  {
    IndexOfCell(k, w);
    if Row(k, w) >= h {
      MulLe(h, Row(k, w), w);
      assert false;
    }
  }

  /** Cell `(x, y)` after the draw, in terms of its contents before. */
  lemma DrawnAt(pass: Pass, w: nat, h: nat, b0: Buffers, x: nat, y: nat)
    requires Drawable(pass) && Sized(b0, w, h) && x < w && y < h
    ensures x + y * w < w * h
    ensures var s, r, i := ToScreen(pass, w, h), Drawn(pass, w, h, b0), x + y * w;
            r.depth[i] == PixelDepth(s, x, y, b0.depth[i]) &&
            r.color[i] == PixelColor(pass, s, x, y, b0.depth[i], b0.color[i])
  {
    GridIndexBound(x, y, w, h);
    CellOfIndex(x, y, w);
  }

  /** A pixel of the box the loops have not reached yet still holds its contents from before. */
  lemma NotYetVisited(w: nat, h: nat, box: Rect, x: nat, y: nat, b0: Buffers, t: Buffers, b: Buffers)
    requires DrawnUpTo(w, h, box, x, y, b0, t, b) && x < w && y < h
    ensures x + y * w < w * h
    ensures b.depth[x + y * w] == b0.depth[x + y * w] && b.color[x + y * w] == b0.color[x + y * w]
  {
    GridIndexBound(x, y, w, h);
    CellOfIndex(x, y, w);
    assert Col(x + y * w, w) == x && Row(x + y * w, w) == y;
  }

  /** Visiting pixel `(x, y)` of the box, which writes the pixel's depth and colour computed from
      the cell's current contents, extends the invariant by one cell. */
  lemma VisitStep(pass: Pass, s: Screen, w: nat, h: nat, box: Rect, x: nat, y: nat, b0: Buffers, t: Buffers, b: Buffers, b': Buffers)
    requires DrawnUpTo(w, h, box, x, y, b0, t, b)
    requires Drawable(pass) && s == ToScreen(pass, w, h) && t == Drawn(pass, w, h, b0)
    requires InRect(box, x, y) && x < w && y < h && x + y * w < w * h
    requires b'.depth == b.depth[x + y * w := PixelDepth(s, x, y, b.depth[x + y * w])]
    requires b'.color == b.color[x + y * w := PixelColor(pass, s, x, y, b.depth[x + y * w], b.color[x + y * w])]
    ensures DrawnUpTo(w, h, box, x, y + 1, b0, t, b')
  {
    var i := x + y * w;
    NotYetVisited(w, h, box, x, y, b0, t, b);
    DrawnAt(pass, w, h, b0, x, y);
    CellOfIndex(x, y, w);
    assert Col(i, w) == x && Row(i, w) == y;
    forall k | 0 <= k < w * h && k != i
      ensures Col(k, w) != x || Row(k, w) != y
    {
      CellOfFlat(k, w, h);
    }
  }

  /** With its last row done, a column is complete and the next one starts. */
  lemma ColumnStep(w: nat, h: nat, box: Rect, x: nat, y: nat, b0: Buffers, t: Buffers, b: Buffers)
    requires DrawnUpTo(w, h, box, x, y, b0, t, b) && box.y1 <= y
    ensures DrawnUpTo(w, h, box, x + 1, box.y0, b0, t, b)
  {
  }

  /** Once every column of the box is done the buffers are those `Drawn` describes: the cells
      outside the box are exactly the ones the triangle does not cover. */
  lemma AllVisited(pass: Pass, w: nat, h: nat, x: nat, b0: Buffers, b: Buffers)
    requires Drawable(pass) && Sized(b0, w, h)
    requires var box := BoundingBox(ToScreen(pass, w, h), w, h);
             box.x1 <= x && DrawnUpTo(w, h, box, x, box.y0, b0, Drawn(pass, w, h, b0), b)
    ensures b == Drawn(pass, w, h, b0)
  {
    var s := ToScreen(pass, w, h);
    var box := BoundingBox(s, w, h);
    var r := Drawn(pass, w, h, b0);
    forall k | 0 <= k < w * h
      ensures b.depth[k] == r.depth[k] && b.color[k] == r.color[k]
    {
      CellOfFlat(k, w, h);
      if !InRect(box, Col(k, w), Row(k, w)) && Covers(s, Col(k, w), Row(k, w)) {
        CoveredInBox(s, w, h, Col(k, w), Row(k, w));
      }
    }
  }

  /** `Triangle::draw`: the colour and depth buffers afterwards are `Drawn` of their previous
      contents. The depth buffer must have the colour buffer's size, as `main` ensures. */
  method DrawTriangle(pass: Pass, framebuffer: Framebuffer<Vec3>, depthBuffer: Framebuffer<real>)
    requires Drawable(pass) && framebuffer.Valid() && depthBuffer.Valid()
    requires depthBuffer.width == framebuffer.width && depthBuffer.height == framebuffer.height
    modifies framebuffer.data, depthBuffer.data
    ensures Buffers(depthBuffer.data[..], framebuffer.data[..])
         == Drawn(pass, framebuffer.width, framebuffer.height, old(Buffers(depthBuffer.data[..], framebuffer.data[..])))
  {
    var w, h := framebuffer.width, framebuffer.height;
    var s := ToScreen(pass, w, h);
    var box := BoundingBox(s, w, h);
    ghost var b0 := Buffers(depthBuffer.data[..], framebuffer.data[..]);
    ghost var t := Drawn(pass, w, h, b0);
    var x := box.x0;
    while x < box.x1
      invariant DrawnUpTo(w, h, box, x, box.y0, b0, t, Buffers(depthBuffer.data[..], framebuffer.data[..]))
    {
      var y := box.y0;
      while y < box.y1
        invariant box.y0 <= y
        invariant DrawnUpTo(w, h, box, x, y, b0, t, Buffers(depthBuffer.data[..], framebuffer.data[..]))
      {
        ghost var b := Buffers(depthBuffer.data[..], framebuffer.data[..]);
        VisitPixel(pass, s, x, y, framebuffer, depthBuffer);
        VisitStep(pass, s, w, h, box, x, y, b0, t, b, Buffers(depthBuffer.data[..], framebuffer.data[..]));
        y := y + 1;
      }
      ColumnStep(w, h, box, x, y, b0, t, Buffers(depthBuffer.data[..], framebuffer.data[..]));
      x := x + 1;
    }
    AllVisited(pass, w, h, x, b0, Buffers(depthBuffer.data[..], framebuffer.data[..]));
  }

  /** The body of the pixel loop: the coverage test, the depth test, and the two writes. */
  method VisitPixel(pass: Pass, s: Screen, x: nat, y: nat, framebuffer: Framebuffer<Vec3>, depthBuffer: Framebuffer<real>)
    requires Drawable(pass) && framebuffer.Valid() && depthBuffer.Valid()
    requires depthBuffer.width == framebuffer.width && depthBuffer.height == framebuffer.height
    requires x < framebuffer.width && y < framebuffer.height
    modifies framebuffer.data, depthBuffer.data
    ensures var i, d, c := x + y * framebuffer.width, old(depthBuffer.data[..]), old(framebuffer.data[..]);
            i < |d| && i < |c| &&
            depthBuffer.data[..] == d[i := PixelDepth(s, x, y, d[i])] &&
            framebuffer.data[..] == c[i := PixelColor(pass, s, x, y, d[i], c[i])]
  {
    GridIndexBound(x, y, framebuffer.width, framebuffer.height);
    var p := Centre(x, y);
    var a0 := EdgeFunction(s.s1, s.s2, p);
    var a1 := EdgeFunction(s.s2, s.s0, p);
    var a2 := EdgeFunction(s.s0, s.s1, p);
    if a0 > 0.0 && a1 > 0.0 && a2 > 0.0 {
      var z := DepthAt(s, x, y);
      var depth := depthBuffer.GetPixel(x, y);
      if z < depth {
        depthBuffer.SetPixel(x, y, z);
        framebuffer.SetPixel(x, y, ColorAt(pass, s, x, y));
      }
    }
  }
}
