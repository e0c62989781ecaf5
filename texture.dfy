/** Textures (`Texture` in src/texture.rs): an RGBA8 image addressed by real coordinates,
    with wrapped integer texel addressing and a four-tap bilinear blend. */
module Textures {
  import opened Numeric
  import opened IntArith
  import opened RealArith
  import opened Linear

  /** The four taps of a bilinear sample: top-left, top-right, bottom-left, bottom-right. */
  datatype Quad = Quad(tl: Vec4, tr: Vec4, bl: Vec4, br: Vec4)

  /** Row-major RGBA bytes, four per texel, and the image's size in texels. */
  datatype Texture = Texture(data: seq<Byte>, width: U32, height: U32)

  /** The shape an image decoded to RGBA8 has: four bytes per texel. */
  predicate Valid(t: Texture)
  {
    |t.data| == 4 * (t.width * t.height)
  }

  /** A texture `get_pixel` can read without panicking: with a dimension of 1 the wrap
      modulus `dim - 1` is 0 (and with 0 the `u32` subtraction underflows). */
  predicate Addressable(t: Texture)
  {
    Valid(t) && 2 <= t.width && 2 <= t.height
  }

  /** A texture coordinate in texel units. */
  function Scaled(v: real, n: nat): real { v * n as real }

  /** One axis of `get_pixel`'s addressing: `(coord * dim) as usize % (dim - 1)`. The result
      is below `dim - 1`, so the last column (or row) is never read. */
  function Wrap(coord: real, dim: nat): (i: nat)
    requires 2 <= dim
    ensures i < dim - 1
  {
    ToUsize(Scaled(coord, dim)) % (dim - 1)
  }

  /** A byte as a colour channel: `i as f32 / 255.0`, which lies in [0, 1]. */
  function Channel(b: Byte): (c: real)
    ensures 0.0 <= c <= 1.0
    ensures c * 255.0 == b as real
  {
    b as real / 255.0
  }

  /** The texel in column `col` and row `row`: chunk `col + row * width` of the data. */
  function Texel(t: Texture, col: nat, row: nat): (c: Vec4)
    requires Valid(t) && col < t.width && row < t.height
    ensures InUnitRange(c)
  {
    GridIndexBound(col, row, t.width, t.height);
    var k := 4 * (col + row * t.width);
    Vec4(Channel(t.data[k]), Channel(t.data[k + 1]), Channel(t.data[k + 2]), Channel(t.data[k + 3]))
  }

  /** `get_pixel`: the texel at the wrapped column and row of `(x, y)`. */
  function GetPixel(t: Texture, x: real, y: real): (c: Vec4)
    requires Addressable(t)
    ensures InUnitRange(c)
  {
    Texel(t, Wrap(x, t.width), Wrap(y, t.height))
  }

  /** The fractional offset `v - (v as i32) as f32` of `sample_pixel`. */
  function Fraction(v: real): (f: real)
    ensures 0.0 <= v < I32Max as real + 1.0 ==> 0.0 <= f < 1.0
    ensures I32Min as real - 1.0 < v <= 0.0 ==> -1.0 < f <= 0.0
  {
    v - ToI32(v) as real
  }

  /** The four taps of `sample_pixel` at `(x, y)`, one texel to either side on each axis:
      top-left, top-right, bottom-left, bottom-right. */
  function Taps(t: Texture, x: real, y: real): (r: Quad)
    requires Addressable(t)
    ensures InUnitRange(r.tl) && InUnitRange(r.tr) && InUnitRange(r.bl) && InUnitRange(r.br)
  {
    var invW, invH := 1.0 / t.width as real, 1.0 / t.height as real;
    Quad(GetPixel(t, x - invW, y - invH), GetPixel(t, x + invW, y - invH),
         GetPixel(t, x - invW, y + invH), GetPixel(t, x + invW, y + invH))
  }

  /** The blend of `sample_pixel`: the bottom pair and the top pair are each lerped by `dx`,
      then top is lerped to bottom by `dy`. */
  function Blend(tl: Vec4, tr: Vec4, bl: Vec4, br: Vec4, dx: real, dy: real): Vec4
  {
    var bottom := Lerp4(bl, br, dx);
    var top := Lerp4(tl, tr, dx);
    Lerp4(top, bottom, dy)
  }

  /** `sample_pixel`: the four taps blended by the fractional offsets of `(x * width, y * height)`. */
  function SamplePixel(t: Texture, x: real, y: real): Vec4
    requires Addressable(t)
  {
    Blend(Taps(t, x, y).tl, Taps(t, x, y).tr, Taps(t, x, y).bl, Taps(t, x, y).br,
          Fraction(Scaled(x, t.width)), Fraction(Scaled(y, t.height)))
  }

  /** Four values weighted by the bilinear weights of the offsets `(dx, dy)`. */
  function BilinearSum(tl: real, tr: real, bl: real, br: real, dx: real, dy: real): real
  {
    tl * ((1.0 - dx) * (1.0 - dy)) + tr * (dx * (1.0 - dy)) + bl * ((1.0 - dx) * dy) + br * (dx * dy)
  }

  /** Four colours weighted by the bilinear weights of `(dx, dy)`, channel by channel. */
  function Bilinear(tl: Vec4, tr: Vec4, bl: Vec4, br: Vec4, dx: real, dy: real): Vec4
  {
    Vec4(BilinearSum(tl.x, tr.x, bl.x, br.x, dx, dy), BilinearSum(tl.y, tr.y, bl.y, br.y, dx, dy),
         BilinearSum(tl.z, tr.z, bl.z, br.z, dx, dy), BilinearSum(tl.w, tr.w, bl.w, br.w, dx, dy))
  }

  // --- Addressing

  /** The float-to-`usize` cast saturates, so a non-positive coordinate reads column (or row) 0. */
  lemma WrapNegative(coord: real, dim: nat)
    requires 2 <= dim && coord <= 0.0
    ensures Wrap(coord, dim) == 0
  {
    MulMono(coord, 0.0, dim as real);
  }

  /** Left of (or above) the image both taps of an axis, one texel to either side, read
      column (or row) 0: `(coord ± 1/dim) * dim` is `coord * dim ± 1`, below 1. */
  lemma TapsAtZero(coord: real, dim: nat)
    requires 2 <= dim && Scaled(coord, dim) < 0.0
    ensures Wrap(coord - 1.0 / dim as real, dim) == 0 && Wrap(coord + 1.0 / dim as real, dim) == 0
  {
    var inv := 1.0 / dim as real;
    assert inv * dim as real == 1.0;
    assert Scaled(coord + inv, dim) == Scaled(coord, dim) + 1.0;
    assert Scaled(coord - inv, dim) == Scaled(coord, dim) - 1.0;
  }

  /** Moving a non-negative coordinate by a whole unit moves the texel by one, modulo `dim - 1`:
      the wrap has period `(dim - 1) / dim`, not 1, so a texture does not tile seamlessly. */
  lemma WrapShift(coord: real, dim: nat)
    requires 2 <= dim && 0.0 <= coord
    ensures Wrap(coord + 1.0, dim) == (Wrap(coord, dim) + 1) % (dim - 1)
  {
    CastShift(coord, dim);
    ModShift(ToUsize(Scaled(coord, dim)), ToUsize(Scaled(coord + 1.0, dim)), dim);
  }

  /** A unit step of the coordinate moves the truncated product by `dim`. */
  lemma CastShift(coord: real, dim: nat)
    requires 0.0 <= coord
    ensures ToUsize(Scaled(coord + 1.0, dim)) == ToUsize(Scaled(coord, dim)) + dim
  {
    var p, q := coord * dim as real, (coord + 1.0) * dim as real;
    MulNonneg(coord, dim as real);
    assert q == p + dim as real;
    FloorShift(p, dim);
  }

  lemma FloorShift(f: real, k: nat)
    requires 0.0 <= f
    ensures ToUsize(f + k as real) == ToUsize(f) + k
  {
  }

  lemma ModShift(n: nat, a: nat, k: nat)
    requires 2 <= k && a == n + k
    ensures a % (k - 1) == (n % (k - 1) + 1) % (k - 1)
  {
    var m := k - 1;
    var q, r := n / m, n % m;
    assert n == q * m + r;
    if r + 1 < m {
      DivModUnique(a, m, q + 1, r + 1);
      DivModUnique(r + 1, m, 0, r + 1);
    } else {
      DivModUnique(a, m, q + 2, 0);
      DivModUnique(r + 1, m, 1, 0);
    }
  }

  /** The texel `get_pixel` reads lies inside the image: chunk `col + row * width` exists. */
  lemma GetPixelInBounds(t: Texture, x: real, y: real)
    requires Addressable(t)
    ensures Wrap(x, t.width) + Wrap(y, t.height) * t.width < t.width * t.height
    ensures 4 * (Wrap(x, t.width) + Wrap(y, t.height) * t.width) + 3 < |t.data|
  {
    GridIndexBound(Wrap(x, t.width), Wrap(y, t.height), t.width, t.height);
  }

  /** Two textures of the same size that agree everywhere except in their last column and row. */
  predicate SameInterior(t: Texture, u: Texture)
    requires Valid(t) && Valid(u)
  {
    t.width == u.width && t.height == u.height &&
    forall col: nat, row: nat :: col < t.width - 1 && row < t.height - 1 ==> Texel(t, col, row) == Texel(u, col, row)
  }

  /** The last column and the last row of a texture are never read by `get_pixel` (and so by
      none of the four taps of `sample_pixel`). */
  lemma GetPixelIgnoresLastColumnAndRow(t: Texture, u: Texture, x: real, y: real)
    requires Addressable(t) && Addressable(u) && SameInterior(t, u)
    ensures GetPixel(t, x, y) == GetPixel(u, x, y)
  {
    var col, row := Wrap(x, t.width), Wrap(y, t.height);
    assert Texel(t, col, row) == Texel(u, col, row);
  }

  // --- Blending

  /** The blend is the weighted sum of the four taps with the bilinear weights of `(dx, dy)`. */
  lemma BlendIsBilinear(tl: Vec4, tr: Vec4, bl: Vec4, br: Vec4, dx: real, dy: real)
    ensures Blend(tl, tr, bl, br, dx, dy) == Bilinear(tl, tr, bl, br, dx, dy)
  {
    BilinearScalar(tl.x, tr.x, bl.x, br.x, dx, dy);
    BilinearScalar(tl.y, tr.y, bl.y, br.y, dx, dy);
    BilinearScalar(tl.z, tr.z, bl.z, br.z, dx, dy);
    BilinearScalar(tl.w, tr.w, bl.w, br.w, dx, dy);
  }

  /** Two lerps by `dx` followed by a lerp by `dy` weight the four values bilinearly. */
  lemma BilinearScalar(tl: real, tr: real, bl: real, br: real, dx: real, dy: real)
    ensures Lerp(Lerp(tl, tr, dx), Lerp(bl, br, dx), dy) == BilinearSum(tl, tr, bl, br, dx, dy)
  {
  }

  /** With offsets in [0, 1] the four bilinear weights are non-negative and sum to 1. */
  lemma BilinearWeightsConvex(dx: real, dy: real)
    requires 0.0 <= dx <= 1.0 && 0.0 <= dy <= 1.0
    ensures 0.0 <= (1.0 - dx) * (1.0 - dy) && 0.0 <= dx * (1.0 - dy)
    ensures 0.0 <= (1.0 - dx) * dy && 0.0 <= dx * dy
    ensures (1.0 - dx) * (1.0 - dy) + dx * (1.0 - dy) + (1.0 - dx) * dy + dx * dy == 1.0
  {
    MulNonneg(1.0 - dx, 1.0 - dy);
    MulNonneg(dx, 1.0 - dy);
    MulNonneg(1.0 - dx, dy);
    MulNonneg(dx, dy);
  }

  /** Blending colours of the unit range with offsets in [0, 1] stays in the unit range. */
  lemma BlendUnitRange(tl: Vec4, tr: Vec4, bl: Vec4, br: Vec4, dx: real, dy: real)
    requires InUnitRange(tl) && InUnitRange(tr) && InUnitRange(bl) && InUnitRange(br)
    requires 0.0 <= dx <= 1.0 && 0.0 <= dy <= 1.0
    ensures InUnitRange(Blend(tl, tr, bl, br, dx, dy))
  {
    LerpUnitRange(bl, br, dx);
    LerpUnitRange(tl, tr, dx);
    LerpUnitRange(Lerp4(tl, tr, dx), Lerp4(bl, br, dx), dy);
  }

  /** `sample_pixel` is the bilinear combination of its four taps with the weights of the
      fractional offsets. */
  lemma SampleIsBilinear(t: Texture, x: real, y: real)
    requires Addressable(t)
    ensures var r := Taps(t, x, y);
            SamplePixel(t, x, y)
            == Bilinear(r.tl, r.tr, r.bl, r.br, Fraction(Scaled(x, t.width)), Fraction(Scaled(y, t.height)))
  {
    var r := Taps(t, x, y);
    BlendIsBilinear(r.tl, r.tr, r.bl, r.br, Fraction(Scaled(x, t.width)), Fraction(Scaled(y, t.height)));
  }

  /** `sample_pixel` blends its four taps by the fractional offsets of the scaled coordinates. */
  lemma SampleIsBlend(t: Texture, x: real, y: real)
    requires Addressable(t)
    ensures SamplePixel(t, x, y) == Blend(Taps(t, x, y).tl, Taps(t, x, y).tr, Taps(t, x, y).bl, Taps(t, x, y).br,
          Fraction(Scaled(x, t.width)), Fraction(Scaled(y, t.height)))
  {
  }

  /** A lerp between a colour and itself is that colour, whatever the weight. */
  lemma LerpSame(c: Vec4, t: real)
    ensures Lerp4(c, c, t) == c
  {
  }

  /** The blend stays in the unit range when, on each axis, the offset lies in [0, 1] or the
      two taps it weighs against each other are equal. */
  lemma BlendUnitRangeOrFlat(tl: Vec4, tr: Vec4, bl: Vec4, br: Vec4, dx: real, dy: real)
    requires InUnitRange(tl) && InUnitRange(tr) && InUnitRange(bl) && InUnitRange(br)
    requires (0.0 <= dx <= 1.0) || (tl == tr && bl == br)
    requires (0.0 <= dy <= 1.0) || (tl == bl && tr == br)
    ensures InUnitRange(Blend(tl, tr, bl, br, dx, dy))
  {
    if 0.0 <= dx <= 1.0 && 0.0 <= dy <= 1.0 {
      BlendUnitRange(tl, tr, bl, br, dx, dy);
    } else if 0.0 <= dx <= 1.0 {
      LerpUnitRange(tl, tr, dx);
      LerpSame(Lerp4(tl, tr, dx), dy);
    } else {
      LerpSame(tl, dx);
      LerpSame(bl, dx);
      if 0.0 <= dy <= 1.0 {
        LerpUnitRange(tl, bl, dy);
      } else {
        LerpSame(tl, dy);
      }
    }
  }

  /** Every sample whose scaled coordinates stay below the `i32` limit of the cast is in the
      unit range. Non-negative coordinates give offsets in [0, 1), a convex combination; a
      negative coordinate gives a negative offset, but then both taps it weighs read column
      (or row) 0 and are equal. */
  lemma SampleInUnitRange(t: Texture, x: real, y: real)
    requires Addressable(t)
    requires Scaled(x, t.width) < I32Max as real + 1.0
    requires Scaled(y, t.height) < I32Max as real + 1.0
    ensures InUnitRange(SamplePixel(t, x, y))
  {
    SampleIsBlend(t, x, y);
    var r := Taps(t, x, y);
    if Scaled(x, t.width) < 0.0 {
      TapsAtZero(x, t.width);
    }
    if Scaled(y, t.height) < 0.0 {
      TapsAtZero(y, t.height);
    }
    BlendUnitRangeOrFlat(r.tl, r.tr, r.bl, r.br, Fraction(Scaled(x, t.width)), Fraction(Scaled(y, t.height)));
  }

  /** A texture whose readable texels all hold one colour samples to that colour everywhere,
      whatever the offsets (negative ones included). */
  lemma SampleUniform(t: Texture, c: Vec4, x: real, y: real)
    requires Addressable(t)
    requires forall col: nat, row: nat :: col < t.width - 1 && row < t.height - 1 ==> Texel(t, col, row) == c
    ensures SamplePixel(t, x, y) == c
  {
    forall a: real, b: real
      ensures GetPixel(t, a, b) == c
    {
      assert Texel(t, Wrap(a, t.width), Wrap(b, t.height)) == c;
    }
    assert Taps(t, x, y) == Quad(c, c, c, c);
  }
}
