/** Rust's scalar types and float-to-integer casts, over Dafny's unbounded `int` and `real`.
    `f32` values are modelled as `real`: rounding, NaN and infinities are not represented. */
module Numeric {

  /** Rust `u8`. */
  type Byte = b: int | 0 <= b < 0x100

  /** Rust `u32`. */
  type U32 = n: int | 0 <= n < 0x1_0000_0000

  const I32Min: int := -0x8000_0000
  const I32Max: int := 0x7FFF_FFFF

  /** `f32::min` on non-NaN operands. */
  function Min(a: real, b: real): (r: real)
    ensures r <= a && r <= b && (r == a || r == b)
  {
    if a <= b then a else b
  }

  /** `f32::max` on non-NaN operands. */
  function Max(a: real, b: real): (r: real)
    ensures a <= r && b <= r && (r == a || r == b)
  {
    if a <= b then b else a
  }

  /** `f as usize`: truncation toward zero, saturating at 0 for negative values.
      The saturation at `usize::MAX` is not modelled (indices are unbounded here). */
  function ToUsize(f: real): (n: nat)
    ensures f <= 0.0 ==> n == 0
    ensures 0.0 <= f ==> n as real <= f < n as real + 1.0
  {
    if f <= 0.0 then 0 else f.Floor
  }

  /** `f as i32`: truncation toward zero, saturating at the bounds of `i32`. */
  function ToI32(f: real): (n: int)
    ensures I32Min <= n <= I32Max
    ensures I32Max as real <= f ==> n == I32Max
    ensures f <= I32Min as real ==> n == I32Min
    ensures 0.0 <= f < I32Max as real + 1.0 ==> n as real <= f < n as real + 1.0
    ensures I32Min as real - 1.0 < f <= 0.0 ==> n as real - 1.0 < f <= n as real
  {
    if f >= 0.0 then
      if f >= I32Max as real then I32Max else f.Floor
    else
      if f <= I32Min as real then I32Min else -((-f).Floor)
  }

  /** `f as u8`: truncation toward zero, saturating at 0 and 255. */
  function ToU8(f: real): (b: Byte)
    ensures f <= 0.0 ==> b == 0
    ensures 255.0 <= f ==> b == 255
    ensures 0.0 <= f < 256.0 ==> b as real <= f < b as real + 1.0
  {
    if f <= 0.0 then 0 else if f >= 255.0 then 255 else f.Floor
  }
}

/** Facts of nonlinear real arithmetic the solver does not find unaided, kept apart from
    integer-valued definitions so that their proof obligations stay purely real. */
module RealArith {

  lemma MulNonneg(a: real, b: real)
    requires 0.0 <= a && 0.0 <= b
    ensures 0.0 <= a * b
  {
  }

  lemma MulPos(a: real, b: real)
    requires 0.0 < a && 0.0 < b
    ensures 0.0 < a * b
  {
  }

  /** Multiplying by a positive factor keeps a strict order. */
  lemma MulStrictMono(a: real, b: real, r: real)
    requires a < b && 0.0 < r
    ensures a * r < b * r
  {
    MulPos(b - a, r);
    assert b * r - a * r == (b - a) * r;
  }

  /** Multiplying by a non-negative factor keeps a weak order. */
  lemma MulMono(a: real, b: real, r: real)
    requires a <= b && 0.0 <= r
    ensures a * r <= b * r
  {
    MulNonneg(b - a, r);
    assert b * r - a * r == (b - a) * r;
  }

  /** A factor in [0, 1] scales a non-negative value into [0, value]. */
  lemma ScaleUnit(s: real, t: real)
    requires 0.0 <= s && 0.0 <= t <= 1.0
    ensures 0.0 <= s * t <= s
  {
    MulNonneg(s, t);
    MulNonneg(s, 1.0 - t);
    assert s * (1.0 - t) == s - s * t;
  }

  lemma RecipPos(a: real)
    requires 0.0 < a
    ensures 0.0 < 1.0 / a && a * (1.0 / a) == 1.0
  {
  }

  /** Scaling by `1/w` is undone by scaling by `w`. */
  lemma UndoScale(a: real, w: real)
    requires w != 0.0
    ensures (1.0 / w) * w == 1.0 && (a * (1.0 / w)) * w == a
  {
    var r := 1.0 / w;
    assert r * w == 1.0;
    assert (a * r) * w == a * (r * w);
  }

  lemma DivCancel(k: real, s: real)
    requires s != 0.0
    ensures k * s / s == k
  {
    var q := k * s / s;
    assert q * s == k * s;
    assert (q - k) * s == 0.0;
  }

  /** A lerp upward between two values of [0, 1] with a weight in [0, 1] stays in [0, 1]. */
  lemma LerpUp(a: real, b: real, t: real)
    requires 0.0 <= a <= b <= 1.0 && 0.0 <= t <= 1.0
    ensures 0.0 <= a + (b - a) * t <= 1.0
  {
    ScaleUnit(b - a, t);
  }

  /** Three positive weights scaled by the reciprocal of their sum lie strictly between 0 and 1
      and sum to 1. */
  lemma NormalizedWeights(a0: real, a1: real, a2: real, rep: real)
    requires 0.0 < a0 && 0.0 < a1 && 0.0 < a2 && 0.0 < rep && (a0 + a1 + a2) * rep == 1.0
    ensures 0.0 < a0 * rep < 1.0 && 0.0 < a1 * rep < 1.0 && 0.0 < a2 * rep < 1.0
    ensures a0 * rep + a1 * rep + a2 * rep == 1.0
  {
    MulPos(a0, rep);
    MulPos(a1, rep);
    MulPos(a2, rep);
    assert a0 * rep + a1 * rep + a2 * rep == 1.0;
  }
  /** A point that three positive weights combine from three values lies between the
      smallest and the largest of them. */
  lemma ConvexBound(a0: real, a1: real, a2: real, x0: real, x1: real, x2: real, p: real)
    requires 0.0 < a0 && 0.0 < a1 && 0.0 < a2
    requires a0 * x0 + a1 * x1 + a2 * x2 == (a0 + a1 + a2) * p
    ensures x0 <= p || x1 <= p || x2 <= p
    ensures p <= x0 || p <= x1 || p <= x2
  {
    if x0 > p && x1 > p && x2 > p {
      MulStrictMono(p, x0, a0);
      MulStrictMono(p, x1, a1);
      MulStrictMono(p, x2, a2);
      assert false;
    }
    if x0 < p && x1 < p && x2 < p {
      MulStrictMono(x0, p, a0);
      MulStrictMono(x1, p, a1);
      MulStrictMono(x2, p, a2);
      assert false;
    }
  }
}

/** Facts of nonlinear integer arithmetic: Euclidean division and flat grid indices. */
module IntArith {

  /** The quotient and remainder of Euclidean division are determined by `k == q * w + r`, `0 <= r < w`. */
  lemma DivModUnique(k: int, w: int, q: int, r: int)
    requires 0 < w && 0 <= r < w && k == q * w + r
    ensures k / w == q && k % w == r
  {
    var q', r' := k / w, k % w;
    assert k == q' * w + r';
    if q' > q {
      MulAtLeast(q' - q, w);
    } else if q' < q {
      MulAtLeast(q - q', w);
    }
  }

  /** A positive multiple of `w` is at least `w`. */
  lemma MulAtLeast(n: int, w: int)
    requires 1 <= n && 0 < w
    ensures w <= n * w
  {
    assert n * w == w + (n - 1) * w;
  }

  /** Multiplying by a non-negative factor keeps a weak order. */
  lemma MulLe(a: int, b: int, w: int)
    requires a <= b && 0 <= w
    ensures a * w <= b * w
  {
    var d := b - a;
    assert 0 <= d * w;
    assert b * w == a * w + d * w;
  }

  /** A cell of a `w` by `h` grid has a flat index below `w * h`. */
  lemma GridIndexBound(col: nat, row: nat, w: nat, h: nat)
    requires col < w && row < h
    ensures col + row * w < w * h
  {
    MulLe(row + 1, h, w);
    assert (row + 1) * w == row * w + w;
    assert h * w == w * h;
  }
}

/** Sequence identities used to step loops over prefixes, each proved in isolation so that the
    extensional equality is not searched for inside larger proofs. */
module SeqFacts {

  lemma TakeSnoc<T>(s: seq<T>, i: nat)
    requires i < |s|
    ensures s[..i + 1] == s[..i] + [s[i]]
  {
  }

  lemma TakeAll<T>(s: seq<T>)
    ensures s[..|s|] == s
  {
  }

  lemma AppendSnoc<T>(a: seq<T>, b: seq<T>)
    requires b != []
    ensures a + b == (a + b[..|b| - 1]) + [b[|b| - 1]]
  {
  }
}
