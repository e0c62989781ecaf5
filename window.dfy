/** The frame buffers of the renderer (`Framebuffer<T>` in src/window.rs): a row-major grid of
    `width * height` cells, written in place, and its packing into the display surface's
    32-bit pixels. */
module Window {
  import opened Numeric
  import opened Linear
  import opened IntArith

  class Framebuffer<T> {
    const width: nat
    const height: nat
    /** The cells, row by row: cell `(x, y)` is `data[x + y * width]`. */
    const data: array<T>

    predicate Valid()
    {
      data.Length == width * height
    }

    /** `Framebuffer::new`: `width * height` cells, all holding `default` (the source's `T::default()`). */
    constructor (width: nat, height: nat, default: T)
      ensures Valid() && fresh(data)
      ensures this.width == width && this.height == height
      ensures data[..] == seq(width * height, _ => default)
    {
      this.width := width;
      this.height := height;
      data := new T[width * height](_ => default);
    }

    /** The flat index `x + y * width` is in range: exactly when `get_pixel` and `set_pixel` do
        not panic. A column `x >= width` is not rejected: it reaches into a later row. */
    predicate InBounds(x: nat, y: nat)
    {
      x + y * width < width * height
    }

    /** `get_pixel`: reads flat index `y * width + x`, the very cell that `set_pixel(x, y, _)` writes. */
    function GetPixel(x: nat, y: nat): (v: T)
      requires Valid() && InBounds(x, y)
      reads data
      ensures v == data[x + y * width]
    {
      data[y * width + x]
    }

    /** `set_pixel`: overwrites flat cell `x + y * width` and nothing else. */
    method SetPixel(x: nat, y: nat, value: T)
      requires Valid() && InBounds(x, y)
      modifies data
      ensures data[..] == old(data[..])[x + y * width := value]
      ensures GetPixel(x, y) == value
      ensures forall x': nat, y': nat :: InBounds(x', y') && x' + y' * width != x + y * width ==>
                GetPixel(x', y') == old(GetPixel(x', y'))
    {
      data[x + y * width] := value;
    }

    /** `clear`: every cell holds `value`; the size does not change. */
    method Clear(value: T)
      requires Valid()
      modifies data
      ensures data[..] == seq(data.Length, _ => value)
    {
      for i := 0 to data.Length
        invariant forall j :: 0 <= j < i ==> data[j] == value
      {
        data[i] := value;
      }
    }
  }

  /** A column past the end of a row names the same cell as the matching column of the next row. */
  lemma RowAliasing<T>(fb: Framebuffer<T>, x: nat, y: nat)
    requires fb.Valid() && x >= fb.width
    ensures fb.InBounds(x, y) <==> fb.InBounds(x - fb.width, y + 1)
    ensures fb.InBounds(x, y) ==> fb.GetPixel(x, y) == fb.GetPixel(x - fb.width, y + 1)
  {
    assert x + y * fb.width == (x - fb.width) + (y + 1) * fb.width;
  }

  /** On a grid of width `w`, the flat index of a cell in column `x < w` decodes back to `(x, y)`. */
  lemma CellOfIndex(x: nat, y: nat, w: nat)
    requires x < w
    ensures (x + y * w) % w == x && (x + y * w) / w == y
  {
    DivModUnique(x + y * w, w, y, x);
  }

  /** Every flat index of a grid of width `w` is `x + y * w` for its column `x = k % w` and row `y = k / w`. */
  lemma IndexOfCell(k: nat, w: nat)
    requires 0 < w
    ensures k % w < w && k == k % w + (k / w) * w
  {
  }

  // --- `as_buffer`: one big-endian `u32` per cell, leading byte 0, then red, green and blue.

  function FromBeBytes(b0: Byte, b1: Byte, b2: Byte, b3: Byte): U32
  {
    b0 * 0x100_0000 + b1 * 0x1_0000 + b2 * 0x100 + b3
  }

  function ToBeBytes(n: U32): seq<Byte>
  {
    [n / 0x100_0000, (n / 0x1_0000) % 0x100, (n / 0x100) % 0x100, n % 0x100]
  }

  /** `u32::from_be_bytes` is undone by splitting the word back into its bytes. */
  lemma BeBytesRoundTrip(b0: Byte, b1: Byte, b2: Byte, b3: Byte)
    ensures ToBeBytes(FromBeBytes(b0, b1, b2, b3)) == [b0, b1, b2, b3]
  {
    var n := FromBeBytes(b0, b1, b2, b3);
    DivModUnique(n, 0x100, b0 * 0x1_0000 + b1 * 0x100 + b2, b3);
    DivModUnique(n, 0x1_0000, b0 * 0x100 + b1, b2 * 0x100 + b3);
    DivModUnique(n, 0x100_0000, b0, b1 * 0x1_0000 + b2 * 0x100 + b3);
    DivModUnique(n / 0x100, 0x100, b0 * 0x100 + b1, b2);
    DivModUnique(n / 0x1_0000, 0x100, b0, b1);
  }

  /** `(f * 255.0) as u8`. */
  function ChannelByte(f: real): Byte
  {
    ToU8(f * 255.0)
  }

  /** The 32-bit word for one colour cell: the bytes `[0, r, g, b]` read big-endian. */
  function PackColor(c: Vec3): (n: U32)
    ensures n < 0x100_0000
    ensures ToBeBytes(n) == [0, ChannelByte(c.x), ChannelByte(c.y), ChannelByte(c.z)]
  {
    BeBytesRoundTrip(ChannelByte(0.0), ChannelByte(c.x), ChannelByte(c.y), ChannelByte(c.z));
    FromBeBytes(ChannelByte(0.0), ChannelByte(c.x), ChannelByte(c.y), ChannelByte(c.z))
  }

  /** `as_buffer`: one word per cell, in cell order; the reserved leading byte is always 0. */
  function AsBuffer(fb: Framebuffer<Vec3>): (r: seq<U32>)
    reads fb.data
    ensures |r| == fb.data.Length
    ensures forall i :: 0 <= i < |r| ==>
              r[i] < 0x100_0000 &&
              ToBeBytes(r[i]) == [0, ChannelByte(fb.data[i].x), ChannelByte(fb.data[i].y), ChannelByte(fb.data[i].z)]
  {
    seq(fb.data.Length, i requires 0 <= i < fb.data.Length reads fb.data => PackColor(fb.data[i]))
  }
}
