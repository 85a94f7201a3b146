/**
 * The layout of an image's pixel buffer: `width * height * bpp` unsigned
 * 8-bit samples, row-major, with the `bpp` channels of a pixel adjacent.
 */
module Raster {
  import opened Arith

  /** An unsigned 8-bit sample, C's `uint8_t`. */
  newtype byte = x: int | 0 <= x < 256

  /** The dimensions of an `Image`; its `data` buffer is kept apart from them. */
  datatype Geometry = Geometry(width: nat, height: nat, bpp: nat)

  /** One sample position: pixel column `x`, row `y`, channel `bit`. */
  datatype Cell = Cell(x: int, y: int, bit: int)

  /** The length of the pixel buffer of an image of these dimensions. */
  function Size(g: Geometry): nat
  {
    g.width * g.height * g.bpp
  }

  /** `Index(x, y, width, bit, bpp)`: the buffer position of a sample. */
  function Index(x: int, y: int, width: int, bit: int, bpp: int): int
  {
    (y * width + x) * bpp + bit
  }

  predicate InImage(g: Geometry, c: Cell)
  {
    0 <= c.x < g.width && 0 <= c.y < g.height && 0 <= c.bit < g.bpp
  }

  /** The buffer position of a cell of an image with dimensions `g`. */
  function Offset(g: Geometry, c: Cell): int
  {
    Index(c.x, c.y, g.width, c.bit, g.bpp)
  }

  /** The buffer position where row `y` begins. */
  function RowStart(g: Geometry, y: int): int
  {
    Index(0, y, g.width, 0, g.bpp)
  }

  /** Every sample of the image lies inside the buffer. */
  lemma OffsetInBounds(g: Geometry, c: Cell)
    requires InImage(g, c)
    ensures 0 <= Offset(g, c) < Size(g)
    ensures RowStart(g, c.y) <= Offset(g, c) < RowStart(g, c.y + 1)
  {
    var w, h, b := g.width, g.height, g.bpp;
    var x, y := c.x, c.y;
    var p := y * w + x;
    MulNat(y, w);
    MulNat(p, b);
    MulSucc(y, w);
    MulLeft(y + 1, h, w);
    assert p + 1 <= h * w;
    MulSucc(p, b);
    MulLeft(p + 1, h * w, b);
    assert h * w == w * h;
    assert Offset(g, c) == p * b + c.bit;
    assert Offset(g, c) < (p + 1) * b;
    assert Size(g) == (w * h) * b;
    MulLeft(y * w, p, b);
    MulLeft(p + 1, (y + 1) * w, b);
  }

  /** Rows begin in increasing order; row `height` begins at the end of the buffer. */
  lemma RowStartMonotone(g: Geometry, y: int, y': int)
    requires y <= y'
    ensures RowStart(g, y) <= RowStart(g, y')
    ensures RowStart(g, g.height) == Size(g)
  {
    MulLeft(y * g.width, y' * g.width, g.bpp) by {
      MulLeft(y, y', g.width);
    }
  }

  /** The channels of pixel `x` of row `y` lie inside that row. */
  lemma PixelInRow(g: Geometry, x: int, y: int)
    requires 0 <= x < g.width && 0 <= y
    ensures RowStart(g, y) <= Index(x, y, g.width, 0, g.bpp)
    ensures Index(x, y, g.width, 0, g.bpp) + g.bpp <= RowStart(g, y + 1)
  {
    MulLeft(y * g.width, y * g.width + x, g.bpp);
    MulSucc(y * g.width + x, g.bpp);
    MulLeft(y * g.width + x + 1, y * g.width + g.width, g.bpp);
    MulSucc(y, g.width);
  }

  /** Consecutive channels, then pixels, then rows occupy consecutive positions. */
  lemma IndexStep(g: Geometry, x: int, y: int)
    ensures Index(x, y, g.width, g.bpp, g.bpp) == Index(x + 1, y, g.width, 0, g.bpp)
    ensures Index(g.width, y, g.width, 0, g.bpp) == RowStart(g, y + 1)
  {
  }

  /**
   * The cell stored at buffer position `i`: the inverse of `Offset`, in the
   * order in which the engine's row, pixel and channel loops visit cells.
   */
  function Decode(g: Geometry, i: int): (c: Cell)
    requires 0 <= i < Size(g)
    ensures InImage(g, c) && Offset(g, c) == i
  {
    var w, h, b := g.width, g.height, g.bpp;
    PositiveFactors(w, h, b);
    var p, bit := i / b, i % b;
    DivMod(i, b);
    var x, y := p % w, p / w;
    DivMod(p, w);
    assert p < w * h by {
      assert p * b <= i < (w * h) * b;
      MulCancel(p, w * h, b);
    }
    assert y < h by {
      assert y * w <= p < h * w;
      MulCancel(y, h, w);
    }
    var c := Cell(x, y, bit);
    assert Offset(g, c) == (y * w + x) * b + bit;
    c
  }

  /** Decoding the position of a cell yields that cell. */
  lemma DecodeOffset(g: Geometry, c: Cell)
    requires InImage(g, c)
    ensures 0 <= Offset(g, c) < Size(g) && Decode(g, Offset(g, c)) == c
  {
    OffsetInBounds(g, c);
    var p := c.y * g.width + c.x;
    DivModUnique(Offset(g, c), g.bpp, p, c.bit);
    DivModUnique(p, g.width, c.y, c.x);
  }

  /** Different cells of an image occupy different buffer positions. */
  lemma OffsetInjective(g: Geometry, c: Cell, c': Cell)
    requires InImage(g, c) && InImage(g, c')
    ensures Offset(g, c) == Offset(g, c') <==> c == c'
  {
    DecodeOffset(g, c);
    DecodeOffset(g, c');
  }

  /** A cell lies in rows `[lo, hi)` exactly when its position lies between those rows' starts. */
  lemma RowSpan(g: Geometry, c: Cell, lo: int, hi: int)
    requires InImage(g, c)
    ensures lo <= c.y < hi <==> RowStart(g, lo) <= Offset(g, c) < RowStart(g, hi)
  {
    OffsetInBounds(g, c);
    if c.y < lo {
      RowStartMonotone(g, c.y + 1, lo);
    }
    if lo <= c.y {
      RowStartMonotone(g, lo, c.y);
    }
    if c.y < hi {
      RowStartMonotone(g, c.y + 1, hi);
    }
    if hi <= c.y {
      RowStartMonotone(g, hi, c.y);
    }
  }
}
