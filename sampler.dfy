/**
 * The pixel sampler `getPixelValue`: edge-replicating neighbour
 * coordinates, the weighted sum of the nine neighbour samples of one
 * channel, and the narrowing of that sum to an 8-bit sample. Also the
 * whole-image result `Convolved` that the engine's loops are proved to
 * produce, and the laws it obeys.
 */
module Sampler {
  import opened Raster
  import opened Kernels

  datatype Option<T> = None | Some(value: T)

  /** The clamped neighbour coordinates of a pixel: columns `mx, px`, rows `my, py`. */
  datatype Neighbourhood = Neighbourhood(mx: int, px: int, my: int, py: int)

  /**
   * image.c lines 42-46, in `getPixelValue`: the coordinates one step left, right,
   * up and down, each pulled back onto the image when it falls off it.
   */
  function Neighbours(g: Geometry, x: int, y: int): (n: Neighbourhood)
    requires 0 <= x < g.width && 0 <= y < g.height
    ensures 0 <= n.mx <= x <= n.px <= g.width - 1
    ensures 0 <= n.my <= y <= n.py <= g.height - 1
    ensures x == 0 ==> n.mx == 0
    ensures y == 0 ==> n.my == 0
  {
    var px, py, mx, my := x + 1, y + 1, x - 1, y - 1;
    var mx := if mx < 0 then 0 else mx;
    var my := if my < 0 then 0 else my;
    var px := if px >= g.width then g.width - 1 else px;
    var py := if py >= g.height then g.height - 1 else py;
    Neighbourhood(mx, px, my, py)
  }

  function Min(a: int, b: int): int { if a <= b then a else b }
  function Max(a: int, b: int): int { if a <= b then b else a }

  /** The nearest point of `[lo, hi]` to `v`. */
  function Clamp(v: int, lo: int, hi: int): int
    requires lo <= hi
  {
    Max(lo, Min(v, hi))
  }

  /**
   * Edge replication: each neighbour coordinate is the one-step coordinate
   * moved to the nearest coordinate on the image, so it is changed exactly
   * when it falls off the image.
   */
  lemma NeighboursAreClamped(g: Geometry, x: int, y: int)
    requires 0 <= x < g.width && 0 <= y < g.height
    ensures Neighbours(g, x, y) == Neighbourhood(
      Clamp(x - 1, 0, g.width - 1), Clamp(x + 1, 0, g.width - 1),
      Clamp(y - 1, 0, g.height - 1), Clamp(y + 1, 0, g.height - 1))
    ensures Neighbours(g, x, y).mx == x - 1 <==> 1 <= x
    ensures Neighbours(g, x, y).px == x + 1 <==> x + 1 < g.width
    ensures Neighbours(g, x, y).my == y - 1 <==> 1 <= y
    ensures Neighbours(g, x, y).py == y + 1 <==> y + 1 < g.height
  {
  }

  /** Away from the border the neighbours are exactly the adjacent pixels. */
  lemma InteriorNeighbours(g: Geometry, x: int, y: int)
    requires 1 <= x < g.width - 1 && 1 <= y < g.height - 1
    ensures Neighbours(g, x, y) == Neighbourhood(x - 1, x + 1, y - 1, y + 1)
  {
  }

  /**
   * The nine cells `getPixelValue` reads, in the order of the kernel's
   * weights (kernel row `r`, column `c` is element `3 * r + c`).
   */
  function NeighbourCells(g: Geometry, x: int, y: int, bit: int): (s: seq<Cell>)
    requires InImage(g, Cell(x, y, bit))
    ensures |s| == 9
    ensures forall j :: 0 <= j < 9 ==> InImage(g, s[j]) && 0 <= Offset(g, s[j]) < Size(g)
    ensures forall j :: 0 <= j < 9 ==> s[j].bit == bit && -1 <= s[j].x - x <= 1 && -1 <= s[j].y - y <= 1
    ensures s[4] == Cell(x, y, bit)
  {
    var n := Neighbours(g, x, y);
    var s := [Cell(n.mx, n.my, bit), Cell(x, n.my, bit), Cell(n.px, n.my, bit),
              Cell(n.mx, y, bit), Cell(x, y, bit), Cell(n.px, y, bit),
              Cell(n.mx, n.py, bit), Cell(x, n.py, bit), Cell(n.px, n.py, bit)];
    assert forall j :: 0 <= j < 9 ==> InImage(g, s[j]) && 0 <= Offset(g, s[j]) < Size(g) by {
      forall j | 0 <= j < 9
        ensures InImage(g, s[j]) && 0 <= Offset(g, s[j]) < Size(g)
      {
        OffsetInBounds(g, s[j]);
      }
    }
    s
  }

  /** The value of the sample at cell `c` of the source buffer. */
  function Sample(g: Geometry, src: seq<byte>, c: Cell): real
    requires |src| == Size(g) && InImage(g, c)
  {
    OffsetInBounds(g, c);
    src[Offset(g, c)] as real
  }

  /** The nine samples `getPixelValue` reads, in the order of the kernel's weights. */
  function Samples(g: Geometry, src: seq<byte>, x: int, y: int, bit: int): (v: seq<real>)
    requires |src| == Size(g) && InImage(g, Cell(x, y, bit))
    ensures |v| == 9
  {
    var s := NeighbourCells(g, x, y, bit);
    seq(9, j requires 0 <= j < 9 => Sample(g, src, s[j]))
  }

  /** image.c lines 47-56, in `getPixelValue`: the weighted sum before narrowing. */
  function WeightedSum(g: Geometry, src: seq<byte>, x: int, y: int, bit: int, k: Matrix): real
    requires |src| == Size(g) && InImage(g, Cell(x, y, bit))
  {
    Apply(k, Samples(g, src, x, y, bit))
  }

  /** C's conversion of a floating value to an integer: the fraction is discarded. */
  function TruncateTowardZero(v: real): int
  {
    if v >= 0.0 then v.Floor else -((-v).Floor)
  }

  /**
   * The narrowing `uint8_t result = <double>` exactly as C defines it: the
   * value truncated toward zero when that fits in 0..255, and no value
   * (undefined behaviour) otherwise.
   */
  function NarrowAsWritten(v: real): (r: Option<byte>)
    ensures r.Some? <==> -1.0 < v < 256.0
  {
    var t := TruncateTowardZero(v);
    if 0 <= t < 256 then Some(t as byte) else None
  }

  /**
   * The narrowing this model uses: round down, then saturate to 0..255.
   * Saturation is a modelling choice for the sums C leaves undefined.
   */
  function ToByte(v: real): (r: byte)
    ensures v < 0.0 ==> r == 0
    ensures v >= 255.0 ==> r == 255
    ensures 0.0 <= v < 256.0 ==> r as int == v.Floor
  {
    var f := v.Floor;
    if f < 0 then 0 else if f > 255 then 255 else f as byte
  }

  /** Saturating narrowing agrees with C's wherever C defines the result. */
  lemma ToByteAgreesWithC(v: real)
    ensures NarrowAsWritten(v).Some? ==> NarrowAsWritten(v).value == ToByte(v)
  {
    if -1.0 < v < 0.0 {
      assert (-v).Floor == 0;
    }
  }

  /** A sample converted to a real and back is unchanged. */
  lemma ToByteOfSample(b: byte)
    ensures ToByte(b as real) == b
  {
  }

  /**
   * `getPixelValue(srcImage, x, y, bit, algorithm)`: wherever C's narrowing
   * of the weighted sum is defined, the result is the value C gives.
   */
  function GetPixelValue(g: Geometry, src: seq<byte>, x: int, y: int, bit: int, k: Matrix): (r: byte)
    requires |src| == Size(g) && InImage(g, Cell(x, y, bit))
    ensures NarrowAsWritten(WeightedSum(g, src, x, y, bit, k)).Some? ==>
      NarrowAsWritten(WeightedSum(g, src, x, y, bit, k)).value == r
  {
    var sum := WeightedSum(g, src, x, y, bit, k);
    ToByteAgreesWithC(sum);
    ToByte(sum)
  }

  /** The sampled value for the cell stored at buffer position `i`. */
  function PixelAt(g: Geometry, src: seq<byte>, k: Matrix, i: int): byte
    requires |src| == Size(g) && 0 <= i < Size(g)
  {
    var c := Decode(g, i);
    GetPixelValue(g, src, c.x, c.y, c.bit, k)
  }

  /**
   * The intended result of convolving a whole image: the buffer whose
   * every cell holds the sampled value for that cell.
   */
  function Convolved(g: Geometry, src: seq<byte>, k: Matrix): (out: seq<byte>)
    requires |src| == Size(g)
    ensures |out| == Size(g)
  {
    seq(Size(g), i requires 0 <= i < Size(g) => PixelAt(g, src, k, i))
  }

  /** Each cell of the convolved buffer holds the sampled value for that cell. */
  lemma ConvolvedAt(g: Geometry, src: seq<byte>, k: Matrix, c: Cell)
    requires |src| == Size(g) && InImage(g, c)
    ensures 0 <= Offset(g, c) < Size(g)
    ensures Convolved(g, src, k)[Offset(g, c)] == GetPixelValue(g, src, c.x, c.y, c.bit, k)
  {
    DecodeOffset(g, c);
  }

  /**
   * `out` holds, at every buffer position, the sampled value for the cell
   * stored there. The trigger keeps the sampler's definition out of sight
   * until a proof names `PixelAt` itself.
   */
  predicate IsConvolution(g: Geometry, src: seq<byte>, k: Matrix, out: seq<byte>)
  {
    |src| == Size(g) && |out| == Size(g) &&
    forall i {:trigger PixelAt(g, src, k, i)} :: 0 <= i < Size(g) ==> out[i] == PixelAt(g, src, k, i)
  }

  /** `Convolved` is the one buffer with that property. */
  lemma ConvolvedIsConvolution(g: Geometry, src: seq<byte>, k: Matrix, out: seq<byte>)
    requires |src| == Size(g)
    ensures IsConvolution(g, src, k, out) <==> out == Convolved(g, src, k)
  {
    if IsConvolution(g, src, k, out) {
      var c := Convolved(g, src, k);
      forall i | 0 <= i < Size(g)
        ensures out[i] == c[i]
      {
        assert out[i] == PixelAt(g, src, k, i);
      }
    }
  }

  /** With a unit-impulse kernel the sampled value is the source sample itself. */
  lemma IdentitySample(g: Geometry, src: seq<byte>, x: int, y: int, bit: int, k: Matrix)
    requires |src| == Size(g) && InImage(g, Cell(x, y, bit))
    requires IsUnitImpulse(k)
    ensures 0 <= Offset(g, Cell(x, y, bit)) < Size(g)
    ensures GetPixelValue(g, src, x, y, bit, k) == src[Offset(g, Cell(x, y, bit))]
  {
    ApplyUnitImpulse(k, Samples(g, src, x, y, bit));
    ToByteOfSample(src[Offset(g, Cell(x, y, bit))]);
  }

  /** Identity law: convolving with the identity kernel copies the source byte for byte. */
  lemma ConvolveIdentity(g: Geometry, src: seq<byte>)
    requires |src| == Size(g)
    ensures Convolved(g, src, KernelOf(Identity)) == src
  {
    var out := Convolved(g, src, KernelOf(Identity));
    KernelProperties();
    forall i | 0 <= i < Size(g)
      ensures out[i] == src[i]
    {
      var c := Decode(g, i);
      IdentitySample(g, src, c.x, c.y, c.bit, KernelOf(Identity));
    }
  }

  /** Every sample of a uniform image has its value. */
  lemma UniformCell(g: Geometry, src: seq<byte>, c: Cell, v: byte)
    requires |src| == Size(g) && InImage(g, c)
    requires forall i :: 0 <= i < |src| ==> src[i] == v
    ensures Sample(g, src, c) == v as real
  {
    OffsetInBounds(g, c);
  }

  /** On a uniform image all nine samples of a pixel have the image's value. */
  lemma UniformSamples(g: Geometry, src: seq<byte>, x: int, y: int, bit: int, v: byte)
    requires |src| == Size(g) && InImage(g, Cell(x, y, bit))
    requires forall i :: 0 <= i < |src| ==> src[i] == v
    ensures forall j :: 0 <= j < 9 ==> Samples(g, src, x, y, bit)[j] == v as real
  {
    var cells := NeighbourCells(g, x, y, bit);
    forall j | 0 <= j < 9
      ensures Samples(g, src, x, y, bit)[j] == v as real
    {
      UniformCell(g, src, cells[j], v);
    }
  }

  /** On a uniform image every neighbour holds the same value, so the sum is that value times the kernel's weight sum. */
  lemma UniformSample(g: Geometry, src: seq<byte>, x: int, y: int, bit: int, k: Matrix, v: byte)
    requires |src| == Size(g) && InImage(g, Cell(x, y, bit))
    requires forall i :: 0 <= i < |src| ==> src[i] == v
    ensures WeightedSum(g, src, x, y, bit, k) == v as real * WeightSum(k)
  {
    var samples := Samples(g, src, x, y, bit);
    assert WeightedSum(g, src, x, y, bit, k) == Apply(k, samples);
    UniformSamples(g, src, x, y, bit, v);
    ApplyUniform(k, samples, v as real);
  }

  /**
   * Uniform-image invariance: a uniform image convolves to the uniform
   * image of its value scaled by the weight sum, so kernels whose weights
   * sum to 1 reproduce it exactly.
   */
  lemma ConvolveUniform(g: Geometry, src: seq<byte>, k: Matrix, v: byte)
    requires |src| == Size(g)
    requires forall i :: 0 <= i < |src| ==> src[i] == v
    ensures forall i :: 0 <= i < Size(g) ==> Convolved(g, src, k)[i] == ToByte(v as real * WeightSum(k))
    ensures WeightSum(k) == 1.0 ==> Convolved(g, src, k) == src
  {
    var out := Convolved(g, src, k);
    forall i | 0 <= i < Size(g)
      ensures out[i] == ToByte(v as real * WeightSum(k))
    {
      var c := Decode(g, i);
      UniformSample(g, src, c.x, c.y, c.bit, k, v);
    }
    if WeightSum(k) == 1.0 {
      ToByteOfSample(v);
    }
  }

  /** A 3x3 single-channel image of value 200 blurred is unchanged. */
  lemma BlurFlatImage(src: seq<byte>)
    requires |src| == 9 && forall i :: 0 <= i < 9 ==> src[i] == 200
    ensures Convolved(Geometry(3, 3, 1), src, KernelOf(Blur)) == src
  {
    KernelProperties();
    ConvolveUniform(Geometry(3, 3, 1), src, KernelOf(Blur), 200);
  }

  /** The 2x2 single-channel image with one bright corner, on which the edge kernel leaves 0..255. */
  const Corner: seq<byte> := [0, 0, 0, 255]

  /**
   * The edge kernel on `Corner`: at pixel (1, 1) the exact sum is 510,
   * which has no 8-bit value, so the C narrowing is undefined there; so it
   * is for the sum -255 that `EdgeCornerSums` gives at (1, 0) and (0, 1).
   */
  lemma EdgeCornerAsWritten()
    ensures WeightedSum(Geometry(2, 2, 1), Corner, 1, 1, 0, KernelOf(Edge)) == 510.0
    ensures NarrowAsWritten(510.0) == None
    ensures NarrowAsWritten(-255.0) == None
  {
    var g := Geometry(2, 2, 1);
    var s := NeighbourCells(g, 1, 1, 0);
    assert s == [Cell(0, 0, 0), Cell(1, 0, 0), Cell(1, 0, 0), Cell(0, 1, 0), Cell(1, 1, 0), Cell(1, 1, 0),
                 Cell(0, 1, 0), Cell(1, 1, 0), Cell(1, 1, 0)];
    assert Sample(g, Corner, Cell(1, 1, 0)) == 255.0;
    assert Sample(g, Corner, Cell(0, 0, 0)) == 0.0;
    assert Sample(g, Corner, Cell(1, 0, 0)) == 0.0;
    assert Sample(g, Corner, Cell(0, 1, 0)) == 0.0;
  }

  /** The exact edge-kernel sums on `Corner` at its other three pixels. */
  lemma EdgeCornerSums()
    ensures WeightedSum(Geometry(2, 2, 1), Corner, 0, 0, 0, KernelOf(Edge)) == 0.0
    ensures WeightedSum(Geometry(2, 2, 1), Corner, 1, 0, 0, KernelOf(Edge)) == -255.0
    ensures WeightedSum(Geometry(2, 2, 1), Corner, 0, 1, 0, KernelOf(Edge)) == -255.0
  {
    var g := Geometry(2, 2, 1);
    assert Sample(g, Corner, Cell(1, 1, 0)) == 255.0;
    assert Sample(g, Corner, Cell(0, 0, 0)) == 0.0;
    assert Sample(g, Corner, Cell(1, 0, 0)) == 0.0;
    assert Sample(g, Corner, Cell(0, 1, 0)) == 0.0;
    assert NeighbourCells(g, 0, 0, 0) == [Cell(0, 0, 0), Cell(0, 0, 0), Cell(1, 0, 0), Cell(0, 0, 0), Cell(0, 0, 0),
                                          Cell(1, 0, 0), Cell(0, 1, 0), Cell(0, 1, 0), Cell(1, 1, 0)];
    assert NeighbourCells(g, 1, 0, 0) == [Cell(0, 0, 0), Cell(1, 0, 0), Cell(1, 0, 0), Cell(0, 0, 0), Cell(1, 0, 0),
                                          Cell(1, 0, 0), Cell(0, 1, 0), Cell(1, 1, 0), Cell(1, 1, 0)];
    assert NeighbourCells(g, 0, 1, 0) == [Cell(0, 0, 0), Cell(0, 0, 0), Cell(1, 0, 0), Cell(0, 1, 0), Cell(0, 1, 0),
                                          Cell(1, 1, 0), Cell(0, 1, 0), Cell(0, 1, 0), Cell(1, 1, 0)];
  }

  /**
   * With saturation the edge kernel is defined at every pixel of `Corner`:
   * the three negative sums give 0 and the sum 510 gives 255.
   */
  lemma EdgeCornerPixels()
    ensures GetPixelValue(Geometry(2, 2, 1), Corner, 0, 0, 0, KernelOf(Edge)) == 0
    ensures GetPixelValue(Geometry(2, 2, 1), Corner, 1, 0, 0, KernelOf(Edge)) == 0
    ensures GetPixelValue(Geometry(2, 2, 1), Corner, 0, 1, 0, KernelOf(Edge)) == 0
    ensures GetPixelValue(Geometry(2, 2, 1), Corner, 1, 1, 0, KernelOf(Edge)) == 255
  {
    EdgeCornerSums();
    EdgeCornerAsWritten();
  }
}
