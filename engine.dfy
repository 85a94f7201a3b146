/**
 * The convolution engine: `convolute`, the per-thread pass
 * `convolute_loop`, and the fork-join driver `convolute_bak`, which is
 * modelled as running the threads' passes one after another. Each method
 * fills a preallocated destination buffer in place and returns, as a
 * ghost value, the buffer positions it wrote, in the order it wrote them.
 */
module Engine {
  import opened Arith
  import opened Raster
  import opened Kernels
  import opened Sampler
  import opened Partition

  /**
   * `getPixelValue` as the loops call it: the sampled value of one cell,
   * which is what `out` holds at that cell's position.
   */
  method SamplePixel(g: Geometry, pixels: seq<byte>, x: int, y: int, bit: int, k: Matrix, ghost out: seq<byte>)
    returns (v: byte)
    requires IsConvolution(g, pixels, k, out) && InImage(g, Cell(x, y, bit))
    ensures 0 <= Index(x, y, g.width, bit, g.bpp) < Size(g)
    ensures v == out[Index(x, y, g.width, bit, g.bpp)]
  {
    var c := Cell(x, y, bit);
    DecodeOffset(g, c);
    assert out[Offset(g, c)] == PixelAt(g, pixels, k, Offset(g, c));
    v := GetPixelValue(g, pixels, x, y, bit, k);
  }

  /**
   * The innermost loop shared by `convolute` and `convolute_loop`: the
   * `bpp` channels of pixel (`pix`, `row`), written in channel order, and
   * nothing else.
   */
  method ConvolutePixel(g: Geometry, src: array<byte>, dest: array<byte>, k: Matrix, pix: int, row: int,
                        ghost out: seq<byte>)
    returns (ghost written: seq<int>)
    requires src.Length == Size(g) && dest.Length == Size(g) && src != dest
    requires IsConvolution(g, src[..], k, out)
    requires 0 <= pix < g.width && 0 <= row < g.height
    modifies dest
    ensures 0 <= Index(pix, row, g.width, 0, g.bpp) && Index(pix, row, g.width, 0, g.bpp) + g.bpp <= Size(g)
    ensures forall i :: 0 <= i < dest.Length ==>
      dest[i] == if Index(pix, row, g.width, 0, g.bpp) <= i < Index(pix, row, g.width, 0, g.bpp) + g.bpp
                 then out[i] else old(dest[i])
    ensures written == Interval(Index(pix, row, g.width, 0, g.bpp), Index(pix, row, g.width, 0, g.bpp) + g.bpp)
  {
    var pixels := src[..];
    ghost var base := Index(pix, row, g.width, 0, g.bpp);
    PixelInRow(g, pix, row);
    RowStartMonotone(g, 0, row + 1);
    RowStartMonotone(g, row + 1, g.height);
    written := [];
    var bit := 0;
    while bit < g.bpp
      invariant 0 <= bit <= g.bpp
      invariant forall i :: 0 <= i < dest.Length ==> dest[i] == if base <= i < base + bit then out[i] else old(dest[i])
      invariant written == Interval(base, base + bit)
    {
      var i := Index(pix, row, g.width, bit, g.bpp);
      assert i == base + bit;
      var v := SamplePixel(g, pixels, pix, row, bit, k, out);
      dest[i] := v;
      IntervalSnoc(base, base + bit);
      written := written + [i];
      bit := bit + 1;
    }
  }

  /**
   * `convolute(srcImage, destImage, algorithm)`: every cell of `dest` is
   * written once, in buffer order, with the sampled value for that cell.
   */
  method Convolute(g: Geometry, src: array<byte>, dest: array<byte>, k: Matrix) returns (ghost written: seq<int>)
    requires src.Length == Size(g) && dest.Length == Size(g) && src != dest
    modifies dest
    ensures unchanged(src)
    ensures dest[..] == Convolved(g, src[..], k)
    ensures written == Interval(0, Size(g))
  {
    ghost var out := Convolved(g, src[..], k);
    ConvolvedIsConvolution(g, src[..], k, out);
    ghost var n := 0;
    written := [];
    var row := 0;
    while row < g.height
      invariant 0 <= row <= g.height
      invariant n == RowStart(g, row) && 0 <= n <= Size(g)
      invariant forall i :: 0 <= i < n ==> dest[i] == out[i]
      invariant written == Interval(0, n)
    {
      var pix := 0;
      while pix < g.width
        invariant 0 <= pix <= g.width
        invariant n == Index(pix, row, g.width, 0, g.bpp) && 0 <= n <= Size(g)
        invariant forall i :: 0 <= i < n ==> dest[i] == out[i]
        invariant written == Interval(0, n)
      {
        ghost var w := ConvolutePixel(g, src, dest, k, pix, row, out);
        IntervalAppend(0, n, n + g.bpp);
        written := written + w;
        n := n + g.bpp;
        IndexStep(g, pix, row);
        pix := pix + 1;
      }
      IndexStep(g, 0, row);
      row := row + 1;
    }
    RowStartMonotone(g, 0, 0);
  }

  /**
   * The ranged triple loop of `convolute_loop`: rows `[startRow, endRow)`,
   * each cell written once, in buffer order, and nothing outside them.
   */
  method ConvoluteRows(g: Geometry, src: array<byte>, dest: array<byte>, k: Matrix, startRow: nat, endRow: nat,
                       ghost out: seq<byte>)
    returns (ghost written: seq<int>)
    requires src.Length == Size(g) && dest.Length == Size(g) && src != dest
    requires IsConvolution(g, src[..], k, out)
    requires startRow <= endRow <= g.height
    modifies dest
    ensures 0 <= RowStart(g, startRow) <= RowStart(g, endRow) <= Size(g)
    ensures forall i :: 0 <= i < dest.Length ==>
      dest[i] == if RowStart(g, startRow) <= i < RowStart(g, endRow) then out[i] else old(dest[i])
    ensures written == Interval(RowStart(g, startRow), RowStart(g, endRow))
  {
    ghost var lo := RowStart(g, startRow);
    ghost var n := lo;
    RowStartMonotone(g, 0, startRow);
    RowStartMonotone(g, startRow, endRow);
    RowStartMonotone(g, endRow, g.height);
    written := [];
    var row := startRow;
    while row < endRow
      invariant startRow <= row <= endRow
      invariant n == RowStart(g, row) && lo <= n <= RowStart(g, endRow)
      invariant forall i :: 0 <= i < dest.Length ==> dest[i] == if lo <= i < n then out[i] else old(dest[i])
      invariant written == Interval(lo, n)
    {
      RowStartMonotone(g, row + 1, endRow);
      var pix := 0;
      while pix < g.width
        invariant 0 <= pix <= g.width
        invariant n == Index(pix, row, g.width, 0, g.bpp) && lo <= n <= Size(g)
        invariant forall i :: 0 <= i < dest.Length ==> dest[i] == if lo <= i < n then out[i] else old(dest[i])
        invariant written == Interval(lo, n)
      {
        ghost var w := ConvolutePixel(g, src, dest, k, pix, row, out);
        IntervalAppend(lo, n, n + g.bpp);
        written := written + w;
        n := n + g.bpp;
        IndexStep(g, pix, row);
        pix := pix + 1;
      }
      IndexStep(g, 0, row);
      row := row + 1;
    }
  }

  /**
   * `convolute_loop` for thread `rank` of `total` (the kernel passed in
   * instead of read from a global): it computes its row range and writes
   * exactly the cells of those rows, in buffer order, leaving every other
   * cell of `dest` as it was.
   */
  method ConvoluteLoop(g: Geometry, src: array<byte>, dest: array<byte>, k: Matrix, rank: nat, total: nat)
    returns (ghost written: seq<int>)
    requires src.Length == Size(g) && dest.Length == Size(g) && src != dest
    requires 1 <= total && rank < total
    modifies dest
    ensures unchanged(src)
    ensures 0 <= RowStart(g, RankRange(g.height, total, rank).start) <= RowStart(g, RankRange(g.height, total, rank).end) <= Size(g)
    ensures forall i :: 0 <= i < dest.Length ==>
      dest[i] == if RowStart(g, RankRange(g.height, total, rank).start) <= i < RowStart(g, RankRange(g.height, total, rank).end)
                 then Convolved(g, src[..], k)[i] else old(dest[i])
    ensures written == Interval(RowStart(g, RankRange(g.height, total, rank).start), RowStart(g, RankRange(g.height, total, rank).end))
  {
    var rowsPerThread := g.height / total;
    var localStart := rank * rowsPerThread;
    var localEnd := if rank == total - 1 then g.height else (rank + 1) * rowsPerThread;
    assert RowRange(localStart, localEnd) == RankRange(g.height, total, rank);
    ghost var out := Convolved(g, src[..], k);
    ConvolvedIsConvolution(g, src[..], k, out);
    written := ConvoluteRows(g, src, dest, k, localStart, localEnd, out);
  }

  /**
   * The fork-join pass over `total` threads, run one thread after another:
   * since the threads' row ranges are laid end to end, the passes together
   * write every cell exactly once, in buffer order, and leave the same
   * buffer as `Convolute`.
   */
  method RunRanks(g: Geometry, src: array<byte>, dest: array<byte>, k: Matrix, total: nat)
    returns (ghost written: seq<int>)
    requires src.Length == Size(g) && dest.Length == Size(g) && src != dest
    requires 1 <= total
    modifies dest
    ensures unchanged(src)
    ensures dest[..] == Convolved(g, src[..], k)
    ensures written == Interval(0, Size(g))
  {
    ghost var out := Convolved(g, src[..], k);
    ghost var n := 0;
    RanksContiguous(g.height, total, 0);
    written := [];
    var rank := 0;
    while rank < total
      invariant 0 <= rank <= total
      invariant n == RowStart(g, if rank < total then RankRange(g.height, total, rank).start else g.height)
      invariant 0 <= n <= Size(g)
      invariant forall i :: 0 <= i < n ==> dest[i] == out[i]
      invariant written == Interval(0, n)
    {
      ghost var r := RankRange(g.height, total, rank);
      ghost var w := ConvoluteLoop(g, src, dest, k, rank, total);
      RanksContiguous(g.height, total, rank);
      IntervalAppend(0, n, RowStart(g, r.end));
      written := written + w;
      n := RowStart(g, r.end);
      rank := rank + 1;
    }
    RowStartMonotone(g, 0, 0);
  }

  /** `convolute_bak`: the pass over the fixed `thread_count` of 50 threads. */
  method ConvoluteBak(g: Geometry, src: array<byte>, dest: array<byte>, k: Matrix) returns (ghost written: seq<int>)
    requires src.Length == Size(g) && dest.Length == Size(g) && src != dest
    modifies dest
    ensures unchanged(src)
    ensures dest[..] == Convolved(g, src[..], k)
    ensures written == Interval(0, Size(g))
  {
    var threadCount := ThreadCount;
    written := RunRanks(g, src, dest, k, threadCount);
  }
}
