# 3x3 image convolution, modelled and proved in Dafny

`image.c` applies a 3x3 convolution kernel to an image held as a flat buffer of
8-bit samples: `width * height * bpp` of them, in row order, with the `bpp` channels
of a pixel stored next to each other. For each channel of each pixel,
`getPixelValue` weights the nine neighbouring samples. At the borders it reuses
the edge pixel by clamping the neighbour coordinates. The weighted sum is then
narrowed to `uint8_t`. `convolute` fills the destination buffer with a triple loop
over rows, pixels and channels. `convolute_bak` does the same work on 50 threads.
Each thread runs `convolute_loop`, which derives its own half-open row range from
its rank. A table `algorithms[]` holds the six kernels, and `GetKernelType` maps a
kernel's command-line name to its index.

The model has six modules:

- `Kernels`: the kernel table, its enumeration, the weight laws of each kernel,
  and the name lookup with its identity fallback.
- `Raster`: the sample type `byte` and the buffer layout `Index(x, y, width, bit, bpp) = (y*width + x)*bpp + bit`.
  It also holds the inverse of that layout, `Decode`, and the facts that sit between
  the loop counters and buffer positions.
- `Sampler`: `getPixelValue` as pure functions:
  - the clamped neighbourhood;
  - the nine sampled cells;
  - the exact weighted sum;
  - the narrowing.

  It also holds the whole-image result `Convolved`, and the identity, uniform-image
  and saturation laws.
- `Partition`: the row range of each thread, who owns each row, and the proof that
  the ranges cover the image exactly.
- `Engine`: the loops as methods over arrays.
  - `Convolute` models `convolute`.
  - `ConvoluteLoop` models `convolute_loop`.
  - `RunRanks` and `ConvoluteBak` model the fork-join driver `convolute_bak`, with
    its threads run one after another.

  Each method writes a preallocated destination array that is distinct from the
  source. It returns, as a ghost value, the list of buffer positions it wrote, in
  the order it wrote them. So its contract says the following:
  - every position is written exactly once, in buffer order;
  - each position holds the sampled value;
  - nothing outside the method's rows changes;
  - the source is unchanged.
- `Arith`: small multiplication and division facts used by the index arithmetic.

Kernel weights and sums are exact `real`s. Narrowing the sum to a sample is modelled
as `ToByte`: round down, then saturate to 0..255. That agrees with C's conversion
wherever C defines one (see Findings).

A thread's range is `[rank*q, (rank+1)*q)` with `q = height / total`, and the last
thread's range ends at `height`. With more threads than rows, `q` is 0. Every
thread but the last then gets the empty range `[0, 0)`, and the last thread gets
`[0, height)`. For example, 4 rows on 10 threads gives nine empty ranges and one
range of all four rows.

## Model

| member | source | states |
|---|---|---|
| `Kernels.Ordinal` | image.c:18-19 | each enumeration value is a valid index into `algorithms[]` |
| `Kernels.Algorithms` | image.c:20-27 | the six kernel matrices, entry for entry, in the order edge, sharpen, blur, gauss, emboss, identity |
| `Kernels.KernelOf` | image.c:190 | `algorithms[type]`: the matrix of an enumeration value |
| `Kernels.Apply` | image.c:48-56 | the nine-term sum, weight `[r][c]` times the value listed at `3*r + c` |
| `Kernels.KernelProperties` | image.c:20-27 | identity is the unit impulse with weight sum 1; blur, gauss, sharpen and emboss weights sum to 1; edge weights sum to 0 |
| `Kernels.ApplyUniform` | image.c:47-56 | a kernel applied to nine equal values scales that value by the kernel's weight sum |
| `Kernels.ApplyUnitImpulse` | image.c:47-56 | the identity kernel applied to nine values gives the middle one |
| `Kernels.KernelName` | image.c:209-213 | the name each branch of `GetKernelType` compares with, one per kernel; identity's name is the one listed in the usage text at image.c:201 |
| `Kernels.GetKernelType` | image.c:205-215 | the result is identity or the kernel whose name was given; any name other than the five filter names yields identity |
| `Kernels.GetKernelTypeOfName` | image.c:208-214 | looking up a kernel's own name yields that kernel, for all six kernels |
| `Kernels.GetKernelTypeSelects` | image.c:208-215 | a name yields a non-identity kernel exactly when it is that kernel's name |
| `Raster.Index` | image.c:72 | the buffer position `(y*width + x)*bpp + bit` of channel `bit` of pixel (x, y), as every read and write of the buffer computes it |
| `Raster.OffsetInBounds` | image.c:72 | the index of every sample of the image lies inside the `width*height*bpp` buffer and inside its own row |
| `Raster.RowStartMonotone` | image.c:69-75 | rows begin at increasing positions, and row `height` begins at the end of the buffer |
| `Raster.PixelInRow` | image.c:70-73 | the `bpp` channels of a pixel lie inside that pixel's row |
| `Raster.IndexStep` | image.c:69-75 | the channel after the last one of a pixel is the next pixel's first; the pixel after the last one of a row is the next row's start |
| `Raster.Decode` | image.c:69-75 | every buffer position is the index of some in-image cell |
| `Raster.DecodeOffset` | image.c:72 | decoding the index of a cell gives back that cell |
| `Raster.OffsetInjective` | image.c:72 | two cells share an index only when they are the same cell |
| `Raster.RowSpan` | image.c:183-193 | a cell lies in rows `[lo, hi)` exactly when its index lies between those rows' start positions |
| `Sampler.Neighbours` | image.c:42-46 | neighbour coordinates stay on the image and bracket the pixel; at column or row 0 the lower neighbour is 0 |
| `Sampler.NeighboursAreClamped` | image.c:41-46 | each neighbour coordinate is the one-step coordinate clamped to the image, and it differs from it exactly when that step leaves the image |
| `Sampler.InteriorNeighbours` | image.c:42-46 | away from the border the neighbours are the adjacent pixels |
| `Sampler.NeighbourCells` | image.c:47-56 | the nine sampled cells are in the image, and so their indices are in bounds; each keeps the channel, lies within one step, and the centre is the pixel itself |
| `Sampler.Samples` | image.c:48-56 | the nine source samples that `getPixelValue` reads, in the order of the kernel's weights |
| `Sampler.WeightedSum` | image.c:47-56 | the kernel applied to those nine samples, before narrowing |
| `Sampler.NarrowAsWritten` | image.c:47 | C's conversion of the sum to `uint8_t` is defined exactly for sums strictly between -1 and 256 |
| `Sampler.ToByte` | image.c:47 | the model's narrowing gives 0 for negative sums, 255 for sums of 255 and more, and the integer part in between |
| `Sampler.ToByteAgreesWithC` | image.c:47-56 | wherever C's conversion is defined, it equals the model's narrowing |
| `Sampler.GetPixelValue` | image.c:37-59 | the weighted sum narrowed to a byte; wherever C's narrowing of that sum is defined, the result is the value C gives |
| `Sampler.PixelAt` | image.c:72 | the value `getPixelValue` gives for the cell stored at buffer position `i` |
| `Sampler.Convolved` | image.c:66-76 | the whole destination buffer `convolute` is to leave: as long as the source, with `PixelAt` at every position |
| `Sampler.ConvolvedAt` | image.c:72 | each cell of the convolved image holds `getPixelValue` of that cell |
| `Sampler.IdentitySample` | image.c:47-56 | with a unit-impulse kernel, the sampled value of a cell is the source sample at that cell |
| `Sampler.ConvolveIdentity` | image.c:205-207 | convolving with the identity kernel copies the image byte for byte |
| `Sampler.UniformSample` | image.c:47-56 | on a uniform image, the weighted sum is the value times the kernel's weight sum |
| `Sampler.ConvolveUniform` | image.c:66-76 | a uniform image convolves to the uniform image of its scaled value, and a kernel whose weights sum to 1 reproduces it |
| `Sampler.BlurFlatImage` | image.c:23 | a flat 3x3 image of 200 is unchanged by the box blur |
| `Sampler.EdgeCornerAsWritten` | image.c:47-56 | the edge kernel on the 2x2 image `[0,0,0,255]` sums to 510 at pixel (1,1), where C's narrowing is undefined |
| `Sampler.EdgeCornerSums` | image.c:47-56 | the edge-kernel sums at that image's other three pixels are 0, -255 and -255 |
| `Sampler.EdgeCornerPixels` | image.c:47-56 | with saturation, the edge kernel gives 0, 0, 0 and 255 on that image |
| `Partition.RowsPerThread` | image.c:165 | `q = height / total`: `q * total <= height < (q + 1) * total` |
| `Partition.RankRange` | image.c:165-180 | a thread's range lies within `[0, height]`, and the last thread's range ends at `height` |
| `Partition.RanksContiguous` | image.c:170-179 | the first range starts at row 0; each range ends where the next begins; every range but the last has `height / total` rows |
| `Partition.Rows` | image.c:183 | a row is listed for a range exactly when the range contains it |
| `Partition.RowsOfRanksContiguous` | image.c:170-179 | the rows of threads `0 .. n-1`, in rank order, are exactly rows 0 up to where thread `n-1` stops, each once and in increasing order |
| `Partition.RowsOfAllRanks` | image.c:165-180 | all threads' rows, in rank order, are exactly rows `0 .. height-1`: none missed, none repeated |
| `Partition.Owner` | image.c:165-180 | the thread whose range holds a row: always a valid rank; `ContainsIffOwner` ties it to the ranges |
| `Partition.ContainsIffOwner` | image.c:165-180 | a row lies in a thread's range exactly when that thread is the row's owner |
| `Partition.PartitionExact` | image.c:165-180 | every row lies in some thread's range; no row lies in two; no range goes past the image |
| `Partition.MoreThreadsThanRows` | image.c:165-179 | with more threads than rows, `q` is 0, every thread but the last gets `[0, 0)`, and the last gets `[0, height)` |
| `Engine.SamplePixel` | image.c:72 | the `getPixelValue` call of the loops: its value is the convolved buffer's value at that cell's position, which lies in the buffer |
| `Engine.ConvolutePixel` | image.c:71-73 | writes the `bpp` channels of one pixel with their sampled values, in order, and nothing else |
| `Engine.Convolute` | image.c:66-76 | the destination becomes the convolved image; every position is written exactly once, in buffer order; the source is unchanged |
| `Engine.ConvoluteRows` | image.c:183-193 | writes exactly the positions of rows `[start, end)`, in order, with their sampled values; the rest of the destination is unchanged |
| `Engine.ConvoluteLoop` | image.c:148-195 | thread `rank` writes exactly its own rows, each position once with its sampled value; every other position and the source are unchanged |
| `Engine.RunRanks` | image.c:112-139 | running threads `0 .. total-1` in sequence, for any thread count, leaves the convolved image; every position is written exactly once; the result equals that of `Convolute` |
| `Engine.ConvoluteBak` | image.c:79-145 | the 50-thread pass leaves the convolved image, writing each position exactly once |

## Left out

- `main` is not modelled. It reads and writes image files through stb_image, checks `argc`, prints messages (a load error, the elapsed time, and one for `pic4.jpg` with `gauss`), and times the run. This is I/O and clock access. The source buffer and its dimensions are parameters instead.
- `Usage` is not modelled. It only prints the usage text and returns -1.
- Every `printf` call in `convolute_bak` and `convolute_loop` is left out. They are output only.
- The `pthread` machinery of `convolute_bak` is not modelled: thread creation and joining, the per-thread argument copies, and the `malloc` calls. `RunRanks` runs the threads' passes one after another instead. All threads read the source only, and `PartitionExact` shows their row ranges are disjoint. The model does not prove that every interleaving gives the same result.
- The global `type` is not modelled. `convolute_loop` reads `algorithms[type]` and ignores the matrix handed to `convolute_bak`. `main` sets `type` once and then passes `algorithms[type]`, so the model passes that matrix down as a parameter.
- The unused `span` variables are left out.
- Floating point is not modelled: weights and sums are exact reals. C holds 1/9.0 and the partial sums as rounded doubles, so a sum that lands exactly on an integer here may fall just below it there, and round down one lower.
- Sampler.ConvolveUniform: the law that a kernel whose weights sum to 1 reproduces a uniform image holds over exact reals only. In doubles summed left to right, nine products `7 * (1/9.0)` add up to just under 7, so C's box blur turns a flat image of 7 into 6. `Sampler.BlurFlatImage` (value 200) holds in doubles as well, since that sum rounds to just above 200.
- Integer width is not modelled. Buffer indices `(y*width + x)*bpp + bit` are unbounded integers here; in C they are `int` and overflow once `width*height*bpp` exceeds 2^31. The rank products `rank * rows_per_thread` and `(rank+1) * rows_per_thread` never exceed `height` (`Partition.RankRange` states `r.end <= height`), so they stay within `int`.
- `image.h` is not part of this model. The `Index` macro, the `Image` fields and the order of the `KernelTypes` enumeration are taken as used in `image.c`. The comment above `algorithms[]` says the table's indexes match the enumeration and gives `algorithms[BLUR]` as the one example; the rest of the order is inferred from what each row of the table holds.

## Findings

| source | as written | input that shows it | evidently intended | confidence | as-written member | corrected member |
|---|---|---|---|---|---|---|
| image.c:47-56 | the weighted sum, a double, is assigned to a `uint8_t` with no range check; C leaves that conversion undefined when the truncated value is outside 0..255 | edge kernel on the 2x2 one-channel image `[0,0,0,255]`: at pixel (1,1) the sum is 510, and at (1,0) and (0,1) it is -255 | saturate the sum to 0..255, giving 255, 0, 0 and 0 | medium; not executed | `Sampler.EdgeCornerAsWritten` | `Sampler.EdgeCornerPixels` |

The as-written conversion is `Sampler.NarrowAsWritten`. It is undefined outside (-1, 256). The corrected conversion is `Sampler.ToByte`, which the whole model uses. `Sampler.ToByteAgreesWithC` proves the two agree wherever C defines a result.
