# stackblur-go, one channel, in Dafny

This project models `Process` from `stackblur.go` in mdouchement/stackblur-go.
`Process` is an integer StackBlur: it copies the source into an NRGBA
image, then blurs it in two in-place passes. The horizontal pass goes along
every row, left to right. The vertical pass goes down every column, top to
bottom, over the result of the horizontal pass.

Each pass scans one line at a time. The scan keeps a circular stack of
`div = 2r+1` slots and three `uint32` accumulators:
- `sum` is the triangular-weighted sum of the window;
- `outSum` is its half up to the centre;
- `inSum` is its half ahead of the centre.

Each output pixel is `uint8(sum / divsum)`. The accumulators are then
updated in O(1) steps.

The model is one channel of an image whose origin is (0, 0), held as an
`array2<uint8>` indexed `[x, y]`. The source runs the same code on all
four channels. The model is exact for alpha, and for the colour channels of
an opaque image; elsewhere `RGBA()` ties colour to alpha (see "## Left out").

| file | module | contents |
|---|---|---|
| `words.dfy` | `Words` | `uint8`, `uint32` (every accumulator update is checked not to wrap), `to8b`, the `uint8(...)` narrowing, truncating division |
| `sums.dfy` | `Sums` | sums and weighted sums of sequences, the tent weights `r+1-|j|`, and the sliding identity the scan rests on |
| `kernel.dfy` | `Kernel` | what one pass computes for one line: the window, its weighted sum, `divsum`, `sumFactor` and the output |
| `ring.dfy` | `Ring` | the circular stack: the `blurStack` nodes become array slots, and `next` becomes an index that wraps round |
| `line.dfy` | `LineBlur` | the imperative scan of one line, on arrays: seeding, prefill, emit and slide, with the loop invariants |
| `smoothing.dfy` | `Smoothing` | whole-line properties: range kept, flat lines fixed, radius 0, short-column darkening |
| `grid.dfy` | `GridBlur` | the blur of a whole image as values, and its properties |
| `process.dfy` | `Blur` | `Process` on an `array2`: copy, build the ring, row pass, column pass; also a corrected variant |

`LineBlur.BlurLine` carries the central proof. Its scan keeps the invariant
`LineBlur.Holds` at every step:
- the ring, read from `stackIn` on, holds the window of the current pixel;
- `stackOut` is `r+1` slots further round the ring;
- `sum`, `outSum` and `inSum` are exactly the window's weighted sum, its
  half up to the centre and its half ahead of the centre.

It follows that no `uint32` subtraction underflows and no addition wraps.
The division never exceeds 255, so the `uint8` narrowing never wraps. The
line that results is `Kernel.BlurredLine`.

## Model

| member | source | states |
|---|---|---|
| `Words.To8b` | stackblur.go:302-304 | keeps the low byte: the result is below 256, equals the input when that is below 256, and differs from the input by a multiple of 256 |
| `Words.Rgba16` | stackblur.go:63-67 | the 16-bit value `RGBA()` reports for a stored alpha byte (or any byte of an opaque pixel): its high byte and its low byte are both the stored byte, and it is below 2^16 |
| `Words.To8bOfRgba16` | stackblur.go:63-67 | `to8b(RGBA())` of such a channel gives back the stored byte |
| `Words.Narrow8` | stackblur.go:122-127 | Go's `uint8(x)`: equal to `x` below 256, otherwise congruent to `x` mod 256 |
| `Words.Div32` | stackblur.go:123 | uint32 `/` rounds toward zero: the quotient `q` satisfies `q·b <= a < (q+1)·b` |
| `Words.QuotientUnique` | stackblur.go:123 | only one quotient brackets `a` that way, so the truncated quotient is `a / b` |
| `Sums.TentTotal` | stackblur.go:43-45 | the first `r+1` weights total (r+1)(r+2)/2, which is `sumFactor`; all `2r+1` weights total (r+1)^2, which is `divsum` |
| `Sums.TentShift` | stackblur.go:129-159 | moving the window one place changes its weighted sum by minus the half up to the centre, plus the half ahead of the centre, plus the newcomer |
| `Kernel.DivSum` | stackblur.go:39-45 | `divsum`, computed from `div` as the source does, equals (r+1)^2 |
| `Kernel.SumFactor` | stackblur.go:42-43 | `sumFactor` is the total weight of the `r+1` copies of the first pixel, and twice it is (r+1)(r+2) |
| `Kernel.DivSumRange` | stackblur.go:44-45 | when 255·divsum fits in 32 bits, `divsum` is a non-zero uint32 |
| `Kernel.Pixel` | stackblur.go:95 | the byte at an in-bounds position; the zero colour, 0, outside the line |
| `Kernel.Loaded` | stackblur.go:63-117 | the value the scan holds for a position: the pixel itself on the line, the first pixel before it, the last pixel past it when the read is clamped (horizontal prefill and look-ahead), and 0 for a vertical prefill read below the image |
| `Kernel.Window` | stackblur.go:79-117 | the `2r+1` values around a pixel are bytes, and the middle one is the pixel itself |
| `Kernel.WindowSum` | stackblur.go:74-117 | the weighted sum of a window lies between 0 and 255·divsum |
| `Kernel.Out` | stackblur.go:122-127 | the narrowing `uint8(sum / divsum)` never wraps: the output is the truncated weighted average of the window |
| `Kernel.BlurredLine` | stackblur.go:121-128 | a pass keeps the line's length and replaces every pixel by the truncated weighted average of its window |
| `Kernel.EmittedIsBlurred` | stackblur.go:121-128 | writing the outputs one at a time, left to right, yields the whole blurred line |
| `Kernel.FirstWindow` | stackblur.go:79-117 | the window of pixel 0 holds `r+1` copies of pixel 0, then pixel `min(i, w-1)` at offset `i` (pixel `i`, unclamped, in the vertical pass) |
| `Kernel.WindowSlides` | stackblur.go:139-149 | the window of `x+1` is the window of `x` without its oldest value, followed by the pixel at `min(x+r+1, w-1)` |
| `Kernel.SlideAccumulators` | stackblur.go:129-176 | for a window of bytes: `sum - outSum` and `outSum - oldest` do not underflow, nothing exceeds 255·divsum, and the new sum and halves are those of the moved window |
| `Kernel.HalvesBounds` | stackblur.go:129-137 | the half up to the centre of a window covers its oldest value and is at most 255(r+1); the half ahead of the centre is between 0 and 255r |
| `Kernel.WeightedBounds` | stackblur.go:129-132 | the weighted sum covers the half up to the centre and is at most 255·divsum |
| `Ring.Next` | stackblur.go:52-58 | `next` leads to the slot one further, wrapping round after the last: `(i + 1) mod div` |
| `Ring.AdvanceIsSlot` | stackblur.go:51-58 | following `next` fewer than `div` times from a slot reaches a different slot, `k` places round; following it `div` times returns to the start, so the ring has exactly `div` slots |
| `Ring.AdvanceStep` | stackblur.go:161 | one more step round the ring is one more `next` |
| `Ring.NewRing` | stackblur.go:47-58 | builds `2r+1` slots; for `r >= 1`, `stackEnd` is slot `r+1`, which is `r+1` links from the start; for `r = 0`, `stackEnd` stays unset |
| `LineBlur.Fetch` | stackblur.go:145-149 | `to8b(img.At(p, y).RGBA())` of one channel is the pixel at `p`, or 0 off the line |
| `LineBlur.Seed` | stackblur.go:61-119 | after seeding, the ring, read from slot 0, holds the window of pixel 0; `stackOut` is `stackEnd`; `outSum = (r+1)·p0`, and `sum` and `inSum` are the window's weighted sum and half ahead of the centre |
| `LineBlur.SeedHead` | stackblur.go:63-87 | the first `r+1` window values are pixel 0; their sum is `(r+1)·p0` and their weighted sum is `sumFactor·p0` |
| `LineBlur.SeedBounds` | stackblur.go:69-77 | `uint32(radiusPlus1)·pr` and `uint32(sumFactor)·pr` do not wrap |
| `LineBlur.Prefill` | stackblur.go:89-117 | slots `r+1..2r` end up holding the prefilled values; `sum` becomes the weighted sum of the whole first window and `inSum` its half ahead of the centre |
| `LineBlur.PrefillOne` | stackblur.go:90-116 | one prefill step writes slot `r+i` and no other, and extends the weighted sum and `inSum` by that slot |
| `LineBlur.PrefillPos` | stackblur.go:89-93 | the prefill reads offset `i` itself while it is on the line; past the end, the horizontal pass reads the last pixel, and the vertical pass still reads `i` |
| `LineBlur.PrefillSlot` | stackblur.go:89-99 | the value the prefill reads for offset `i` is the first window's value at `r+i` |
| `LineBlur.PrefillStep` | stackblur.go:106-114 | `sum += stack·(radiusPlus1-i)` and `inSum += pr` stay within uint32 and extend the weighted sum and the half ahead of the centre by one slot |
| `LineBlur.Slide` | stackblur.go:129-178 | the O(1) update, in the source's order, keeps the invariant for the moved window (the ring holds it from the advanced `stackIn`, `stackOut` is `r+1` slots on, the three sums are its sums), and no step underflows or wraps |
| `LineBlur.Accumulate` | stackblur.go:129-176 | every intermediate accumulator value of one slide is a uint32, and the final values are the moved window's sums |
| `LineBlur.RingSlides` | stackblur.go:134-178 | `stackIn` holds the oldest value; after it is overwritten and both cursors move, the ring holds the moved window and `stackOut` reads its new centre |
| `LineBlur.BlurLine` | stackblur.go:60-179 | one line blurred in place: the line becomes `BlurredLine` of its old contents, with no uint32 wrap or underflow on the way |
| `LineBlur.Scan` | stackblur.go:121-179 | from the seeded ring, the scan writes exactly the blurred outputs, in order |
| `LineBlur.Output` | stackblur.go:122-145 | writes `uint8(sum / divsum)` at `x` and reads the look-ahead at `min(x+r+1, w-1)`; that pixel is unwritten unless `x` is the last pixel |
| `LineBlur.OutValue` | stackblur.go:122-127 | the byte written from the truncated quotient of `sum` by `divsum` is the pass's output at `x` |
| `LineBlur.Emit` | stackblur.go:139-145 | in-place writing is safe: after writing at `x`, the positions after `x` still hold the original line |
| `LineBlur.NextWindow` | stackblur.go:139-161 | the window held after the slide is the window of the next pixel |
| `Smoothing.BlurStaysWithin` | stackblur.go:121-179 | a pass keeps every pixel within the range of the line's pixels whenever the window stays on the line, which is always so for the clamped prefill |
| `Smoothing.FlatLineFixed` | stackblur.go:89-93 | a line of one value comes out unchanged, given a clamped prefill or a line longer than the radius |
| `Smoothing.RadiusZeroLine` | stackblur.go:39-45 | with radius 0, the pass leaves the line as it is |
| `Smoothing.OnePixelLine` | stackblur.go:211-212 | one pixel `c` with radius 1 becomes `3c/4` under the unclamped vertical prefill, and stays `c` under the clamped one |
| `Smoothing.ImpulseLine` | stackblur.go:121-179 | the row `0,255,0,0,0` with radius 1 becomes `63,127,63,0,0` |
| `Smoothing.ImpulseFades` | stackblur.go:121-179 | a wider radius can shrink an impulse's footprint: the row `0,0,4,0,0` becomes `0,1,2,1,0` with radius 1 but `0,0,1,0,0` with radius 2 |
| `GridBlur.HorizontalPass` | stackblur.go:60-180 | every row keeps its length, and each pixel becomes the truncated weighted average of its clamped window along the row |
| `GridBlur.VerticalPass` | stackblur.go:182-297 | the image keeps its shape, and each pixel becomes the truncated weighted average of its window down the column, read with the given prefill |
| `GridBlur.StackBlur` | stackblur.go:24-300 | the image keeps its shape, and each pixel is the vertical average of the horizontally blurred column it lies in |
| `GridBlur.ImageStaysWithin` | stackblur.go:60-297 | the blur keeps every pixel within the image's range, given a clamped vertical prefill or an image taller than the radius |
| `GridBlur.FlatImageFixed` | stackblur.go:60-297 | an image of one value is a fixed point, given a clamped vertical prefill or an image taller than the radius |
| `GridBlur.RadiusZeroIdentity` | stackblur.go:24-300 | radius 0 leaves every image unchanged |
| `GridBlur.ShortImageDarkens` | stackblur.go:211-212 | the as-written blur turns a white 1×1 image with radius 1 into 191; with a clamped vertical prefill it stays 255 |
| `GridBlur.OneRowIsRowBlur` | stackblur.go:182-297 | with a clamped vertical prefill, a 1-pixel-tall image is blurred exactly as its row: the vertical pass reads only copies of each pixel |
| `GridBlur.OneColumnIsColumnBlur` | stackblur.go:60-180 | a 1-pixel-wide image is blurred exactly as its column: the horizontal pass reads only copies of each pixel |
| `GridBlur.ImpulseImage` | stackblur.go:60-297 | a 5×1 image with 255 at x = 1 and radius 1 becomes `47,95,47,0,0` as written, and `63,127,63,0,0` with a clamped vertical prefill |
| `Blur.Copy` | stackblur.go:36-37 | a fresh image with the source's dimensions and pixels |
| `Blur.BlurRow` | stackblur.go:60-180 | row `y` becomes its horizontal blur, and no other pixel changes |
| `Blur.BlurColumn` | stackblur.go:182-297 | column `x` becomes its vertical blur, and no other pixel changes |
| `Blur.RowPass` | stackblur.go:60-180 | the image becomes the horizontal pass of its old contents |
| `Blur.ColumnPass` | stackblur.go:182-297 | the image becomes the vertical pass of its old contents |
| `Blur.Process` | stackblur.go:24-300 | returns a fresh image of the source's size whose pixels are `StackBlur(src)` with the unclamped vertical prefill; radius 0 is accepted only for an image without pixels |
| `Blur.ProcessCorrected` | stackblur.go:24-300 | the same with both findings corrected: any radius is accepted, and the vertical prefill is clamped |

## Left out

- The other three channels (`r`, `g`, `b`): the source repeats the same code for each of them, independently.
- `image.NewNRGBA`, `draw.Draw` and the `Bounds()` arithmetic: the model copies an `array2` whose origin is (0, 0). A source image with a non-zero `Bounds().Min` is not modelled.
- The premultiplied 16-bit `RGBA()` conversion of colour channels of translucent pixels: the model reads the stored byte, which is exact for alpha and for opaque pixels (`Words.To8bOfRgba16`). A colour channel is therefore modelled exactly only when the whole image is opaque: otherwise its 16-bit value depends on alpha, and the horizontal pass changes alpha before the vertical pass reads the colour.
- The completion send `done <- struct{}{}` (stackblur.go:298) is concurrency plumbing and is not modelled.
- The `blurStack` nodes, their identity as heap objects, and `NewBlurStack`: the ring is an array of `div` slots, and `next` is the slot index plus one, wrapping to 0.
- `uint32` wrap-around for radii above 4103: every method that scans requires `SumsFit(radius)`, meaning 255·(r+1)^2 < 2^32. Within that bound, no accumulator wraps.
- Negative radii: the source takes `radius int`, and the model types it as `nat`. On a non-empty image a negative radius panics: radius -1 gives `divsum = 0`, so line 123 divides by zero, and radius -2 or less leaves `stackOut` nil at line 163.
- Writing directly into the image: each row or column is copied into a line array, blurred in place there, and copied back. The values written are the same. Where the source interleaves reads and writes within the line, `LineBlur.BlurLine` models that interleaving.
- Blur.BlurRow: for radius 0 and an empty row, the ring is not seeded, because the source only writes slots that no output reads.
- Blur.BlurColumn: the same as `Blur.BlurRow`, for radius 0 and an empty column.
- A blur is expected to leave the image unchanged at radius 0 and to keep a flat image fixed whatever its size. The code crashes at radius 0 on any image with a pixel, and keeps a flat image of a non-zero value fixed only when the image is taller than the radius (see Findings). `Blur.Process` follows the code; `Blur.ProcessCorrected` has both properties.
- Boundary replication for a 1-pixel-tall image holds only with the clamped vertical prefill (`GridBlur.OneRowIsRowBlur`). As written, the vertical pass of such an image reads zeros below it, so the image is not reduced to its row blur: in `GridBlur.ImpulseImage` the row blur's 63 becomes 47. A 1-pixel-wide image is reduced to its column blur either way (`GridBlur.OneColumnIsColumnBlur`).
- Monotonic smoothing, the behaviour expected of a blur that a wider radius widens an impulse's footprint and lowers its peak: the integer code does not keep it, because the truncating division drops faint tails. `Smoothing.ImpulseFades` gives an input where the footprint shrinks from three pixels to one. No general monotonicity is stated.

## Findings

| source | as written | input that shows it | evidently intended | confidence | as-written member | corrected member |
|---|---|---|---|---|---|---|
| stackblur.go:51-57, 119, 163 | for radius 0 the loop building the ring never runs, so `stackEnd` stays nil, `stackOut` is nil, and `pr = stackOut.r` dereferences nil | any image at least 1×1, radius 0 | radius 0 is a no-op blur: `stackEnd` is the single node and the image comes out unchanged | high; not executed | `Ring.NewRing` | `Blur.ProcessCorrected` (with `GridBlur.RadiusZeroIdentity`) |
| stackblur.go:211-212 | the vertical prefill reads `(x, i)` for `i` in `1..r` without clamping to `heightMinus1`, unlike the horizontal prefill at 89-93; `At` outside the image gives the zero colour | a white 1×1 image, radius 1: the output is 191 | clamp `i` to the last row, so flat images are fixed points of any size | high; not executed | `GridBlur.ShortImageDarkens` | `Blur.ProcessCorrected` (with `GridBlur.FlatImageFixed`) |
