/** The whole blur of one channel of a `width × height` image, as values:
    every row through the horizontal pass, then every column of the result
    through the vertical pass. */
module GridBlur {
  import opened Words
  import opened Kernel
  import opened Smoothing

  /** One channel of an image, row by row: `g[y][x]` is the pixel at (x, y). */
  type Grid = seq<seq<uint8>>

  predicate IsRect(g: Grid, width: nat)
  {
    forall y :: 0 <= y < |g| ==> |g[y]| == width
  }

  /** The `for y` loop of lines 60-180: each row blurred on its own, the
      prefill clamped to the last pixel of the row. */
  function HorizontalPass(g: Grid, r: nat): (h: Grid)
    ensures |h| == |g|
    ensures forall y :: 0 <= y < |g| ==> |h[y]| == |g[y]|
    ensures forall y, x :: 0 <= y < |g| && 0 <= x < |g[y]| ==>
      h[y][x] as int == WindowSum(g[y], r, Clamped, x) / DivSum(r)
  {
    seq(|g|, y requires 0 <= y < |g| => BlurredLine(g[y], r, Clamped))
  }

  /** Column `x`, top to bottom. */
  function Column(g: Grid, width: nat, x: nat): (c: seq<uint8>)
    requires IsRect(g, width) && x < width
    ensures |c| == |g|
  {
    seq(|g|, y requires 0 <= y < |g| => g[y][x])
  }

  /** The `for x` loop of lines 182-297: each column blurred on its own,
      with the prefill read of `edge`. */
  function VerticalPass(g: Grid, width: nat, r: nat, edge: Edge): (v: Grid)
    requires IsRect(g, width)
    ensures |v| == |g| && IsRect(v, width)
    ensures forall y, x :: 0 <= y < |g| && 0 <= x < width ==>
      v[y][x] as int == WindowSum(Column(g, width, x), r, edge, y) / DivSum(r)
  {
    seq(|g|, y requires 0 <= y < |g| =>
      seq(width, x requires 0 <= x < width => BlurredLine(Column(g, width, x), r, edge)[y]))
  }

  /** The image Process returns, for one channel; the source's vertical
      pass reads `ZeroBeyond`. */
  function StackBlur(g: Grid, width: nat, r: nat, edge: Edge): (b: Grid)
    requires IsRect(g, width)
    ensures |b| == |g| && IsRect(b, width)
    ensures forall y, x :: 0 <= y < |g| && 0 <= x < width ==>
      b[y][x] as int == WindowSum(Column(HorizontalPass(g, r), width, x), r, edge, y) / DivSum(r)
  {
    VerticalPass(HorizontalPass(g, r), width, r, edge)
  }

  /** Reading pixel (x, y) of the result: the vertical pass at `y` of
      column `x` of the horizontally blurred image. */
  lemma StackBlurAt(g: Grid, width: nat, r: nat, edge: Edge, x: nat, y: nat)
    requires IsRect(g, width) && x < width && y < |g|
    ensures StackBlur(g, width, r, edge)[y][x]
         == BlurredLine(Column(HorizontalPass(g, r), width, x), r, edge)[y]
  {
  }

  /** `InRange` for every row of an image. */
  predicate GridInRange(g: Grid, lo: int, hi: int)
  {
    forall y :: 0 <= y < |g| ==> InRange(g[y], lo, hi)
  }

  /** The blur never takes a pixel outside the range of the image's
      pixels, provided the columns are longer than the radius or the
      vertical prefill is clamped. */
  lemma ImageStaysWithin(g: Grid, width: nat, r: nat, edge: Edge, lo: int, hi: int)
    requires IsRect(g, width) && GridInRange(g, lo, hi)
    requires edge == Clamped || |g| > r
    ensures GridInRange(StackBlur(g, width, r, edge), lo, hi)
  {
    var h := HorizontalPass(g, r);
    forall y | 0 <= y < |g|
      ensures InRange(h[y], lo, hi)
    {
      BlurStaysWithin(g[y], r, Clamped, lo, hi);
    }
    var b := StackBlur(g, width, r, edge);
    forall y, x | 0 <= y < |g| && 0 <= x < width
      ensures lo <= b[y][x] as int <= hi
    {
      var c := Column(h, width, x);
      assert InRange(c, lo, hi);
      BlurStaysWithin(c, r, edge, lo, hi);
    }
  }

  /** Flat-field invariance: an image of one value is a fixed point of
      the blur, provided the image is taller than the radius or the
      vertical prefill is clamped. */
  lemma FlatImageFixed(g: Grid, width: nat, c: uint8, r: nat, edge: Edge)
    requires IsRect(g, width)
    requires forall y, x :: 0 <= y < |g| && 0 <= x < width ==> g[y][x] == c
    requires edge == Clamped || |g| > r
    ensures StackBlur(g, width, r, edge) == g
  {
    assert GridInRange(g, c as int, c as int);
    ImageStaysWithin(g, width, r, edge, c as int, c as int);
    var b := StackBlur(g, width, r, edge);
    forall y | 0 <= y < |g|
      ensures b[y] == g[y]
    {
      assert InRange(b[y], c as int, c as int);
    }
  }

  /** Boundary replication across a single row: the vertical pass of a
      1-pixel-tall image with a clamped prefill reads only copies of each
      pixel, so the blur is the row blur alone. */
  lemma OneRowIsRowBlur(g: Grid, width: nat, r: nat)
    requires |g| == 1 && IsRect(g, width)
    ensures StackBlur(g, width, r, Clamped) == HorizontalPass(g, r)
  {
    var h := HorizontalPass(g, r);
    var b := StackBlur(g, width, r, Clamped);
    forall x | 0 <= x < width
      ensures b[0][x] == h[0][x]
    {
      var c := Column(h, width, x);
      assert c == [h[0][x]];
      FlatLineFixed(c, h[0][x], r, Clamped);
      StackBlurAt(g, width, r, Clamped, x, 0);
    }
    assert b[0] == h[0];
  }

  /** Boundary replication across a single column: the horizontal pass of
      a 1-pixel-wide image reads only copies of each pixel, so the blur is
      the column blur alone, for either vertical prefill. */
  lemma OneColumnIsColumnBlur(g: Grid, r: nat, edge: Edge)
    requires IsRect(g, 1)
    ensures StackBlur(g, 1, r, edge) == VerticalPass(g, 1, r, edge)
  {
    var h := HorizontalPass(g, r);
    forall y | 0 <= y < |g|
      ensures h[y] == g[y]
    {
      assert g[y] == [g[y][0]];
      FlatLineFixed(g[y], g[y][0], r, Clamped);
    }
    assert h == g;
  }

  /** Radius 0 leaves every image as it is. */
  lemma RadiusZeroIdentity(g: Grid, width: nat, edge: Edge)
    requires IsRect(g, width)
    ensures StackBlur(g, width, 0, edge) == g
  {
    var h := HorizontalPass(g, 0);
    forall y | 0 <= y < |g|
      ensures h[y] == g[y]
    {
      RadiusZeroLine(g[y], Clamped);
    }
    assert h == g;
    var b := StackBlur(g, width, 0, edge);
    forall y | 0 <= y < |g|
      ensures b[y] == g[y]
    {
      forall x | 0 <= x < width
        ensures b[y][x] == g[y][x]
      {
        RadiusZeroLine(Column(g, width, x), edge);
      }
    }
  }

  /** As written, a white 1×1 image blurred with radius 1 comes out grey:
      the vertical prefill reads the zero colour below the image. */
  lemma ShortImageDarkens()
    ensures StackBlur([[255]], 1, 1, ZeroBeyond) == [[191]]
    ensures StackBlur([[255]], 1, 1, Clamped) == [[255]]
  {
    var g: Grid := [[255]];
    OnePixelLine(255);
    assert HorizontalPass(g, 1) == g;
    assert Column(g, 1, 0) == [255];
    OneRow(g, 1, 1, ZeroBeyond, [191]);
    OneRow(g, 1, 1, Clamped, [255]);
  }

  /** The 5×1 impulse: the horizontal pass spreads 255 at x = 1 into
      63, 127, 63; the vertical pass of a one-pixel-tall image then scales
      each by 3/4 as written, and keeps them with a clamped prefill. */
  lemma ImpulseImage()
    ensures StackBlur([[0, 255, 0, 0, 0]], 5, 1, ZeroBeyond) == [[47, 95, 47, 0, 0]]
    ensures StackBlur([[0, 255, 0, 0, 0]], 5, 1, Clamped) == [[63, 127, 63, 0, 0]]
  {
    var g: Grid := [[0, 255, 0, 0, 0]];
    var h: Grid := [[63, 127, 63, 0, 0]];
    ImpulseLine();
    assert HorizontalPass(g, 1) == h;
    forall x | 0 <= x < 5
      ensures Column(h, 5, x) == [h[0][x]]
    {
    }
    OnePixelLine(63);
    OnePixelLine(127);
    OnePixelLine(0);
    OneRow(g, 5, 1, ZeroBeyond, [47, 95, 47, 0, 0]);
    OneRow(g, 5, 1, Clamped, [63, 127, 63, 0, 0]);
  }

  /** The blur of a one-row image, pixel by pixel. */
  lemma OneRow(g: Grid, width: nat, r: nat, edge: Edge, row: seq<uint8>)
    requires |g| == 1 && IsRect(g, width) && |row| == width
    requires forall x :: 0 <= x < width ==>
      BlurredLine(Column(HorizontalPass(g, r), width, x), r, edge)[0] == row[x]
    ensures StackBlur(g, width, r, edge) == [row]
  {
    var b := StackBlur(g, width, r, edge);
    forall x | 0 <= x < width
      ensures b[0][x] == row[x]
    {
      StackBlurAt(g, width, r, edge, x, 0);
    }
    assert b[0] == row;
  }
}
