/** Process: copy the source, build the ring, blur every row in place, then
    every column of the result in place. One channel; the image is an
    `array2` indexed `[x, y]` like `img.At(x, y)`, with its origin at (0, 0). */
module Blur {
  import opened Words
  import opened Kernel
  import opened Ring
  import opened LineBlur
  import opened GridBlur

  /** The image as values, row by row. */
  function Pixels(img: array2<uint8>): (g: Grid)
    reads img
    ensures |g| == img.Length1 && IsRect(g, img.Length0)
  {
    seq(img.Length1, y requires 0 <= y < img.Length1 reads img =>
      seq(img.Length0, x requires 0 <= x < img.Length0 reads img => img[x, y]))
  }

  /** An image equal pixel by pixel to a grid has that grid as its value. */
  lemma PixelsAre(img: array2<uint8>, g: Grid)
    requires |g| == img.Length1 && IsRect(g, img.Length0)
    requires forall x, y :: 0 <= x < img.Length0 && 0 <= y < img.Length1 ==> img[x, y] == g[y][x]
    ensures Pixels(img) == g
  {
    var p := Pixels(img);
    forall y | 0 <= y < |g|
      ensures p[y] == g[y]
    {
    }
  }

  /** `stackEnd`, when set, is the slot `r+1` links round the ring from slot 0. */
  predicate Marked(stackEnd: Option<nat>, radius: nat, div: nat)
  {
    div == 2 * radius + 1 && (stackEnd.Some? ==> stackEnd.value == Advance(0, radius + 1, div))
  }

  /** `image.NewNRGBA` and `draw.Draw`: a fresh image holding the source's pixels. */
  method Copy(src: array2<uint8>) returns (img: array2<uint8>)
    ensures fresh(img) && img.Length0 == src.Length0 && img.Length1 == src.Length1
    ensures Pixels(img) == Pixels(src)
  {
    img := new uint8[src.Length0, src.Length1]((x, y) reads src =>
      if 0 <= x < src.Length0 && 0 <= y < src.Length1 then src[x, y] else 0);
    PixelsAre(img, Pixels(src));
  }

  /** One iteration of the `for y` loop of the horizontal pass: row `y`,
      read into a line, blurred with the clamped prefill, written back.
      The scan needs `stackEnd` unless the row is empty. */
  method BlurRow(img: array2<uint8>, stack: array<uint32>, stackEnd: Option<nat>, radius: nat,
                 y: nat, ghost row: seq<uint8>)
    requires SumsFit(radius) && stack.Length == 2 * radius + 1
    requires Marked(stackEnd, radius, stack.Length) && (stackEnd.None? ==> img.Length0 == 0)
    requires y < img.Length1 && |row| == img.Length0
    requires forall x :: 0 <= x < img.Length0 ==> img[x, y] == row[x]
    modifies img, stack
    ensures forall x, j :: 0 <= x < img.Length0 && 0 <= j < img.Length1 ==>
      img[x, j] == if j == y then BlurredLine(row, radius, Clamped)[x] else old(img[x, j])
  {
    var width := img.Length0;
    var line := new uint8[width];
    for x := 0 to width
      modifies line
      invariant forall i :: 0 <= i < x ==> line[i] == row[i]
    {
      line[x] := img[x, y];
    }
    assert line[..] == row;
    match stackEnd {
      case Some(end) =>
        BlurLine(line, stack, end, radius, Clamped);
      case None =>
        // radius 0 leaves stackEnd nil; an empty row never reaches it
        assert line[..] == BlurredLine(row, radius, Clamped);
    }
    var out := line[..];
    for x := 0 to width
      modifies img
      invariant forall i, j :: 0 <= i < width && 0 <= j < img.Length1 ==>
        img[i, j] == if j == y && i < x then out[i] else old(img[i, j])
    {
      img[x, y] := line[x];
    }
  }

  /** One iteration of the `for x` loop of the vertical pass: column `x`,
      read into a line, blurred with the prefill of `edge`, written back.
      The scan needs `stackEnd` unless the column is empty. */
  method BlurColumn(img: array2<uint8>, stack: array<uint32>, stackEnd: Option<nat>, radius: nat,
                    edge: Edge, x: nat, ghost col: seq<uint8>)
    requires SumsFit(radius) && stack.Length == 2 * radius + 1
    requires Marked(stackEnd, radius, stack.Length) && (stackEnd.None? ==> img.Length1 == 0)
    requires x < img.Length0 && |col| == img.Length1
    requires forall y :: 0 <= y < img.Length1 ==> img[x, y] == col[y]
    modifies img, stack
    ensures forall i, y :: 0 <= i < img.Length0 && 0 <= y < img.Length1 ==>
      img[i, y] == if i == x then BlurredLine(col, radius, edge)[y] else old(img[i, y])
  {
    var height := img.Length1;
    var line := new uint8[height];
    for y := 0 to height
      modifies line
      invariant forall j :: 0 <= j < y ==> line[j] == col[j]
    {
      line[y] := img[x, y];
    }
    assert line[..] == col;
    match stackEnd {
      case Some(end) =>
        BlurLine(line, stack, end, radius, edge);
      case None =>
        // radius 0 leaves stackEnd nil; an empty column never reaches it
        assert line[..] == BlurredLine(col, radius, edge);
    }
    var out := line[..];
    for y := 0 to height
      modifies img
      invariant forall i, j :: 0 <= i < img.Length0 && 0 <= j < height ==>
        img[i, j] == if i == x && j < y then out[j] else old(img[i, j])
    {
      img[x, y] := line[y];
    }
  }

  /** The horizontal pass (lines 60-180): every row, top to bottom. */
  method RowPass(img: array2<uint8>, stack: array<uint32>, stackEnd: Option<nat>, radius: nat)
    requires SumsFit(radius) && stack.Length == 2 * radius + 1
    requires Marked(stackEnd, radius, stack.Length)
    requires stackEnd.None? ==> img.Length0 == 0 || img.Length1 == 0
    modifies img, stack
    ensures Pixels(img) == HorizontalPass(old(Pixels(img)), radius)
  {
    ghost var g := Pixels(img);
    ghost var h := HorizontalPass(g, radius);
    for y := 0 to img.Length1
      invariant forall x, j :: 0 <= x < img.Length0 && 0 <= j < img.Length1 ==>
        img[x, j] == if j < y then h[j][x] else g[j][x]
    {
      BlurRow(img, stack, stackEnd, radius, y, g[y]);
    }
    PixelsAre(img, h);
  }

  /** The vertical pass (lines 182-297): every column, left to right. */
  method ColumnPass(img: array2<uint8>, stack: array<uint32>, stackEnd: Option<nat>, radius: nat,
                    edge: Edge)
    requires SumsFit(radius) && stack.Length == 2 * radius + 1
    requires Marked(stackEnd, radius, stack.Length)
    requires stackEnd.None? ==> img.Length0 == 0 || img.Length1 == 0
    modifies img, stack
    ensures Pixels(img) == VerticalPass(old(Pixels(img)), img.Length0, radius, edge)
  {
    ghost var g := Pixels(img);
    ghost var v := VerticalPass(g, img.Length0, radius, edge);
    for x := 0 to img.Length0
      invariant forall i, y :: 0 <= i < img.Length0 && 0 <= y < img.Length1 ==>
        img[i, y] == if i < x then v[y][i] else g[y][i]
    {
      BlurColumn(img, stack, stackEnd, radius, edge, x, Column(g, img.Length0, x));
    }
    PixelsAre(img, v);
  }

  /** Process as written: the vertical prefill reads past the bottom of
      the image as zero, and for radius 0 `stackEnd` is never set, so any
      image with both a row and a column to scan would dereference nil. */
  method Process(src: array2<uint8>, radius: nat) returns (img: array2<uint8>)
    requires SumsFit(radius)
    requires radius >= 1 || src.Length0 == 0 || src.Length1 == 0
    ensures fresh(img) && img.Length0 == src.Length0 && img.Length1 == src.Length1
    ensures Pixels(img) == StackBlur(Pixels(src), src.Length0, radius, ZeroBeyond)
  {
    img := Copy(src);
    var stack, stackEnd := NewRing(radius);
    RowPass(img, stack, stackEnd, radius);
    ColumnPass(img, stack, stackEnd, radius, ZeroBeyond);
  }

  /** Process with both defects corrected: `stackEnd` is the slot `r+1`
      round the ring for every radius (the only slot, for radius 0), and
      the vertical prefill clamps to the last row as the horizontal one
      does; radius 0 then leaves the image unchanged and a flat image is
      a fixed point whatever its size. */
  method ProcessCorrected(src: array2<uint8>, radius: nat) returns (img: array2<uint8>)
    requires SumsFit(radius)
    ensures fresh(img) && img.Length0 == src.Length0 && img.Length1 == src.Length1
    ensures Pixels(img) == StackBlur(Pixels(src), src.Length0, radius, Clamped)
  {
    img := Copy(src);
    var stack, _ := NewRing(radius);
    var div := stack.Length;
    var end := if radius == 0 then 0 else radius + 1;
    AdvanceIsSlot(0, radius + 1, div);
    RowPass(img, stack, Some(end), radius);
    ColumnPass(img, stack, Some(end), radius, Clamped);
  }
}
