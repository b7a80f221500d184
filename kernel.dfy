/** What one StackBlur pass computes for one line (a row or a column) of
    one channel: the triangular-weighted sum of a window of `2r+1`
    positions around each pixel, divided by `(r+1)^2`. */
module Kernel {
  import opened Words
  import opened Sums

  /** How the prefill reads positions 1..r ahead of the first pixel. */
  datatype Edge =
    | Clamped     // horizontal pass: a position past the end reads the last pixel
    | ZeroBeyond  // vertical pass: read unclamped; outside the image NRGBA.At gives 0

  function Min(a: int, b: int): int
  {
    if a < b then a else b
  }

  /** One channel of NRGBA.At on a line: the stored byte, or 0 (the zero
      colour) outside the line. */
  function Pixel(line: seq<uint8>, i: int): (v: int)
    ensures 0 <= v <= 0xFF
    ensures 0 <= i < |line| ==> v == line[i] as int
    ensures !(0 <= i < |line|) ==> v == 0
  {
    if 0 <= i < |line| then line[i] as int else 0
  }

  /** The value that the scan of `line` holds for absolute position `q`:
      positions up to 0 are the first pixel replicated; positions 1..r are
      those of the prefill; later positions are read clamped to the last
      pixel. */
  function Loaded(line: seq<uint8>, r: nat, edge: Edge, q: int): (v: int)
    ensures 0 <= v <= 0xFF
    ensures 0 <= q < |line| ==> v == line[q] as int
    ensures q < 0 && |line| > 0 ==> v == line[0] as int
    ensures q >= |line| > 0 && (edge == Clamped || q > r) ==> v == line[|line| - 1] as int
    ensures edge == ZeroBeyond && |line| <= q <= r ==> v == 0
  {
    if q <= 0 then Pixel(line, 0)
    else if q <= r && edge == ZeroBeyond then Pixel(line, q)
    else Pixel(line, Min(q, |line| - 1))
  }

  /** The `2r+1` values of the window centred at `x`, oldest first. */
  function Window(line: seq<uint8>, r: nat, edge: Edge, x: int): (w: seq<int>)
    ensures |w| == 2 * r + 1
    ensures Within(w, 0, 0xFF)
    ensures 0 <= x < |line| ==> w[r] == line[x] as int
  {
    var w := seq(2 * r + 1, k => Loaded(line, r, edge, x - r + k));
    assert forall k :: 0 <= k < |w| ==> w[k] == Loaded(line, r, edge, x - r + k);
    w
  }

  /** The weighted sum the scan emits at `x`: the value at offset `j` from
      `x` (`j` in `-r..r`) weighs `r + 1 - |j|`. */
  function WindowSum(line: seq<uint8>, r: nat, edge: Edge, x: int): (s: int)
    ensures 0 <= s <= 0xFF * DivSum(r)
  {
    TentWithin(r);
    TentTotal(r);
    DotWithin(Tent(r), Window(line, r, edge, x), 0, 0xFF);
    Dot(Tent(r), Window(line, r, edge, x))
  }

  /** divsum, computed as the source does from `div = 2r+1`. */
  function DivSum(r: nat): (d: nat)
    ensures d == (r + 1) * (r + 1)
    ensures d >= r + 1
  {
    var half := (2 * r + 1 + 1) / 2;
    half * half
  }

  /** sumFactor: the total weight of the `r+1` copies of the first pixel
      that fill the half up to the centre of the first window. */
  function SumFactor(r: nat): (f: nat)
    ensures f == Sum(Tent(r)[..r + 1])
    ensures 2 * f == (r + 1) * (r + 2)
  {
    TentTotal(r);
    (r + 1) * (r + 2) / 2
  }

  /** The radii for which the largest sum the scan forms, 255 times the
      total weight, fits in a uint32 (radius at most 4103). */
  predicate SumsFit(r: nat)
  {
    0xFF * DivSum(r) < 0x1_0000_0000
  }

  /** The first pixel's share of the first window never exceeds the
      window's total weight. */
  lemma SumFactorBelow(r: nat)
    ensures SumFactor(r) <= DivSum(r)
  {
    MulMono(r + 1, r + 2, 2 * r + 2);
    assert (r + 1) * (2 * r + 2) == 2 * DivSum(r);
  }

  /** `divsum` is a positive uint32 whenever the sums fit. */
  lemma DivSumRange(r: nat)
    requires SumsFit(r)
    ensures 1 <= DivSum(r) < 0x1_0000_0000
    ensures 0xFF * (r + 1) <= 0xFF * DivSum(r)
  {
    MulMono(r + 1, 1, r + 1);
  }

  /** The channel value written at `x`: `uint8(sum / divsum)`. The
      narrowing never wraps: the output is the truncated weighted average
      of the window. */
  function Out(line: seq<uint8>, r: nat, edge: Edge, x: int): (o: uint8)
    ensures o as int == WindowSum(line, r, edge, x) / DivSum(r)
  {
    var s, d := WindowSum(line, r, edge, x), DivSum(r);
    NarrowAverage(s, d);
    Narrow8(s / d)
  }

  /** A sum of at most 255 times its divisor narrows to its quotient. */
  lemma NarrowAverage(s: nat, d: nat)
    requires d > 0 && s <= 0xFF * d
    ensures Narrow8(s / d) as int == s / d
  {
    DivBetween(s, d, 0, 0xFF);
  }

  /** The line after one pass: each pixel replaced by the truncated
      weighted average of its window. */
  function BlurredLine(line: seq<uint8>, r: nat, edge: Edge): (b: seq<uint8>)
    ensures |b| == |line|
    ensures forall x :: 0 <= x < |b| ==> b[x] as int == WindowSum(line, r, edge, x) / DivSum(r)
  {
    seq(|line|, x => Out(line, r, edge, x))
  }

  /** The first `m` outputs of a pass, in the order the scan writes them. */
  function Emitted(line: seq<uint8>, r: nat, edge: Edge, m: nat): (b: seq<uint8>)
    requires m <= |line|
    ensures |b| == m
  {
    if m == 0 then [] else Emitted(line, r, edge, m - 1) + [Out(line, r, edge, m - 1)]
  }

  /** Writing the outputs one by one, left to right, yields the pass. */
  lemma {:induction false} EmittedIsBlurred(line: seq<uint8>, r: nat, edge: Edge, m: nat)
    requires m <= |line|
    ensures Emitted(line, r, edge, m) == BlurredLine(line, r, edge)[..m]
  {
    if m > 0 {
      EmittedIsBlurred(line, r, edge, m - 1);
      assert BlurredLine(line, r, edge)[..m]
          == BlurredLine(line, r, edge)[..m - 1] + [BlurredLine(line, r, edge)[m - 1]];
    }
  }

  lemma DivBetween(s: int, d: int, lo: int, hi: int)
    requires d > 0 && lo * d <= s <= hi * d
    ensures lo <= s / d <= hi
  {
    var q := s / d;
    assert q * d <= s < (q + 1) * d;
    MulCancel(lo, q + 1, d);
    MulCancel(q, hi + 1, d);
  }

  /** `a * d < b * d` with `d > 0` gives `a < b`. */
  lemma MulCancel(a: int, b: int, d: int)
    requires d > 0 && a * d < b * d
    ensures a < b
  {
  }

  lemma WindowAt(line: seq<uint8>, r: nat, edge: Edge, x: int, k: int)
    requires 0 <= k < 2 * r + 1
    ensures Window(line, r, edge, x)[k] == Loaded(line, r, edge, x - r + k)
  {
  }

  /** The window centred at the first pixel: `r+1` copies of it, then the
      `r` prefilled positions. */
  lemma FirstWindow(line: seq<uint8>, r: nat, edge: Edge)
    ensures forall k :: 0 <= k <= r ==> Window(line, r, edge, 0)[k] == Pixel(line, 0)
    ensures forall i :: 1 <= i <= r ==>
      Window(line, r, edge, 0)[r + i]
        == if edge == Clamped then Pixel(line, Min(i, |line| - 1)) else Pixel(line, i)
  {
    forall k | 0 <= k < 2 * r + 1
      ensures Window(line, r, edge, 0)[k] == Loaded(line, r, edge, k - r)
    {
      WindowAt(line, r, edge, 0, k);
    }
  }

  /** Moving the centre from `x` to `x + 1` drops the oldest value and
      takes in the pixel `r + 1` ahead of `x`, clamped to the last one. */
  lemma WindowSlides(line: seq<uint8>, r: nat, edge: Edge, x: int)
    requires 0 <= x
    ensures Window(line, r, edge, x + 1)
         == Window(line, r, edge, x)[1..] + [Pixel(line, Min(x + r + 1, |line| - 1))]
  {
    var w0, w1 := Window(line, r, edge, x), Window(line, r, edge, x + 1);
    var p := Pixel(line, Min(x + r + 1, |line| - 1));
    forall k | 0 <= k < 2 * r + 1
      ensures w1[k] == (w0[1..] + [p])[k]
    {
      WindowAt(line, r, edge, x + 1, k);
      if k < 2 * r {
        WindowAt(line, r, edge, x, k + 1);
      }
    }
  }

  /** The O(1) update of the scan keeps its accumulators exact. With `win`
      the window held in the ring, `sum`, `outSum` and `inSum` its weighted
      sum, its half up to the centre (offsets -r..0) and its half ahead of the centre (offsets
      1..r), and `v` the pixel taken in: `sum - outSum` does not underflow,
      `outSum` still holds the slot that leaves, `inSum + v` plus the rest
      stays within 255 times the total weight, the new sum is the weighted
      sum of the moved window, and the value at its centre (read through
      stackOut) moves from the half ahead of the centre to the half up to it without
      underflow. */
  lemma SlideAccumulators(win: seq<int>, v: int, r: nat)
    requires |win| == 2 * r + 1 && Within(win, 0, 0xFF) && 0 <= v <= 0xFF
    ensures Sum(win[..r + 1]) <= Dot(Tent(r), win) <= 0xFF * DivSum(r)
    ensures win[0] <= Sum(win[..r + 1]) <= 0xFF * (r + 1)
    ensures Sum(win[r + 1..]) + v <= 0xFF * (r + 1)
    ensures Dot(Tent(r), win[1..] + [v])
         == Dot(Tent(r), win) - Sum(win[..r + 1]) + (Sum(win[r + 1..]) + v)
    ensures Within(win[1..] + [v], 0, 0xFF)
    ensures Dot(Tent(r), win[1..] + [v]) <= 0xFF * DivSum(r)
    ensures (win[1..] + [v])[r] <= Sum(win[r + 1..]) + v
    ensures Sum((win[1..] + [v])[..r + 1]) == Sum(win[..r + 1]) - win[0] + (win[1..] + [v])[r]
    ensures Sum((win[1..] + [v])[r + 1..]) == Sum(win[r + 1..]) + v - (win[1..] + [v])[r]
  {
    HalvesBounds(win, r);
    WeightedBounds(win, r);
    var next := win[1..] + [v];
    assert Within(next, 0, 0xFF);
    WeightedBounds(next, r);
    TentShift(win, v, r);
    SlideHalves(win, v, r);
  }

  lemma HalvesBounds(win: seq<int>, r: nat)
    requires |win| == 2 * r + 1 && Within(win, 0, 0xFF)
    ensures win[0] <= Sum(win[..r + 1]) <= 0xFF * (r + 1)
    ensures 0 <= Sum(win[r + 1..]) <= 0xFF * r
  {
    var a, b := win[..r + 1], win[r + 1..];
    assert Within(a, 0, 0xFF) && Within(b, 0, 0xFF);
    SumWithin(a, 0, 0xFF);
    SumWithin(b, 0, 0xFF);
    SumHead(a);
    assert Within(a[1..], 0, 0xFF);
    SumWithin(a[1..], 0, 0xFF);
  }

  /** The weighted sum of a window covers its half up to the centre and is at most
      255 times the total weight. */
  lemma WeightedBounds(win: seq<int>, r: nat)
    requires |win| == 2 * r + 1 && Within(win, 0, 0xFF)
    ensures Sum(win[..r + 1]) <= Dot(Tent(r), win) <= 0xFF * DivSum(r)
  {
    WeightedAbove(win, r);
    WeightedBelow(win, r);
  }

  lemma WeightedAbove(win: seq<int>, r: nat)
    requires |win| == 2 * r + 1 && Within(win, 0, 0xFF)
    ensures Sum(win[..r + 1]) <= Dot(Tent(r), win)
  {
    var t := Tent(r);
    var a, b := win[..r + 1], win[r + 1..];
    TentWithin(r);
    assert t[..r + 1] + t[r + 1..] == t;
    SplitDot(t[..r + 1], t[r + 1..], win, r + 1);
    assert AtLeast(t[..r + 1], 1) && AtLeast(t[r + 1..], 0) && AtLeast(a, 0);
    DotCoversSum(t[..r + 1], a);
    assert Within(b, 0, 0xFF);
    DotWithin(t[r + 1..], b, 0, 0xFF);
  }

  lemma WeightedBelow(win: seq<int>, r: nat)
    requires |win| == 2 * r + 1 && Within(win, 0, 0xFF)
    ensures Dot(Tent(r), win) <= 0xFF * DivSum(r)
  {
    TentWithin(r);
    TentTotal(r);
    DotWithin(Tent(r), win, 0, 0xFF);
  }

  /** The halves of the moved window: the old centre+1 becomes the new
      centre and moves from the half ahead of the centre to the half up to the centre. */
  lemma SlideHalves(win: seq<int>, v: int, r: nat)
    requires |win| == 2 * r + 1 && Within(win, 0, 0xFF) && 0 <= v <= 0xFF
    ensures (win[1..] + [v])[r] <= Sum(win[r + 1..]) + v
    ensures Sum((win[1..] + [v])[..r + 1]) == Sum(win[..r + 1]) - win[0] + (win[1..] + [v])[r]
    ensures Sum((win[1..] + [v])[r + 1..]) == Sum(win[r + 1..]) + v - (win[1..] + [v])[r]
  {
    var next := win[1..] + [v];
    var a, b := win[..r + 1], win[r + 1..];
    SumHead(a);
    assert next[..r + 1][..r] == next[..r] == a[1..];
    assert next[r..] == b + [v];
    assert (b + [v])[..|b|] == b;
    SumHead(next[r..]);
    assert next[r..][1..] == next[r + 1..];
    assert Within(next[r + 1..], 0, 0xFF);
    SumWithin(next[r + 1..], 0, 0xFF);
  }
}
