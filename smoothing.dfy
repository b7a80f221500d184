/** What one pass does to a line as a whole: it is an average, so it keeps
    values within the range of the input (a flat line is a fixed point),
    radius 0 changes nothing, and in the vertical pass a line no longer
    than the radius is darkened by the zeros its prefill reads. */
module Smoothing {
  import opened Words
  import opened Sums
  import opened Kernel

  /** Every pixel of a line lies in `lo..hi`. This is `Sums.Within` for a
      line of stored bytes; `Within` itself ranges over the integer values
      of a window, which are not bytes of the line (the zeros the vertical
      prefill reads below the image are among them). */
  predicate InRange(line: seq<uint8>, lo: int, hi: int)
  {
    forall i :: 0 <= i < |line| ==> lo <= line[i] as int <= hi
  }

  /** Every position the window of a pixel reads lies on the line, except
      the prefilled positions of a vertical pass on a line no longer than
      the radius. */
  lemma WindowInRange(line: seq<uint8>, r: nat, edge: Edge, x: int, lo: int, hi: int)
    requires 0 <= x < |line| && InRange(line, lo, hi)
    requires edge == Clamped || |line| > r
    ensures Within(Window(line, r, edge, x), lo, hi)
  {
    var w := Window(line, r, edge, x);
    forall k | 0 <= k < |w|
      ensures lo <= w[k] <= hi
    {
      WindowAt(line, r, edge, x, k);
    }
  }

  /** The weights of a window add up to divsum. */
  lemma TentIsDivSum(r: nat)
    ensures Sum(Tent(r)) == DivSum(r)
    ensures AtLeast(Tent(r), 0)
  {
    TentTotal(r);
    TentWithin(r);
  }

  /** A pass never takes a pixel outside the range of its input, provided
      the window stays on the line (always so in the horizontal pass). */
  lemma BlurStaysWithin(line: seq<uint8>, r: nat, edge: Edge, lo: int, hi: int)
    requires InRange(line, lo, hi)
    requires edge == Clamped || |line| > r
    ensures InRange(BlurredLine(line, r, edge), lo, hi)
  {
    var b := BlurredLine(line, r, edge);
    forall x | 0 <= x < |line|
      ensures lo <= b[x] as int <= hi
    {
      var w := Window(line, r, edge, x);
      WindowInRange(line, r, edge, x, lo, hi);
      TentIsDivSum(r);
      DotWithin(Tent(r), w, lo, hi);
      DivBetween(WindowSum(line, r, edge, x), DivSum(r), lo, hi);
    }
  }

  /** Flat-field invariance: a line of one value comes out unchanged. */
  lemma FlatLineFixed(line: seq<uint8>, c: uint8, r: nat, edge: Edge)
    requires forall i :: 0 <= i < |line| ==> line[i] == c
    requires edge == Clamped || |line| > r
    ensures BlurredLine(line, r, edge) == line
  {
    BlurStaysWithin(line, r, edge, c as int, c as int);
  }

  /** Radius 0: the window is the pixel itself and divsum is 1. */
  lemma RadiusZeroLine(line: seq<uint8>, edge: Edge)
    ensures BlurredLine(line, 0, edge) == line
  {
    var b := BlurredLine(line, 0, edge);
    forall x | 0 <= x < |line|
      ensures b[x] == line[x]
    {
      var w := Window(line, 0, edge, x);
      WindowAt(line, 0, edge, x, 0);
      assert w == [line[x] as int];
      TentAt(0, 0);
      assert Tent(0) == [1];
      assert Dot([1], w) == Dot([], []) + 1 * w[0];
    }
  }

  /** The vertical pass as written on a one-pixel column with radius 1:
      the window read is [c, c, 0], so the pixel comes out as 3c/4 rather
      than c; the clamped read of the horizontal pass keeps it at c. */
  lemma OnePixelLine(c: uint8)
    ensures BlurredLine([c], 1, ZeroBeyond) == [(3 * c as int / 4) as uint8]
    ensures BlurredLine([c], 1, Clamped) == [c]
  {
    var line: seq<uint8> := [c];
    assert Tent(1) == [1, 2, 1];
    assert Window(line, 1, ZeroBeyond, 0) == [c as int, c as int, 0];
    Dot3(c as int, c as int, 0);
    FlatLineFixed(line, c, 1, Clamped);
  }

  /** A window of three with the weights of radius 1. */
  lemma Dot3(a: int, b: int, c: int)
    ensures Dot([1, 2, 1], [a, b, c]) == a + 2 * b + c
  {
    assert [1, 2, 1][..2] == [1, 2] && [a, b, c][..2] == [a, b];
    assert [1, 2][..1] == [1] && [a, b][..1] == [a];
    assert Dot([1], [a]) == Dot([], []) + 1 * a;
    assert Dot([1, 2], [a, b]) == Dot([1], [a]) + 2 * b;
    assert Dot([1, 2, 1], [a, b, c]) == Dot([1, 2], [a, b]) + 1 * c;
  }

  /** The output of radius 1 at `x` reads the values loaded at
      `x-1`, `x` and `x+1`: it is `(a + 2b + c) / 4`. */
  lemma OutOf3(line: seq<uint8>, edge: Edge, x: int, a: int, b: int, c: int)
    requires Loaded(line, 1, edge, x - 1) == a
    requires Loaded(line, 1, edge, x) == b
    requires Loaded(line, 1, edge, x + 1) == c
    ensures Out(line, 1, edge, x) as int == (a + 2 * b + c) / 4
  {
    var w := Window(line, 1, edge, x);
    assert w[0] == a && w[1] == b && w[2] == c;
    assert w == [a, b, c];
    assert Tent(1) == [1, 2, 1];
    Dot3(a, b, c);
  }

  /** A window of five with the weights of radius 2. */
  lemma Dot5(a: int, b: int, c: int, d: int, e: int)
    ensures Dot([1, 2, 3, 2, 1], [a, b, c, d, e]) == a + 2 * b + 3 * c + 2 * d + e
  {
    assert [1, 2, 3, 2, 1][..4] == [1, 2, 3, 2] && [a, b, c, d, e][..4] == [a, b, c, d];
    assert [1, 2, 3, 2][..3] == [1, 2, 3] && [a, b, c, d][..3] == [a, b, c];
    assert [1, 2, 3][..2] == [1, 2] && [a, b, c][..2] == [a, b];
    assert [1, 2][..1] == [1] && [a, b][..1] == [a];
    assert Dot([1], [a]) == Dot([], []) + 1 * a;
    assert Dot([1, 2], [a, b]) == Dot([1], [a]) + 2 * b;
    assert Dot([1, 2, 3], [a, b, c]) == Dot([1, 2], [a, b]) + 3 * c;
    assert Dot([1, 2, 3, 2], [a, b, c, d]) == Dot([1, 2, 3], [a, b, c]) + 2 * d;
  }

  /** The output of radius 2 at `x` reads the values loaded at `x-2`
      through `x+2`. */
  lemma OutOf5(line: seq<uint8>, edge: Edge, x: int, a: int, b: int, c: int, d: int, e: int)
    requires Loaded(line, 2, edge, x - 2) == a
    requires Loaded(line, 2, edge, x - 1) == b
    requires Loaded(line, 2, edge, x) == c
    requires Loaded(line, 2, edge, x + 1) == d
    requires Loaded(line, 2, edge, x + 2) == e
    ensures Out(line, 2, edge, x) as int == (a + 2 * b + 3 * c + 2 * d + e) / 9
  {
    var w := Window(line, 2, edge, x);
    assert w[0] == a && w[1] == b && w[2] == c && w[3] == d && w[4] == e;
    assert w == [a, b, c, d, e];
    TentAt(2, 0);
    TentAt(2, 1);
    TentAt(2, 2);
    TentAt(2, 3);
    TentAt(2, 4);
    assert Tent(2) == [1, 2, 3, 2, 1];
    Dot5(a, b, c, d, e);
  }

  /** A pass of a five-pixel line whose outputs are known one by one. */
  lemma FivePixels(line: seq<uint8>, r: nat, edge: Edge, out: seq<uint8>)
    requires |line| == 5 && |out| == 5
    requires forall x :: 0 <= x < 5 ==> Out(line, r, edge, x) == out[x]
    ensures BlurredLine(line, r, edge) == out
  {
  }

  /** A single bright pixel, radius 1, horizontal pass: it keeps half its
      value and spreads a quarter to each neighbour; pixels two or more
      away are untouched. */
  lemma ImpulseLine()
    ensures BlurredLine([0, 255, 0, 0, 0], 1, Clamped) == [63, 127, 63, 0, 0]
  {
    var line: seq<uint8> := [0, 255, 0, 0, 0];
    OutOf3(line, Clamped, 0, 0, 0, 255);
    OutOf3(line, Clamped, 1, 0, 255, 0);
    OutOf3(line, Clamped, 2, 255, 0, 0);
    OutOf3(line, Clamped, 3, 0, 0, 0);
    OutOf3(line, Clamped, 4, 0, 0, 0);
    FivePixels(line, 1, Clamped, [63, 127, 63, 0, 0]);
  }

  /** A wider radius does not always widen a faint impulse: the integer
      division drops the tails. A pixel of value 4 spreads over three
      pixels with radius 1, but over one pixel, with a lower peak, with
      radius 2. */
  lemma ImpulseFades()
    ensures BlurredLine([0, 0, 4, 0, 0], 1, Clamped) == [0, 1, 2, 1, 0]
    ensures BlurredLine([0, 0, 4, 0, 0], 2, Clamped) == [0, 0, 1, 0, 0]
  {
    FaintImpulse1();
    FaintImpulse2();
  }

  lemma FaintImpulse1()
    ensures BlurredLine([0, 0, 4, 0, 0], 1, Clamped) == [0, 1, 2, 1, 0]
  {
    var line: seq<uint8> := [0, 0, 4, 0, 0];
    OutOf3(line, Clamped, 0, 0, 0, 0);
    OutOf3(line, Clamped, 1, 0, 0, 4);
    OutOf3(line, Clamped, 2, 0, 4, 0);
    OutOf3(line, Clamped, 3, 4, 0, 0);
    OutOf3(line, Clamped, 4, 0, 0, 0);
    FivePixels(line, 1, Clamped, [0, 1, 2, 1, 0]);
  }

  lemma FaintImpulse2()
    ensures BlurredLine([0, 0, 4, 0, 0], 2, Clamped) == [0, 0, 1, 0, 0]
  {
    var line: seq<uint8> := [0, 0, 4, 0, 0];
    OutOf5(line, Clamped, 0, 0, 0, 0, 0, 4);
    OutOf5(line, Clamped, 1, 0, 0, 0, 4, 0);
    OutOf5(line, Clamped, 2, 0, 0, 4, 0, 0);
    OutOf5(line, Clamped, 3, 0, 4, 0, 0, 0);
    OutOf5(line, Clamped, 4, 4, 0, 0, 0, 0);
    FivePixels(line, 2, Clamped, [0, 0, 1, 0, 0]);
  }
}
