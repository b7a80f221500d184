/** The scan of one line (a row in the horizontal pass, a column in the
    vertical pass): prefill the ring, then emit every pixel from the
    running sums, updating them in O(1) per pixel and writing the output
    over the line in place. */
module LineBlur {
  import opened Words
  import opened Sums
  import opened Kernel
  import opened Ring

  /** One channel of `img.At(p, .).RGBA()` passed through to8b: the stored
      byte, or 0 outside the line. */
  function Fetch(line: array<uint8>, p: int): (v: uint32)
    reads line
    ensures v as int == Pixel(line[..], p)
  {
    if 0 <= p < line.Length then
      To8bOfRgba16(line[p]);
      To8b(Rgba16(line[p]))
    else
      0
  }

  /** Fills the ring with the window centred at the first pixel and sets
      the three accumulators for it: `r+1` copies of pixel 0, then the `r`
      prefilled positions (clamped to the last pixel in the horizontal
      pass, unclamped in the vertical one). */
  method Seed(line: array<uint8>, stack: array<uint32>, radius: nat, edge: Edge)
    returns (sum: uint32, inSum: uint32, outSum: uint32)
    requires SumsFit(radius) && stack.Length == 2 * radius + 1
    modifies stack
    ensures Holds(stack[..], radius, 0, Advance(0, radius + 1, stack.Length),
                  sum, inSum, outSum, Window(line[..], radius, edge, 0))
  {
    ghost var w := Window(line[..], radius, edge, 0);
    var radiusPlus1 := radius + 1;
    var pr := Fetch(line, 0);
    SeedBounds(radius, radiusPlus1, pr as int);
    SeedHead(line[..], radius, edge);
    outSum := (radiusPlus1 as uint32) * pr;
    sum := (SumFactor(radius) as uint32) * pr;
    for i := 0 to radiusPlus1
      invariant forall k :: 0 <= k < i ==> stack[k] == pr
    {
      stack[i] := pr;
    }
    forall i | 1 <= i <= radius
      ensures w[radius + i] == Pixel(line[..], PrefillPos(line.Length, edge, i))
    {
      PrefillSlot(line[..], radius, edge, i);
    }
    sum, inSum := Prefill(line, stack, radius, edge, w, sum);
    forall k | 0 <= k < stack.Length
      ensures Slot(0, k, stack.Length) == k
    {
    }
  }

  /** The position the prefill reads for slot `r+i`: `i`, clamped to the
      last pixel in the horizontal pass only. */
  function PrefillPos(n: int, edge: Edge, i: nat): (p: int)
    ensures i < n ==> p == i
    ensures edge == Clamped && n >= 1 ==> 0 <= p < n && p <= i
    ensures edge == Clamped && 1 <= n <= i ==> p == n - 1
    ensures edge == ZeroBeyond ==> p == i
  {
    if edge == Clamped && n - 1 < i then n - 1 else i
  }

  /** The second half of the seeding: slots `r+1 .. 2r` take the pixels
      ahead of the first one, each added to the weighted sum with weight
      `r+1-i` and to `inSum`. */
  method Prefill(line: array<uint8>, stack: array<uint32>, radius: nat, edge: Edge,
                 ghost w: seq<int>, sum0: uint32)
    returns (sum: uint32, inSum: uint32)
    requires SumsFit(radius) && stack.Length == 2 * radius + 1
    requires |w| == 2 * radius + 1 && Within(w, 0, 0xFF)
    requires forall k :: 0 <= k <= radius ==> stack[k] as int == w[k]
    requires forall i :: 1 <= i <= radius ==>
      w[radius + i] == Pixel(line[..], PrefillPos(line.Length, edge, i))
    requires sum0 as int == Dot(Tent(radius)[..radius + 1], w[..radius + 1])
    modifies stack
    ensures forall k :: 0 <= k < stack.Length ==> stack[k] as int == w[k]
    ensures sum as int == Dot(Tent(radius), w)
    ensures inSum as int == Sum(w[radius + 1..])
  {
    ghost var t := Tent(radius);
    var radiusPlus1 := radius + 1;
    sum, inSum := sum0, 0;
    assert w[radius + 1..radius + 1] == [];
    for i := 1 to radiusPlus1
      invariant forall k :: 0 <= k < radius + i ==> stack[k] as int == w[k]
      invariant sum as int == Dot(t[..radius + i], w[..radius + i])
      invariant inSum as int == Sum(w[radius + 1..radius + i])
    {
      sum, inSum := PrefillOne(line, stack, radius, edge, i, w, sum, inSum);
    }
    assert t[..2 * radius + 1] == t && w[..2 * radius + 1] == w;
    assert w[radius + 1..2 * radius + 1] == w[radius + 1..];
  }

  /** One iteration of the prefill loop: slot `r+i` takes the pixel at
      `PrefillPos(i)`, with weight `r+1-i` in `sum` and weight 1 in `inSum`. */
  method PrefillOne(line: array<uint8>, stack: array<uint32>, radius: nat, edge: Edge, i: nat,
                    ghost w: seq<int>, sum: uint32, inSum: uint32)
    returns (sum': uint32, inSum': uint32)
    requires SumsFit(radius) && stack.Length == 2 * radius + 1 && 1 <= i <= radius
    requires |w| == 2 * radius + 1 && Within(w, 0, 0xFF)
    requires w[radius + i] == Pixel(line[..], PrefillPos(line.Length, edge, i))
    requires sum as int == Dot(Tent(radius)[..radius + i], w[..radius + i])
    requires inSum as int == Sum(w[radius + 1..radius + i])
    modifies stack
    ensures stack[..] == old(stack[..])[radius + i := stack[radius + i]]
    ensures stack[radius + i] as int == w[radius + i]
    ensures sum' as int == Dot(Tent(radius)[..radius + i + 1], w[..radius + i + 1])
    ensures inSum' as int == Sum(w[radius + 1..radius + i + 1])
  {
    var n := line.Length;
    var radiusPlus1 := radius + 1;
    var p := i;
    if edge == Clamped && n - 1 < i {
      p := n - 1;
    }
    var v := Fetch(line, p);
    PrefillStep(w, radius, i, sum as int, inSum as int, v as int, (radiusPlus1 - i) as int);
    stack[radius + i] := v;
    sum' := sum + v * ((radiusPlus1 - i) as uint32);
    inSum' := inSum + v;
  }

  /** The first window holds `r+1` copies of pixel 0, so the accumulators
      start at `r+1` and `sumFactor` times that pixel, and all its values are bytes. */
  lemma SeedHead(line: seq<uint8>, radius: nat, edge: Edge)
    ensures Within(Window(line, radius, edge, 0), 0, 0xFF)
    ensures forall k :: 0 <= k <= radius ==> Window(line, radius, edge, 0)[k] == Pixel(line, 0)
    ensures Sum(Window(line, radius, edge, 0)[..radius + 1]) == (radius + 1) * Pixel(line, 0)
    ensures Dot(Tent(radius)[..radius + 1], Window(line, radius, edge, 0)[..radius + 1])
         == SumFactor(radius) * Pixel(line, 0)
  {
    var w := Window(line, radius, edge, 0);
    var t := Tent(radius);
    var c := Pixel(line, 0);
    FirstWindow(line, radius, edge);
    TentWithin(radius);
    assert Within(w[..radius + 1], c, c);
    assert AtLeast(t[..radius + 1], 0);
    DotWithin(t[..radius + 1], w[..radius + 1], c, c);
    SumWithin(w[..radius + 1], c, c);
  }

  /** The prefill reads position `i`, clamped to the last pixel in the
      horizontal pass: that is slot `r+i` of the first window. */
  lemma PrefillSlot(line: seq<uint8>, radius: nat, edge: Edge, i: nat)
    requires 1 <= i <= radius
    ensures Window(line, radius, edge, 0)[radius + i] == Pixel(line, PrefillPos(|line|, edge, i))
  {
    WindowAt(line, radius, edge, 0, radius + i);
  }

  /** The first pixel times `r+1` and times `sumFactor` fit in a uint32. */
  lemma SeedBounds(radius: nat, radiusPlus1: int, p: int)
    requires SumsFit(radius) && 0 <= p <= 0xFF && radiusPlus1 == radius + 1
    ensures radiusPlus1 < 0x1_0000_0000 && 0 <= radiusPlus1 * p < 0x1_0000_0000
    ensures SumFactor(radius) < 0x1_0000_0000 && 0 <= SumFactor(radius) * p < 0x1_0000_0000
  {
    var f, d := SumFactor(radius), DivSum(radius);
    DivSumRange(radius);
    SumFactorBelow(radius);
    MulMono(radius + 1, 0, p);
    MulMono(f, 0, p);
    MulMono(radius + 1, p, 0xFF);
    MulMono(f, p, 0xFF);
    MulMono(0xFF, f, d);
  }

  /** One step of the prefill: slot `r+i`, holding `v`, joins the weighted
      sum with weight `r+1-i` and joins `inSum`, and both stay uint32. */
  lemma PrefillStep(w: seq<int>, radius: nat, i: nat, sum: int, inSum: int, v: int, weight: int)
    requires SumsFit(radius)
    requires |w| == 2 * radius + 1 && Within(w, 0, 0xFF) && 1 <= i <= radius
    requires sum == Dot(Tent(radius)[..radius + i], w[..radius + i])
    requires inSum == Sum(w[radius + 1..radius + i])
    requires v == w[radius + i] && weight == radius + 1 - i
    ensures sum + v * weight == Dot(Tent(radius)[..radius + i + 1], w[..radius + i + 1])
    ensures 0 <= v * weight && sum + v * weight < 0x1_0000_0000
    ensures inSum + v == Sum(w[radius + 1..radius + i + 1]) < 0x1_0000_0000
  {
    PrefillDot(w, radius, i, v);
    PrefixDotBound(w, radius, radius + i + 1);
    SumSnoc(w, radius + 1, radius + i + 1);
    assert Within(w[radius + 1..radius + i + 1], 0, 0xFF);
    SumWithin(w[radius + 1..radius + i + 1], 0, 0xFF);
    DivSumRange(radius);
    MulMono(0xFF, i, radius + 1);
    MulMono(v, 0, radius + 1 - i);
  }

  /** Slot `r+i` has weight `r+1-i`. */
  lemma PrefillDot(w: seq<int>, radius: nat, i: nat, v: int)
    requires |w| == 2 * radius + 1 && 1 <= i <= radius && v == w[radius + i]
    ensures Dot(Tent(radius)[..radius + i + 1], w[..radius + i + 1])
         == Dot(Tent(radius)[..radius + i], w[..radius + i]) + v * (radius + 1 - i)
  {
    var t := Tent(radius);
    TentAt(radius, radius + i);
    DotSnoc(t, w, radius + i);
  }

  /** A weighted prefix of a window of bytes stays below the full bound. */
  lemma PrefixDotBound(w: seq<int>, radius: nat, m: nat)
    requires |w| == 2 * radius + 1 && Within(w, 0, 0xFF) && m <= |w|
    ensures Dot(Tent(radius)[..m], w[..m]) <= 0xFF * DivSum(radius)
  {
    var t := Tent(radius);
    TentWithin(radius);
    TentTotal(radius);
    assert AtLeast(t[..m], 0) && Within(w[..m], 0, 0xFF);
    DotWithin(t[..m], w[..m], 0, 0xFF);
    assert t[..m] + t[m..] == t;
    SumConcat(t[..m], t[m..]);
    assert Within(t[m..], 0, radius + 1);
    SumWithin(t[m..], 0, radius + 1);
    MulMono(0xFF, Sum(t[..m]), Sum(t));
  }

  /** What the scan keeps between two pixels: the ring, read from
      `stackIn` on, holds the window `win` (`stackOut` is the slot of its
      centre+1), and `sum`, `outSum` and `inSum` are its weighted sum, its
      half up to the centre and its half ahead of the centre. */
  ghost predicate Holds(s: seq<uint32>, radius: nat, stackIn: nat, stackOut: nat,
                        sum: uint32, inSum: uint32, outSum: uint32, win: seq<int>)
  {
    && |s| == 2 * radius + 1 && |win| == |s| && Within(win, 0, 0xFF)
    && stackIn < |s| && stackOut == Advance(stackIn, radius + 1, |s|)
    && (forall k :: 0 <= k < |s| ==> s[Slot(stackIn, k, |s|)] as int == win[k])
    && sum as int == Dot(Tent(radius), win)
    && outSum as int == Sum(win[..radius + 1])
    && inSum as int == Sum(win[radius + 1..])
  }

  /** The O(1) update after a pixel is written: the oldest value leaves
      through `outSum`, `v` enters at `stackIn` and through `inSum`, the
      value at `stackOut` crosses from `inSum` to `outSum`, and both
      cursors move one slot on; no uint32 wraps or underflows. */
  method Slide(stack: array<uint32>, radius: nat, stackIn: nat, stackOut: nat,
               sum: uint32, inSum: uint32, outSum: uint32, v: uint32, ghost win: seq<int>)
    returns (stackIn': nat, stackOut': nat, sum': uint32, inSum': uint32, outSum': uint32)
    requires SumsFit(radius) && v <= 0xFF
    requires Holds(stack[..], radius, stackIn, stackOut, sum, inSum, outSum, win)
    modifies stack
    ensures Holds(stack[..], radius, stackIn', stackOut', sum', inSum', outSum', win[1..] + [v as int])
  {
    var div := stack.Length;
    RingSlides(stack[..], radius, stackIn, stackOut, win, v);
    Accumulate(win, v as int, radius, sum as int, inSum as int, outSum as int);
    sum' := sum - outSum;
    outSum' := outSum - stack[stackIn];
    stack[stackIn] := v;
    assert stack[..] == old(stack[..])[stackIn := v];
    inSum' := inSum + stack[stackIn];
    sum' := sum' + inSum';
    stackIn' := Next(stackIn, div);
    var pr := stack[stackOut];
    outSum' := outSum' + pr;
    inSum' := inSum' - pr;
    stackOut' := Next(stackOut, div);
  }

  /** The accumulator arithmetic of one slide, in the order the scan does
      it, with every intermediate value a uint32. */
  lemma Accumulate(win: seq<int>, v: int, radius: nat, sum: int, inSum: int, outSum: int)
    requires SumsFit(radius) && |win| == 2 * radius + 1 && Within(win, 0, 0xFF) && 0 <= v <= 0xFF
    requires sum == Dot(Tent(radius), win)
    requires outSum == Sum(win[..radius + 1])
    requires inSum == Sum(win[radius + 1..])
    ensures var next := win[1..] + [v];
      var sum1, out1, in1 := sum - outSum, outSum - win[0], inSum + v;
      var sum2 := sum1 + in1;
      && 0 <= out1 && 0 <= sum1 && in1 < 0x1_0000_0000 && sum2 < 0x1_0000_0000
      && next[radius] <= in1 && out1 + next[radius] < 0x1_0000_0000
      && sum2 == Dot(Tent(radius), next)
      && out1 + next[radius] == Sum(next[..radius + 1])
      && in1 - next[radius] == Sum(next[radius + 1..])
  {
    DivSumRange(radius);
    SlideAccumulators(win, v, radius);
    HalvesBounds(win, radius);
    HalvesBounds(win[1..] + [v], radius);
  }

  /** Writing `v` over the oldest slot and moving both cursors on makes
      the ring hold the moved window, with `stackOut` still at its
      centre+1; before the write, `stackIn` holds the oldest value. */
  lemma RingSlides(s: seq<uint32>, radius: nat, stackIn: nat, stackOut: nat, win: seq<int>, v: uint32)
    requires |s| == 2 * radius + 1 && |win| == |s| && stackIn < |s|
    requires stackOut == Advance(stackIn, radius + 1, |s|)
    requires forall k :: 0 <= k < |s| ==> s[Slot(stackIn, k, |s|)] as int == win[k]
    ensures s[stackIn] as int == win[0]
    ensures var s', next := s[stackIn := v], win[1..] + [v as int];
      && (forall k :: 0 <= k < |s| ==> s'[Slot(Next(stackIn, |s|), k, |s|)] as int == next[k])
      && s'[stackOut] as int == next[radius]
      && Next(stackOut, |s|) == Advance(Next(stackIn, |s|), radius + 1, |s|)
  {
    var div := |s|;
    var s', next := s[stackIn := v], win[1..] + [v as int];
    var i' := Next(stackIn, div);
    assert Slot(stackIn, 0, div) == stackIn;
    forall k | 0 <= k < div
      ensures s'[Slot(i', k, div)] as int == next[k]
    {
      SlotNext(stackIn, k, div);
    }
    AdvanceIsSlot(i', radius, div);
    AdvanceIsSlot(stackIn, radius + 1, div);
    assert stackOut == Advance(i', radius, div) == Slot(i', radius, div);
    AdvanceStep(stackIn, radius + 1, div);
  }

  /** Blurs one line in place, as one iteration of the `for y` (or `for x`)
      loop of a pass does: every output is `uint8(sum / divsum)` of the
      window centred there, read from the line as it was before the scan,
      and no uint32 accumulator wraps or underflows on the way. */
  method BlurLine(line: array<uint8>, stack: array<uint32>, stackEnd: nat, radius: nat, edge: Edge)
    requires SumsFit(radius)
    requires stack.Length == 2 * radius + 1
    requires stackEnd == Advance(0, radius + 1, stack.Length)
    modifies line, stack
    ensures line[..] == BlurredLine(old(line[..]), radius, edge)
  {
    var sum, inSum, outSum := Seed(line, stack, radius, edge);
    Scan(line, stack, stackEnd, radius, edge, sum, inSum, outSum);
    EmittedIsBlurred(old(line[..]), radius, edge, line.Length);
  }

  /** The `for x` (or `for y`) loop of a line, from the seeded ring on. */
  method Scan(line: array<uint8>, stack: array<uint32>, stackEnd: nat, radius: nat, edge: Edge,
              sum0: uint32, inSum0: uint32, outSum0: uint32)
    requires SumsFit(radius)
    requires Holds(stack[..], radius, 0, stackEnd, sum0, inSum0, outSum0, Window(line[..], radius, edge, 0))
    modifies line, stack
    ensures line[..] == Emitted(old(line[..]), radius, edge, line.Length)
  {
    ghost var L := line[..];
    var n := line.Length;
    DivSumRange(radius);
    var divsum := DivSum(radius) as uint32;
    var sum, inSum, outSum := sum0, inSum0, outSum0;
    var stackIn: nat, stackOut: nat := 0, stackEnd;
    ghost var win := Window(L, radius, edge, 0);
    for x := 0 to n
      invariant Holds(stack[..], radius, stackIn, stackOut, sum, inSum, outSum, win)
      invariant x < n ==> win == Window(L, radius, edge, x)
      invariant line[..x] == Emitted(L, radius, edge, x)
      invariant line[x..] == L[x..]
    {
      var pr := Output(line, radius, edge, divsum, x, sum, L);
      stackIn, stackOut, sum, inSum, outSum := Slide(stack, radius, stackIn, stackOut, sum, inSum, outSum, pr, win);
      if x + 1 < n {
        NextWindow(L, radius, edge, x, win, pr as int);
      }
      win := win[1..] + [pr as int];
    }
  }

  /** The first half of one iteration of the scan: write `uint8(sum / divsum)`
      at `x` and read the pixel `r+1` ahead (clamped to the last one), which
      the slide then takes in. */
  method Output(line: array<uint8>, radius: nat, edge: Edge, divsum: uint32, x: nat, sum: uint32,
                ghost L: seq<uint8>)
    returns (pr: uint32)
    requires divsum as int == DivSum(radius) && divsum != 0
    requires |L| == line.Length && x < |L|
    requires sum as int == WindowSum(L, radius, edge, x)
    requires line[..x] == Emitted(L, radius, edge, x) && line[x..] == L[x..]
    modifies line
    ensures pr <= 0xFF
    ensures x + 1 < |L| ==> pr as int == Pixel(L, Min(x + radius + 1, |L| - 1))
    ensures line[..x + 1] == Emitted(L, radius, edge, x + 1) && line[x + 1..] == L[x + 1..]
  {
    var n := line.Length;
    ghost var cur := line[..];
    var q := Div32(sum, divsum);
    OutValue(L, radius, edge, x, sum, divsum, q);
    line[x] := Narrow8(q as nat);
    var p := x + radius + 1;
    if p > n - 1 {
      p := n - 1;
    }
    // the look-ahead is past x, so still unwritten, except on the last step
    Emit(cur, line[..], Emitted(L, radius, edge, x), Out(L, radius, edge, x), L, x, radius, p);
    pr := Fetch(line, p);
  }

  /** The byte Output writes is the pass's output at `x`. */
  lemma OutValue(L: seq<uint8>, radius: nat, edge: Edge, x: nat, sum: uint32, divsum: uint32,
                 q: uint32)
    requires divsum as int == DivSum(radius) && divsum != 0
    requires sum as int == WindowSum(L, radius, edge, x)
    requires q as int * divsum as int <= sum as int < (q as int + 1) * divsum as int
    ensures Narrow8(q as nat) == Out(L, radius, edge, x)
  {
    QuotientUnique(sum as int, divsum as int, q as int);
  }

  /** The window held after the slide is the window of the next pixel. */
  lemma NextWindow(line: seq<uint8>, radius: nat, edge: Edge, x: nat, win: seq<int>, v: int)
    requires win == Window(line, radius, edge, x)
    requires v == Pixel(line, Min(x + radius + 1, |line| - 1))
    ensures win[1..] + [v] == Window(line, radius, edge, x + 1)
  {
    WindowSlides(line, radius, edge, x);
  }

  /** Writing the output `o` at `x` extends the emitted prefix by one and
      leaves the positions after `x` as they were before the scan, so the
      look-ahead `p` reads the original pixel unless it is `x` itself. */
  lemma Emit(cur: seq<uint8>, now: seq<uint8>, done: seq<uint8>, o: uint8, orig: seq<uint8>,
             x: nat, radius: nat, p: int)
    requires |cur| == |orig| && x < |cur|
    requires cur[..x] == done && cur[x..] == orig[x..]
    requires now == cur[x := o]
    requires p == Min(x + radius + 1, |cur| - 1)
    ensures now[..x + 1] == done + [o] && now[x + 1..] == orig[x + 1..]
    ensures x < |cur| - 1 ==> Pixel(now, p) == Pixel(orig, Min(x + radius + 1, |cur| - 1))
  {
    assert now[..x + 1] == cur[..x] + [o];
    assert now[x + 1..] == cur[x..][1..];
    if x < |cur| - 1 {
      assert cur[x..][p - x] == orig[x..][p - x];
    }
  }
}
