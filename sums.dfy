/** Sums and weighted sums of integer sequences, and the triangular
    ("tent") weights of a StackBlur window. */
module Sums {

  /** The sum of the elements of `s`. */
  function Sum(s: seq<int>): int
  {
    if |s| == 0 then 0 else Sum(s[..|s| - 1]) + s[|s| - 1]
  }

  /** The sum of `w[k] * s[k]`: `s` weighted by `w`. */
  function Dot(w: seq<int>, s: seq<int>): int
    requires |w| == |s|
  {
    if |s| == 0 then 0 else Dot(w[..|s| - 1], s[..|s| - 1]) + w[|s| - 1] * s[|s| - 1]
  }

  predicate Within(s: seq<int>, lo: int, hi: int)
  {
    forall k :: 0 <= k < |s| ==> lo <= s[k] <= hi
  }

  predicate AtLeast(s: seq<int>, lo: int)
  {
    forall k :: 0 <= k < |s| ==> lo <= s[k]
  }

  function Abs(i: int): nat
  {
    if i < 0 then -i else i
  }

  /** The StackBlur weights of a window of radius `r`: the element at
      offset `j` from the centre (`j` in `-r..r`, stored at index `j + r`)
      weighs `r + 1 - |j|`, rising 1, 2, .., r+1 and falling back to 1. */
  function Tent(r: nat): (t: seq<int>)
    ensures |t| == 2 * r + 1
  {
    seq(2 * r + 1, k => r + 1 - Abs(k - r))
  }

  lemma TentAt(r: nat, k: int)
    requires 0 <= k < 2 * r + 1
    ensures Tent(r)[k] == r + 1 - Abs(k - r)
  {
  }

  /** Weights on a straight line: `a * k + c` at index `k`. */
  function Ramp(a: int, c: int, m: nat): (t: seq<int>)
    ensures |t| == m
  {
    seq(m, k => a * k + c)
  }

  lemma MulMono(a: int, b: int, c: int)
    requires 0 <= a && b <= c
    ensures a * b <= a * c
  {
  }

  lemma Distrib(a: int, x: int, y: int)
    ensures a * (x + y) == a * x + y * a
  {
  }

  lemma {:induction false} SumConcat(a: seq<int>, b: seq<int>)
    ensures Sum(a + b) == Sum(a) + Sum(b)
    decreases |b|
  {
    if |b| == 0 {
      assert a + b == a;
    } else {
      var n := |b| - 1;
      assert (a + b)[..|a + b| - 1] == a + b[..n];
      SumConcat(a, b[..n]);
    }
  }

  lemma SumHead(s: seq<int>)
    requires |s| > 0
    ensures Sum(s) == s[0] + Sum(s[1..])
  {
    var h := [s[0]];
    assert s == h + s[1..];
    SumConcat(h, s[1..]);
    assert h[..0] == [];
    assert Sum(h) == Sum(h[..0]) + h[0];
  }

  /** A sum of `|s|` values in `lo..hi` lies in `lo*|s| .. hi*|s|`. */
  lemma {:induction false} SumWithin(s: seq<int>, lo: int, hi: int)
    requires Within(s, lo, hi)
    ensures lo * |s| <= Sum(s) <= hi * |s|
    decreases |s|
  {
    if |s| > 0 {
      var n := |s| - 1;
      assert Within(s[..n], lo, hi);
      SumWithin(s[..n], lo, hi);
      assert lo * |s| == lo * n + lo;
      assert hi * |s| == hi * n + hi;
    }
  }

  lemma {:induction false} DotConcat(u: seq<int>, v: seq<int>, a: seq<int>, b: seq<int>)
    requires |u| == |a| && |v| == |b|
    ensures Dot(u + v, a + b) == Dot(u, a) + Dot(v, b)
    decreases |b|
  {
    if |b| == 0 {
      assert u + v == u;
      assert a + b == a;
    } else {
      var n := |b| - 1;
      assert (u + v)[..|u + v| - 1] == u + v[..n];
      assert (a + b)[..|a + b| - 1] == a + b[..n];
      DotConcat(u, v[..n], a, b[..n]);
    }
  }

  /** Non-negative weights applied to values in `lo..hi` give a total
      between `lo` and `hi` times the total weight. */
  lemma {:induction false} DotWithin(w: seq<int>, s: seq<int>, lo: int, hi: int)
    requires |w| == |s| && AtLeast(w, 0) && Within(s, lo, hi)
    ensures lo * Sum(w) <= Dot(w, s) <= hi * Sum(w)
    decreases |s|
  {
    if |s| > 0 {
      var n := |s| - 1;
      assert AtLeast(w[..n], 0) && Within(s[..n], lo, hi);
      DotWithin(w[..n], s[..n], lo, hi);
      assert Sum(w) == Sum(w[..n]) + w[n];
      MulMono(w[n], lo, s[n]);
      MulMono(w[n], s[n], hi);
      Distrib(lo, Sum(w[..n]), w[n]);
      Distrib(hi, Sum(w[..n]), w[n]);
    }
  }

  /** Weights of at least 1 on non-negative values give at least their
      plain sum. */
  lemma {:induction false} DotCoversSum(w: seq<int>, s: seq<int>)
    requires |w| == |s| && AtLeast(w, 1) && AtLeast(s, 0)
    ensures Dot(w, s) >= Sum(s)
    decreases |s|
  {
    if |s| > 0 {
      var n := |s| - 1;
      assert AtLeast(w[..n], 1) && AtLeast(s[..n], 0);
      DotCoversSum(w[..n], s[..n]);
      MulMono(s[n], 1, w[n]);
    }
  }

  /** Dropping the first value of `s` while every remaining value keeps the
      weight of the line at its old index removes exactly `c * s[0]`. */
  lemma {:induction false} RampShift(a: int, c: int, s: seq<int>)
    requires |s| >= 1
    ensures Dot(Ramp(a, c + a, |s| - 1), s[1..]) == Dot(Ramp(a, c, |s|), s) - c * s[0]
    decreases |s|
  {
    var m := |s|;
    if m == 1 {
      assert Ramp(a, c, 1)[..0] == [] && s[..0] == [];
    } else {
      var t := s[..m - 1];
      RampShift(a, c, t);
      assert Ramp(a, c + a, m - 1)[..m - 2] == Ramp(a, c + a, m - 2);
      assert s[1..][..m - 2] == t[1..];
      assert Ramp(a, c, m)[..m - 1] == Ramp(a, c, m - 1);
      assert Ramp(a, c + a, m - 1)[m - 2] == Ramp(a, c, m)[m - 1];
    }
  }

  /** Raising every weight by `d` adds `d` times the plain sum. */
  lemma {:induction false} RampLift(a: int, c: int, d: int, s: seq<int>)
    ensures Dot(Ramp(a, c + d, |s|), s) == Dot(Ramp(a, c, |s|), s) + d * Sum(s)
    decreases |s|
  {
    if |s| > 0 {
      var n := |s| - 1;
      RampLift(a, c, d, s[..n]);
      assert Ramp(a, c + d, |s|)[..n] == Ramp(a, c + d, n);
      assert Ramp(a, c, |s|)[..n] == Ramp(a, c, n);
      assert (a * n + c + d) * s[n] == (a * n + c) * s[n] + d * s[n];
      assert d * Sum(s) == d * Sum(s[..n]) + d * s[n];
    }
  }

  /** The total of the weights of a line: an arithmetic series. */
  lemma {:induction false} RampSum(a: int, c: int, m: nat)
    ensures 2 * Sum(Ramp(a, c, m)) == m * (2 * c + a * (m - 1))
  {
    if m > 0 {
      RampSum(a, c, m - 1);
      assert Ramp(a, c, m)[..m - 1] == Ramp(a, c, m - 1);
      calc {
        2 * Sum(Ramp(a, c, m));
        2 * Sum(Ramp(a, c, m - 1)) + 2 * (a * (m - 1) + c);
        (m - 1) * (2 * c + a * (m - 2)) + 2 * (a * (m - 1) + c);
        m * (2 * c + a * (m - 1));
      }
    }
  }

  /** The tent is a rising line 1..r+1 followed by a falling line r..1. */
  lemma TentSplit(r: nat)
    ensures Tent(r) == Ramp(1, 1, r + 1) + Ramp(-1, r, r)
  {
    var t := Ramp(1, 1, r + 1) + Ramp(-1, r, r);
    forall k | 0 <= k < 2 * r + 1
      ensures Tent(r)[k] == t[k]
    {
      TentAt(r, k);
      if k > r {
        assert t[k] == Ramp(-1, r, r)[k - r - 1];
      }
    }
  }

  lemma TentWithin(r: nat)
    ensures Within(Tent(r), 1, r + 1) && AtLeast(Tent(r), 1) && AtLeast(Tent(r), 0)
  {
    forall k | 0 <= k < 2 * r + 1
      ensures 1 <= Tent(r)[k] <= r + 1
    {
      TentAt(r, k);
    }
  }

  /** The weights of the window total `(r+1)^2`, and those of its half up
      to the centre (offsets -r..0) total `1 + 2 + .. + (r+1)`. */
  lemma TentTotal(r: nat)
    ensures 2 * Sum(Tent(r)[..r + 1]) == (r + 1) * (r + 2)
    ensures Sum(Tent(r)) == (r + 1) * (r + 1)
  {
    TentSplit(r);
    var up, down := Ramp(1, 1, r + 1), Ramp(-1, r, r);
    assert Tent(r)[..r + 1] == up;
    RampSum(1, 1, r + 1);
    RampSum(-1, r, r);
    SumConcat(up, down);
  }

  /** Sliding the rising half of the window: its first value leaves and
      `b0` enters at the top weight `r + 1`. */
  lemma RisingShift(a: seq<int>, b0: int, r: nat)
    requires |a| == r + 1
    ensures Dot(Ramp(1, 1, r + 1), a[1..] + [b0]) == Dot(Ramp(1, 1, r + 1), a) - Sum(a) + (r + 1) * b0
  {
    var up, a' := Ramp(1, 1, r + 1), a[1..] + [b0];
    assert up[..r] == Ramp(1, 1, r) && a'[..r] == a[1..] && a'[r] == b0 && up[r] == r + 1;
    assert Dot(up, a') == Dot(Ramp(1, 1, r), a[1..]) + (r + 1) * b0;
    RampShift(1, 0, a);
    assert Dot(Ramp(1, 1, r), a[1..]) == Dot(Ramp(1, 0, r + 1), a);
    RampLift(1, 0, 1, a);
  }

  /** Sliding the falling half of the window: its first value leaves and
      `v` enters at the bottom weight 1. */
  lemma FallingShift(b: seq<int>, v: int, r: nat)
    requires r >= 1 && |b| == r
    ensures Dot(Ramp(-1, r, r), b[1..] + [v]) == Dot(Ramp(-1, r, r), b) + Sum(b) - (r + 1) * b[0] + v
  {
    var down, b' := Ramp(-1, r, r), b[1..] + [v];
    assert down[..r - 1] == Ramp(-1, r, r - 1) && b'[..r - 1] == b[1..] && b'[r - 1] == v;
    assert Dot(down, b') == Dot(Ramp(-1, r, r - 1), b[1..]) + v;
    RampShift(-1, r + 1, b);
    assert Dot(Ramp(-1, r, r - 1), b[1..]) == Dot(Ramp(-1, r + 1, r), b) - (r + 1) * b[0];
    RampLift(-1, r, 1, b);
    assert Dot(Ramp(-1, r + 1, r), b) == Dot(down, b) + Sum(b);
  }

  /** The sliding-window identity StackBlur's scan rests on: moving a
      window one place (dropping `s[0]`, taking in `v`) changes its
      tent-weighted sum by minus the half up to the centre (offsets -r..0), plus the
      half ahead of the centre (offsets 1..r), plus the newcomer. */
  lemma TentShift(s: seq<int>, v: int, r: nat)
    requires |s| == 2 * r + 1
    ensures Dot(Tent(r), s[1..] + [v]) == Dot(Tent(r), s) - Sum(s[..r + 1]) + Sum(s[r + 1..]) + v
  {
    TentSplit(r);
    if r == 0 {
      assert s[1..] + [v] == [v] && s[r + 1..] == [] && s[..r + 1] == s;
      assert Dot([1], [v]) == Dot([], []) + 1 * v;
    } else {
      WideShift(s, v, r);
    }
  }

  lemma WideShift(s: seq<int>, v: int, r: nat)
    requires r >= 1 && |s| == 2 * r + 1
    ensures Dot(Ramp(1, 1, r + 1) + Ramp(-1, r, r), s[1..] + [v])
         == Dot(Ramp(1, 1, r + 1) + Ramp(-1, r, r), s) - Sum(s[..r + 1]) + Sum(s[r + 1..]) + v
  {
    var s' := s[1..] + [v];
    var up, down := Ramp(1, 1, r + 1), Ramp(-1, r, r);
    var a, b := s[..r + 1], s[r + 1..];
    SplitDot(up, down, s, r + 1);
    SplitDot(up, down, s', r + 1);
    ShiftHalves(s, v, r + 1);
    var top := (r + 1) * b[0];
    RisingShift(a, b[0], r);
    assert Dot(up, s'[..r + 1]) == Dot(up, a) - Sum(a) + top;
    FallingShift(b, v, r);
    assert Dot(down, s'[r + 1..]) == Dot(down, b) + Sum(b) - top + v;
  }

  /** Moving a sequence on by one moves both of its parts on by one, the
      first element of the second part crossing into the first. */
  lemma ShiftHalves(s: seq<int>, v: int, m: nat)
    requires 0 < m < |s|
    ensures (s[1..] + [v])[..m] == s[..m][1..] + [s[m..][0]]
    ensures (s[1..] + [v])[m..] == s[m..][1..] + [v]
  {
  }

  lemma SplitDot(u: seq<int>, w: seq<int>, s: seq<int>, m: nat)
    requires |u| == m && |u| + |w| == |s|
    ensures Dot(u + w, s) == Dot(u, s[..m]) + Dot(w, s[m..])
  {
    assert s == s[..m] + s[m..];
    DotConcat(u, w, s[..m], s[m..]);
  }

  /** Extending a prefix by one element adds that element's product. */
  lemma DotSnoc(w: seq<int>, s: seq<int>, m: nat)
    requires |w| == |s| && m < |s|
    ensures Dot(w[..m + 1], s[..m + 1]) == Dot(w[..m], s[..m]) + w[m] * s[m]
  {
    assert w[..m + 1][..m] == w[..m] && s[..m + 1][..m] == s[..m];
  }

  /** Extending a slice by one element adds that element. */
  lemma SumSnoc(s: seq<int>, a: nat, b: nat)
    requires a < b <= |s|
    ensures Sum(s[a..b]) == Sum(s[a..b - 1]) + s[b - 1]
  {
    assert s[a..b][..b - 1 - a] == s[a..b - 1];
  }
}
