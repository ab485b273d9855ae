/** Order statistics of a band's samples: the minimum and maximum that
  * `ndarray.min()` / `ndarray.max()` return, and the percentile that
  * `numpy.percentile` computes with its default "linear" method (sort the
  * samples, take the rank q/100*(n-1), interpolate between the two order
  * statistics around it). Samples are exact reals standing for float64. */
module OrderStats {

  /** Non-decreasing order. */
  predicate Sorted(s: seq<real>) {
    forall i, j :: 0 <= i <= j < |s| ==> s[i] <= s[j]
  }

  /** The smallest sample. */
  function Min(s: seq<real>): (m: real)
    requires |s| > 0
    ensures m in s
    ensures forall k :: 0 <= k < |s| ==> m <= s[k]
  {
    if |s| == 1 then s[0]
    else
      var rest := Min(s[1..]);
      if s[0] <= rest then s[0] else rest
  }

  /** The largest sample. */
  function Max(s: seq<real>): (m: real)
    requires |s| > 0
    ensures m in s
    ensures forall k :: 0 <= k < |s| ==> s[k] <= m
  {
    if |s| == 1 then s[0]
    else
      var rest := Max(s[1..]);
      if s[0] >= rest then s[0] else rest
  }

  /** Inserts `x` into an already sorted sequence, keeping it sorted. */
  function Insert(x: real, s: seq<real>): (r: seq<real>)
    requires Sorted(s)
    ensures |r| == |s| + 1
    ensures r[0] == x || (s != [] && r[0] == s[0])
    ensures Sorted(r)
    ensures multiset(r) == multiset(s) + multiset{x}
  {
    if s == [] || x <= s[0] then [x] + s
    else
      assert s == [s[0]] + s[1..];
      var rest := Insert(x, s[1..]);
      assert s[0] <= rest[0];
      assert Sorted([s[0]] + rest) by {
        forall i, j | 0 <= i <= j < |rest| + 1
          ensures ([s[0]] + rest)[i] <= ([s[0]] + rest)[j]
        {
          if i == 0 && j > 0 {
            assert rest[0] <= rest[j - 1];
          }
        }
      }
      [s[0]] + rest
  }

  /** The samples in ascending order (the order `percentile` works on). */
  function Sort(s: seq<real>): (r: seq<real>)
    ensures |r| == |s|
    ensures Sorted(r)
    ensures multiset(r) == multiset(s)
  {
    if s == [] then []
    else
      assert s == [s[0]] + s[1..];
      Insert(s[0], Sort(s[1..]))
  }

  /** The first and last order statistics are the minimum and the maximum. */
  lemma SortEnds(s: seq<real>)
    requires |s| > 0
    ensures Sort(s)[0] == Min(s)
    ensures Sort(s)[|s| - 1] == Max(s)
  {
    var r := Sort(s);
    assert Min(s) in multiset(r);
    var i :| 0 <= i < |r| && r[i] == Min(s);
    assert r[0] in multiset(s);
    var k :| 0 <= k < |s| && s[k] == r[0];
    assert Max(s) in multiset(r);
    var j :| 0 <= j < |r| && r[j] == Max(s);
    assert r[|r| - 1] in multiset(s);
    var m :| 0 <= m < |s| && s[m] == r[|r| - 1];
  }

  /** Scaling by a non-negative factor preserves order. */
  lemma ScaleMonotone(a: real, b: real, d: real)
    requires a <= b && 0.0 <= d
    ensures a * d <= b * d
  {
    assert b * d - a * d == (b - a) * d;
  }

  /** The fractional rank q/100*(n-1) of the q-th percentile among n samples. */
  function Rank(n: nat, q: real): (h: real)
    requires n > 0 && 0.0 <= q <= 100.0
    ensures 0.0 <= h <= (n - 1) as real
  {
    var f, m := q / 100.0, (n - 1) as real;
    assert 0.0 <= f <= 1.0;
    ScaleMonotone(0.0, f, m);
    ScaleMonotone(f, 1.0, m);
    assert 0.0 <= f * m <= m;
    f * m
  }

  /** Linear interpolation at fractional rank `h` of a sorted sequence: between
    * the order statistics at floor(h) and at the next index, the next index
    * being clipped to the last one. */
  function Interpolate(r: seq<real>, h: real): real
    requires |r| > 0 && 0.0 <= h <= (|r| - 1) as real
  {
    var i := h.Floor;
    var j := if i + 1 < |r| then i + 1 else i;
    r[i] + (h - i as real) * (r[j] - r[i])
  }

  /** On a sorted sequence the interpolated value lies between the two order
    * statistics it interpolates, hence between the first and the last. */
  lemma InterpolateBetween(r: seq<real>, h: real)
    requires Sorted(r)
    requires |r| > 0 && 0.0 <= h <= (|r| - 1) as real
    ensures r[h.Floor] <= Interpolate(r, h)
    ensures h.Floor + 1 < |r| ==> Interpolate(r, h) <= r[h.Floor + 1]
    ensures r[0] <= Interpolate(r, h) <= r[|r| - 1]
  {
    var i := h.Floor;
    var j := if i + 1 < |r| then i + 1 else i;
    var t := h - i as real;
    var d := r[j] - r[i];
    assert 0.0 <= t < 1.0;
    assert 0.0 <= d;
    ScaleMonotone(0.0, t, d);
    ScaleMonotone(t, 1.0, d);
    assert Interpolate(r, h) == r[i] + t * d;
  }

  /** Interpolation is monotone in the rank. */
  lemma InterpolateMonotone(r: seq<real>, h1: real, h2: real)
    requires Sorted(r)
    requires |r| > 0 && 0.0 <= h1 <= h2 <= (|r| - 1) as real
    ensures Interpolate(r, h1) <= Interpolate(r, h2)
  {
    var i1, i2 := h1.Floor, h2.Floor;
    InterpolateBetween(r, h1);
    InterpolateBetween(r, h2);
    if i1 == i2 {
      var j := if i1 + 1 < |r| then i1 + 1 else i1;
      var d := r[j] - r[i1];
      assert d >= 0.0;
      ScaleMonotone(h1 - i1 as real, h2 - i1 as real, d);
      assert Interpolate(r, h1) == r[i1] + (h1 - i1 as real) * d;
      assert Interpolate(r, h2) == r[i1] + (h2 - i1 as real) * d;
    } else {
      assert i1 < i2;
      assert Interpolate(r, h1) <= r[i1 + 1] <= r[i2];
    }
  }

  /** The q-th percentile (0 <= q <= 100) of a non-empty sample sequence. */
  function Percentile(s: seq<real>, q: real): (v: real)
    requires |s| > 0 && 0.0 <= q <= 100.0
    ensures Min(s) <= v <= Max(s)
  {
    var r := Sort(s);
    var h := Rank(|s|, q);
    SortEnds(s);
    InterpolateBetween(r, h);
    Interpolate(r, h)
  }

  /** A lower percentile never exceeds a higher one. */
  lemma PercentileMonotone(s: seq<real>, q1: real, q2: real)
    requires |s| > 0 && 0.0 <= q1 <= q2 <= 100.0
    ensures Percentile(s, q1) <= Percentile(s, q2)
  {
    var n := |s|;
    ScaleMonotone(q1 / 100.0, q2 / 100.0, (n - 1) as real);
    InterpolateMonotone(Sort(s), Rank(n, q1), Rank(n, q2));
  }

  /** Every percentile of a constant band is that constant. */
  lemma PercentileOfConstant(s: seq<real>, c: real, q: real)
    requires |s| > 0 && 0.0 <= q <= 100.0
    requires forall k :: 0 <= k < |s| ==> s[k] == c
    ensures Percentile(s, q) == c
  {
    assert Min(s) == c && Max(s) == c;
  }
}
