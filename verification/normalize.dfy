/** The percentile band normaliser `normalize_percentile`: take the band's
  * lower and upper percentiles as `low` and `high`, clip every sample to
  * [low, high], rescale with (x - low) / (high - low) * 255 and cast to uint8
  * (the cast truncates toward zero). */
module Normalize {
  import opened OrderStats

  /** The defaults of `normalize_percentile`, the only values the script uses. */
  const LowerPercentile: real := 2.0
  const UpperPercentile: real := 98.0

  /** An unsigned 8-bit sample. */
  type Byte = b: int | 0 <= b < 256

  /** A 2-D band, row by row. */
  type Band = seq<seq<real>>

  /** Two grids have the same number of rows and the same row lengths. */
  predicate SameShape<A, B>(a: seq<seq<A>>, b: seq<seq<B>>) {
    |a| == |b| && forall i :: 0 <= i < |a| ==> |a[i]| == |b[i]|
  }

  lemma SameShapeTransitive<A, B, C>(a: seq<seq<A>>, b: seq<seq<B>>, c: seq<seq<C>>)
    requires SameShape(a, b) && SameShape(b, c)
    ensures SameShape(a, c)
  {
  }

  /** The number of samples of a band: the sum of its row lengths. */
  function Size(band: Band): nat {
    if band == [] then 0 else |band[0]| + Size(band[1..])
  }

  /** The samples of a band in row-major order, as `percentile` sees them. */
  function Flatten(band: Band): (s: seq<real>)
    ensures |s| == Size(band)
    ensures forall i, j :: 0 <= i < |band| && 0 <= j < |band[i]| ==> band[i][j] in s
    ensures s == [] <==> forall i :: 0 <= i < |band| ==> band[i] == []
  {
    if band == [] then []
    else
      var rest := Flatten(band[1..]);
      assert forall i :: 1 <= i < |band| ==> band[i] == band[1..][i - 1];
      band[0] + rest
  }

  /** `numpy.clip(x, low, high)`, that is minimum(maximum(x, low), high). */
  function Clip(x: real, low: real, high: real): (c: real)
    ensures low <= high ==> low <= c <= high
    ensures low <= x <= high ==> c == x
    ensures x < low <= high ==> c == low
    ensures low <= high < x ==> c == high
    ensures high < low ==> c == high
  {
    var raised := if x < low then low else x;
    if raised > high then high else raised
  }

  /** The exact rescaled value (c - low) / (high - low) * 255. */
  function Scale(c: real, low: real, high: real): real
    requires low != high
  {
    (c - low) / (high - low) * 255.0
  }

  /** Dividing by a positive width preserves order. */
  lemma DivideMonotone(a: real, b: real, d: real)
    requires a <= b && 0.0 < d
    ensures a / d <= b / d
  {
    assert b / d - a / d == (b - a) / d;
  }

  /** A clipped sample rescales into [0, 255], to 0 at or below `low` and to
    * 255 at or above `high`; when high < low every sample clips to `high` and
    * rescales to exactly 255. */
  lemma ScaleInRange(x: real, low: real, high: real)
    requires low != high
    ensures 0.0 <= Scale(Clip(x, low, high), low, high) <= 255.0
    ensures low < high && x <= low ==> Scale(Clip(x, low, high), low, high) == 0.0
    ensures low < high && high <= x ==> Scale(Clip(x, low, high), low, high) == 255.0
    ensures high < low ==> Scale(Clip(x, low, high), low, high) == 255.0
  {
    var c := Clip(x, low, high);
    var d := high - low;
    var u := (c - low) / d;
    assert d / d == 1.0;
    if low < high {
      DivideMonotone(0.0, c - low, d);
      DivideMonotone(c - low, d, d);
      assert 0.0 <= u <= 1.0;
      if high <= x {
        assert c == high && u == 1.0;
      }
    } else {
      assert c == high && u == 1.0;
    }
    assert Scale(c, low, high) == u * 255.0;
  }

  /** One output sample: clip, rescale, then truncate as `astype(np.uint8)`
    * does for a value in [0, 255]. */
  function Level(x: real, low: real, high: real): (b: int)
    requires low != high
    ensures 0 <= b <= 255
    ensures b as real <= Scale(Clip(x, low, high), low, high) < b as real + 1.0
    ensures low < high && x <= low ==> b == 0
    ensures low < high && high <= x ==> b == 255
    ensures high < low ==> b == 255
  {
    ScaleInRange(x, low, high);
    Scale(Clip(x, low, high), low, high).Floor
  }

  /** A larger sample never gets a smaller level. */
  lemma {:induction false} LevelMonotone(a: real, b: real, low: real, high: real)
    requires low < high && a <= b
    ensures Level(a, low, high) <= Level(b, low, high)
  {
    var ca, cb := Clip(a, low, high), Clip(b, low, high);
    assert ca <= cb;
    DivideMonotone(ca - low, cb - low, high - low);
    assert Scale(ca, low, high) <= Scale(cb, low, high);
  }

  /** The cast truncates rather than rounds: midway between low and high the
    * exact value 127.5 becomes 127, where rounding would give 128. */
  lemma LevelTruncates()
    ensures Scale(Clip(1.0, 0.0, 2.0), 0.0, 2.0) == 127.5
    ensures Level(1.0, 0.0, 2.0) == 127
  {
    assert Scale(Clip(1.0, 0.0, 2.0), 0.0, 2.0) == 127.5;
  }

  /** What numpy raises inside `normalize_percentile`. */
  datatype NormError =
    | PercentileOutOfRange  // a percentile outside [0, 100]: ValueError
    | EmptyBand             // no samples to take a percentile of

  /** The result of normalising one band. `Undefined` is the degenerate case
    * high == low: the rescale computes 0/0 for every sample and the uint8
    * cast of NaN has no specified value. */
  datatype Normalized =
    | Levels(rows: seq<seq<Byte>>)
    | Undefined
    | Raised(error: NormError)

  predicate ValidPercentile(q: real) {
    0.0 <= q <= 100.0
  }

  /** `low` and `high` for a band with samples. */
  function Bounds(band: Band, lower: real, upper: real): (bounds: (real, real))
    requires ValidPercentile(lower) && ValidPercentile(upper)
    requires Flatten(band) != []
    ensures lower <= upper ==> bounds.0 <= bounds.1
    ensures Min(Flatten(band)) <= bounds.0 <= Max(Flatten(band))
    ensures Min(Flatten(band)) <= bounds.1 <= Max(Flatten(band))
  {
    var flat := Flatten(band);
    var bounds := (Percentile(flat, lower), Percentile(flat, upper));
    if lower <= upper then PercentileMonotone(flat, lower, upper); bounds else bounds
  }

  /** The rescaled band: `Level` at every position. */
  function LevelsOf(band: Band, low: real, high: real): (rows: seq<seq<Byte>>)
    requires low != high
    ensures SameShape(rows, band)
    ensures forall i, j :: 0 <= i < |band| && 0 <= j < |band[i]| ==> rows[i][j] == Level(band[i][j], low, high)
  {
    seq(|band|, i requires 0 <= i < |band| =>
      seq(|band[i]|, j requires 0 <= j < |band[i]| => Level(band[i][j], low, high) as Byte))
  }

  /** `normalize_percentile(band, lower, upper)`. The lower percentile is
    * taken first, so its range error and an empty band are reported before
    * anything about the upper percentile. */
  function NormalizePercentile(band: Band, lower: real, upper: real): (r: Normalized)
    ensures r == Raised(PercentileOutOfRange) <==>
              !ValidPercentile(lower) || (Flatten(band) != [] && !ValidPercentile(upper))
    ensures r == Raised(EmptyBand) <==> ValidPercentile(lower) && Flatten(band) == []
    ensures r.Undefined? <==>
              ValidPercentile(lower) && ValidPercentile(upper) && Flatten(band) != [] &&
              Bounds(band, lower, upper).0 == Bounds(band, lower, upper).1
    ensures r.Levels? ==>
              ValidPercentile(lower) && ValidPercentile(upper) && Flatten(band) != [] &&
              var (low, high) := Bounds(band, lower, upper);
              low != high && SameShape(r.rows, band) &&
              forall i, j :: 0 <= i < |band| && 0 <= j < |band[i]| ==>
                r.rows[i][j] == Level(band[i][j], low, high)
  {
    if !ValidPercentile(lower) then Raised(PercentileOutOfRange)
    else if Flatten(band) == [] then Raised(EmptyBand)
    else if !ValidPercentile(upper) then Raised(PercentileOutOfRange)
    else
      var (low, high) := Bounds(band, lower, upper);
      if low == high then Undefined
      else
        Levels(LevelsOf(band, low, high))
  }

  /** The call the script makes: `normalize_percentile(band)`. */
  function NormalizeBand(band: Band): (r: Normalized)
    ensures r.Raised? <==> Flatten(band) == []
    ensures r.Levels? ==> SameShape(r.rows, band)
  {
    NormalizePercentile(band, LowerPercentile, UpperPercentile)
  }

  /** With the defaults the result is defined exactly when high > low, and
    * undefined exactly when the two percentiles coincide. */
  lemma DefinedIffSpread(band: Band)
    requires Flatten(band) != []
    ensures var (low, high) := Bounds(band, LowerPercentile, UpperPercentile);
            (NormalizeBand(band).Levels? <==> low < high) &&
            (NormalizeBand(band).Undefined? <==> low == high)
  {
  }

  /** A constant band is the degenerate case: no value is fabricated. */
  lemma ConstantBandUndefined(band: Band, c: real)
    requires Flatten(band) != []
    requires forall i, j :: 0 <= i < |band| && 0 <= j < |band[i]| ==> band[i][j] == c
    ensures NormalizeBand(band) == Undefined
  {
    var flat := Flatten(band);
    forall k | 0 <= k < |flat|
      ensures flat[k] == c
    {
      FlattenMember(band, k);
    }
    PercentileOfConstant(flat, c, LowerPercentile);
    PercentileOfConstant(flat, c, UpperPercentile);
  }

  /** Sample (i, j) sits at index Size(band[..i]) + j of the flattened band:
    * the flattening is row-major, with every sample counted once. */
  lemma {:induction false} FlattenIndex(band: Band, i: nat, j: nat)
    requires i < |band| && j < |band[i]|
    ensures Size(band[..i]) + j < |Flatten(band)|
    ensures Flatten(band)[Size(band[..i]) + j] == band[i][j]
  {
    if i == 0 {
      assert band[..0] == [];
    } else {
      var tail := band[1..];
      assert band[..i][0] == band[0] && band[..i][1..] == tail[..i - 1];
      assert tail[i - 1] == band[i];
      FlattenIndex(tail, i - 1, j);
      assert Flatten(band) == band[0] + Flatten(tail);
    }
  }

  /** Every flattened sample comes from some position of the band. */
  lemma {:induction false} FlattenMember(band: Band, k: nat)
    requires k < |Flatten(band)|
    ensures exists i, j :: 0 <= i < |band| && 0 <= j < |band[i]| && Flatten(band)[k] == band[i][j]
  {
    if k < |band[0]| {
      assert Flatten(band)[k] == band[0][k];
    } else {
      FlattenMember(band[1..], k - |band[0]|);
      var i, j :| 0 <= i < |band[1..]| && 0 <= j < |band[1..][i]| &&
                  Flatten(band[1..])[k - |band[0]|] == band[1..][i][j];
      assert Flatten(band)[k] == band[i + 1][j];
    }
  }

  /** Normalisation keeps the order of samples: a sample no larger than
    * another never gets a larger level. */
  lemma NormalizeMonotone(band: Band, i1: nat, j1: nat, i2: nat, j2: nat)
    requires NormalizeBand(band).Levels?
    requires i1 < |band| && j1 < |band[i1]| && i2 < |band| && j2 < |band[i2]|
    requires band[i1][j1] <= band[i2][j2]
    ensures NormalizeBand(band).rows[i1][j1] <= NormalizeBand(band).rows[i2][j2]
  {
    var (low, high) := Bounds(band, LowerPercentile, UpperPercentile);
    LevelMonotone(band[i1][j1], band[i2][j2], low, high);
  }

  /** Samples at or below `low` become 0 and samples at or above `high` become
    * 255; in particular the band's minimum becomes 0 and its maximum 255. */
  lemma NormalizeEndpoints(band: Band, i: nat, j: nat)
    requires NormalizeBand(band).Levels?
    requires i < |band| && j < |band[i]|
    ensures var (low, high) := Bounds(band, LowerPercentile, UpperPercentile);
            (band[i][j] <= low ==> NormalizeBand(band).rows[i][j] == 0) &&
            (band[i][j] >= high ==> NormalizeBand(band).rows[i][j] == 255)
    ensures band[i][j] == Min(Flatten(band)) ==> NormalizeBand(band).rows[i][j] == 0
    ensures band[i][j] == Max(Flatten(band)) ==> NormalizeBand(band).rows[i][j] == 255
  {
  }
}
