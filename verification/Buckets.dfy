/** FFT rows: the exporter averages linear power over buckets, the receiver picks
    every so many bins of what is still too long. Powers are exact reals; with
    512 buckets the exporter's step is exact in binary floating point as well. */
module Buckets {

  /** One FFT bin in decibels. */
  datatype Bin = NaN | Db(value: real)

  /** Linear power; pow10 is ten to the power of its argument. */
  function Linear(pow10: real -> real, b: Bin): real {
    if b.NaN? || b.value < -180.0 then 0.0 else pow10(b.value / 10.0)
  }

  function Powers(pow10: real -> real, bins: seq<Bin>): (p: seq<real>)
    ensures |p| == |bins|
  {
    seq(|bins|, i requires 0 <= i < |bins| => Linear(pow10, bins[i]))
  }

  /** What ten to a power and its logarithm must satisfy. */
  ghost predicate Powers10(pow10: real -> real, log10: real -> real) {
    forall y: real :: pow10(y) > 0.0 && log10(pow10(y)) == y
  }

  /** Linear power has the decibels of its bin, and is zero for the bins without a
      value or below the floor, and for no others. */
  lemma LinearIsPower(pow10: real -> real, log10: real -> real, b: Bin)
    requires Powers10(pow10, log10)
    ensures b.Db? && b.value >= -180.0 ==> Linear(pow10, b) > 0.0 && 10.0 * log10(Linear(pow10, b)) == b.value
    ensures Linear(pow10, b) == 0.0 <==> b.NaN? || b.value < -180.0
  {
    if b.Db? {
      var y := b.value / 10.0;
      assert pow10(y) > 0.0 && log10(pow10(y)) == y;
    }
  }

  /** Where bucket i starts: int(i * (n / outLen)). */
  function Start(i: nat, n: nat, outLen: nat): nat
    requires outLen > 0
  {
    i * n / outLen
  }

  /** The total of p[lo..hi]. */
  function Sum(p: seq<real>, lo: nat, hi: nat): real
    requires lo <= hi <= |p|
    decreases hi
  {
    if lo == hi then 0.0 else Sum(p, lo, hi - 1) + p[hi - 1]
  }

  // ----- Bucket arithmetic -----

  lemma DivGap(a: nat, b: nat, d: nat)
    requires d > 0 && a >= b + d
    ensures a / d >= b / d + 1
  {
    var x, y := a / d, b / d;
    assert a == x * d + a % d && b == y * d + b % d;
    MulOrder(x, y, d);
  }

  lemma MulOrder(x: nat, y: nat, d: nat)
    ensures x <= y ==> x * d <= y * d
  {
  }

  lemma WholeQuotient(n: nat, d: nat)
    requires d > 0
    ensures d * n / d == n
  {
    var q := d * n / d;
    assert d * n == q * d + d * n % d;
    MulOrder(q + 1, n, d);
    MulOrder(n + 1, q, d);
  }

  /** Bucket i is nonempty, ends where the next one starts, and lies in the row. */
  predicate SoundBucket(i: nat, n: nat, outLen: nat)
    requires outLen > 0
  {
    Start(i, n, outLen) < Start(i + 1, n, outLen) <= n
  }

  lemma BucketSound(i: nat, n: nat, outLen: nat)
    requires i < outLen < n
    ensures SoundBucket(i, n, outLen)
  {
    assert (i + 1) * n == i * n + n;
    DivGap((i + 1) * n, i * n, outLen);
    StartsInOrder(n, outLen, i + 1, outLen);
    WholeQuotient(n, outLen);
  }

  /** When there are more bins than buckets the buckets are nonempty, follow each
      other without gap or overlap, and reach from the first bin to the last: the
      two guards in the loop never act. */
  lemma BucketsPartition(n: nat, outLen: nat)
    requires 0 < outLen < n
    ensures Start(0, n, outLen) == 0 && Start(outLen, n, outLen) == n
    ensures forall i :: 0 <= i < outLen ==> SoundBucket(i, n, outLen)
  {
    WholeQuotient(n, outLen);
    forall i | 0 <= i < outLen ensures SoundBucket(i, n, outLen) {
      BucketSound(i, n, outLen);
    }
  }

  lemma {:induction false} StartsInOrder(n: nat, outLen: nat, i: nat, j: nat)
    requires 0 < outLen <= n && i <= j
    ensures Start(i, n, outLen) + (j - i) <= Start(j, n, outLen)
    decreases j
  {
    if i < j {
      StartsInOrder(n, outLen, i, j - 1);
      assert j * n == (j - 1) * n + n;
      DivGap(j * n, (j - 1) * n, outLen);
    }
  }

  /** Bucket starts are spread evenly: each is the whole part of its share of the row. */
  lemma StartsEvenly(i: nat, n: nat, outLen: nat)
    requires outLen > 0
    ensures Start(i, n, outLen) * outLen <= i * n < Start(i, n, outLen) * outLen + outLen
  {
    var q := i * n / outLen;
    assert i * n == q * outLen + i * n % outLen;
  }

  /** So no two buckets differ in size by more than one bin. */
  lemma SizesEven(i: nat, n: nat, outLen: nat)
    requires outLen > 0
    ensures n / outLen <= Start(i + 1, n, outLen) - Start(i, n, outLen) <= n / outLen + 1
  {
    StartsEvenly(i, n, outLen);
    StartsEvenly(i + 1, n, outLen);
    assert (i + 1) * n == i * n + n;
    StartsEvenly(1, n, outLen);
    Differ(Start(i, n, outLen), Start(i + 1, n, outLen), n / outLen, i * n, n, outLen);
  }

  lemma Differ(a: nat, b: nat, q: nat, m: nat, n: nat, d: nat)
    requires a * d <= m < a * d + d && b * d <= m + n < b * d + d && q * d <= n < q * d + d
    ensures q <= b - a <= q + 1
  {
    SumProduct(a, q, d);
    SumProduct(a + q, 2, d);
    SumProduct(b, 1, d);
    ProductOrder(a + q, b + 1, d);
    ProductOrder(b, a + q + 2, d);
  }

  lemma SumProduct(x: nat, y: nat, d: nat)
    ensures (x + y) * d == x * d + y * d
  {
  }

  lemma ProductOrder(x: nat, y: nat, d: nat)
    requires x * d < y * d
    ensures x < y
  {
    MulOrder(y, x, d);
  }

  predicate InBucket(j: nat, i: nat, n: nat, outLen: nat)
    requires outLen > 0
  {
    Start(i, n, outLen) <= j < Start(i + 1, n, outLen)
  }

  /** The buckets that hold bin j. */
  function Holding(j: nat, n: nat, outLen: nat): set<nat>
    requires outLen > 0
  {
    set i: nat | i < outLen && InBucket(j, i, n, outLen)
  }

  lemma {:induction false} SomeBucket(n: nat, outLen: nat, j: nat, k: nat) returns (i: nat)
    requires 0 < outLen && k <= outLen && j < Start(k, n, outLen)
    ensures i < k && InBucket(j, i, n, outLen)
  {
    i := k - 1;
    if j < Start(i, n, outLen) {
      i := SomeBucket(n, outLen, j, i);
    }
  }

  /** Every bin lies in exactly one bucket. */
  lemma OneBucketEach(n: nat, outLen: nat, j: nat)
    requires 0 < outLen < n && j < n
    ensures Holding(j, n, outLen) != {}
    ensures forall i, k :: i in Holding(j, n, outLen) && k in Holding(j, n, outLen) ==> i == k
  {
    WholeQuotient(n, outLen);
    var some := SomeBucket(n, outLen, j, outLen);
    assert some in Holding(j, n, outLen);
    forall i, k | i in Holding(j, n, outLen) && k in Holding(j, n, outLen) ensures i == k
    {
      if k < i {
        StartsInOrder(n, outLen, k + 1, i);
      } else if i < k {
        StartsInOrder(n, outLen, i + 1, k);
      }
    }
  }

  // ----- The exporter -----

  /** The average of p[lo..hi]. */
  function Mean(p: seq<real>, lo: nat, hi: nat): real
    requires lo < hi <= |p|
  {
    Sum(p, lo, hi) / (hi - lo) as real
  }

  /** The average power of bucket i. */
  function Average(p: seq<real>, outLen: nat, i: nat): real
    requires i < outLen < |p|
  {
    BucketSound(i, |p|, outLen);
    Mean(p, Start(i, |p|, outLen), Start(i + 1, |p|, outLen))
  }

  /** The inner loop: sum and count of one bucket, then their quotient. */
  method BucketMean(bins: seq<Bin>, start: nat, end: nat, pow10: real -> real) returns (mean: real)
    requires start < end <= |bins|
    ensures mean == Mean(Powers(pow10, bins), start, end)
  {
    var sum, count := 0.0, 0;
    for j := start to end
      invariant sum == Sum(Powers(pow10, bins), start, j) && count == j - start
    {
      sum := sum + Linear(pow10, bins[j]);
      count := count + 1;
    }
    mean := if count == 0 then 0.0 else sum / count as real;
  }

  method DownsampleLinear(bins: seq<Bin>, target: nat, pow10: real -> real) returns (out: array<real>)
    requires target > 0
    ensures fresh(out)
    ensures |bins| <= target ==> out[..] == Powers(pow10, bins)
    ensures |bins| > target ==> out.Length == target
    ensures |bins| > target ==> forall i :: 0 <= i < target ==> out[i] == Average(Powers(pow10, bins), target, i)
  {
    var n := |bins|;
    var outLen := if target < n then target else n;
    out := new real[outLen];
    ghost var p := Powers(pow10, bins);
    if n <= outLen {
      for i := 0 to n
        invariant forall k :: 0 <= k < i ==> out[k] == p[k]
      {
        out[i] := Linear(pow10, bins[i]);
      }
      assert out[..] == p;
      return;
    }
    for i := 0 to outLen
      invariant forall k :: 0 <= k < i ==> out[k] == Average(p, outLen, k)
    {
      BucketSound(i, n, outLen);
      var start := Start(i, n, outLen);
      var end := Start(i + 1, n, outLen);
      if end <= start {
        end := start + 1;
      }
      if end > n {
        end := n;
      }
      out[i] := BucketMean(bins, start, end, pow10);
    }
  }

  // ----- What averaging keeps -----

  lemma {:induction false} SumSplits(p: seq<real>, lo: nat, mid: nat, hi: nat)
    requires lo <= mid <= hi <= |p|
    ensures Sum(p, lo, hi) == Sum(p, lo, mid) + Sum(p, mid, hi)
    decreases hi
  {
    if mid < hi {
      SumSplits(p, lo, mid, hi - 1);
    }
  }

  /** Output i times the size of its bucket. */
  function Contribution(p: seq<real>, outLen: nat, i: nat): real
    requires i < outLen < |p|
  {
    Average(p, outLen, i) * (Start(i + 1, |p|, outLen) - Start(i, |p|, outLen)) as real
  }

  /** The outputs weighted by their bucket sizes, over the first k buckets. */
  function Weighted(p: seq<real>, outLen: nat, k: nat): real
    requires 0 < outLen < |p| && k <= outLen
  {
    if k == 0 then 0.0 else Weighted(p, outLen, k - 1) + Contribution(p, outLen, k - 1)
  }

  /** The power of the first k buckets. */
  function PowerBefore(p: seq<real>, outLen: nat, k: nat): real
    requires 0 < outLen < |p| && k <= outLen
  {
    BucketsPartition(|p|, outLen);
    StartsInOrder(|p|, outLen, k, outLen);
    Sum(p, 0, Start(k, |p|, outLen))
  }

  lemma ContributionAdds(p: seq<real>, outLen: nat, i: nat)
    requires i < outLen < |p|
    ensures PowerBefore(p, outLen, i) + Contribution(p, outLen, i) == PowerBefore(p, outLen, i + 1)
  {
    BucketSound(i, |p|, outLen);
    MeanTimesSize(p, Start(i, |p|, outLen), Start(i + 1, |p|, outLen));
  }

  lemma {:induction false} WeightedIsSum(p: seq<real>, outLen: nat, k: nat)
    requires 0 < outLen < |p| && k <= outLen
    ensures Weighted(p, outLen, k) == PowerBefore(p, outLen, k)
  {
    if k == 0 {
      BucketsPartition(|p|, outLen);
    } else {
      WeightedIsSum(p, outLen, k - 1);
      ContributionAdds(p, outLen, k - 1);
    }
  }

  lemma MeanTimesSize(p: seq<real>, lo: nat, hi: nat)
    requires lo < hi <= |p|
    ensures Sum(p, 0, lo) + Mean(p, lo, hi) * (hi - lo) as real == Sum(p, 0, hi)
  {
    SumSplits(p, 0, lo, hi);
    Undivide(Sum(p, lo, hi), (hi - lo) as real);
  }

  lemma Undivide(total: real, size: real)
    requires size > 0.0
    ensures total / size * size == total
  {
  }

  /** No power is made or lost. */
  lemma PowerConserved(p: seq<real>, outLen: nat)
    requires 0 < outLen < |p|
    ensures Weighted(p, outLen, outLen) == Sum(p, 0, |p|)
  {
    BucketsPartition(|p|, outLen);
    WeightedIsSum(p, outLen, outLen);
  }

  lemma {:induction false} SumBounds(p: seq<real>, lo: nat, hi: nat, low: real, high: real)
    requires lo <= hi <= |p| && forall j :: lo <= j < hi ==> low <= p[j] <= high
    ensures (hi - lo) as real * low <= Sum(p, lo, hi) <= (hi - lo) as real * high
    decreases hi
  {
    if lo < hi {
      SumBounds(p, lo, hi - 1, low, high);
      var m := (hi - 1 - lo) as real;
      assert (hi - lo) as real == m + 1.0;
      assert (m + 1.0) * low == m * low + low && (m + 1.0) * high == m * high + high;
    }
  }

  /** Each output lies between the extremes of its bucket. */
  lemma AverageBetweenExtremes(p: seq<real>, outLen: nat, i: nat, low: real, high: real)
    requires i < outLen < |p|
    requires forall j :: 0 <= j < |p| && InBucket(j, i, |p|, outLen) ==> low <= p[j] <= high
    ensures low <= Average(p, outLen, i) <= high
  {
    BucketSound(i, |p|, outLen);
    forall j | Start(i, |p|, outLen) <= j < Start(i + 1, |p|, outLen) ensures low <= p[j] <= high {
      assert InBucket(j, i, |p|, outLen);
    }
    MeanBetween(p, Start(i, |p|, outLen), Start(i + 1, |p|, outLen), low, high);
  }

  lemma MeanBetween(p: seq<real>, lo: nat, hi: nat, low: real, high: real)
    requires lo < hi <= |p| && forall j :: lo <= j < hi ==> low <= p[j] <= high
    ensures low <= Mean(p, lo, hi) <= high
  {
    SumBounds(p, lo, hi, low, high);
    DivideBetween(Sum(p, lo, hi), (hi - lo) as real, low, high);
  }

  lemma DivideBetween(total: real, size: real, low: real, high: real)
    requires size > 0.0 && size * low <= total <= size * high
    ensures low <= total / size <= high
  {
    var q := total / size;
    assert q * size == total;
    GapProduct(low - q, size);
    GapProduct(q - high, size);
    assert (low - q) * size == size * low - total;
    assert (q - high) * size == total - size * high;
  }

  lemma GapProduct(gap: real, size: real)
    requires size > 0.0
    ensures gap > 0.0 ==> gap * size > 0.0
  {
  }

  // ----- The receiver -----

  const LIMIT: nat := 512

  /** The indices the receiver keeps of a row with this many bins. */
  function Picked(len: nat): (indices: seq<nat>)
    ensures |indices| == if len > LIMIT then LIMIT else len
    ensures forall i :: 0 <= i < |indices| ==> indices[i] == if len > LIMIT then Start(i, len, LIMIT) else i
  {
    if len > LIMIT then seq(LIMIT, i requires 0 <= i < LIMIT => Start(i, len, LIMIT))
    else seq(len, i requires 0 <= i < len => i)
  }

  /** Rows of at most 512 bins are left alone; of longer ones 512 different bins
      are kept, in order, starting with the first. */
  lemma PickedIndices(len: nat)
    ensures var indices := Picked(len);
            && (forall i, j :: 0 <= i < j < |indices| ==> indices[i] < indices[j])
            && (forall i :: 0 <= i < |indices| ==> indices[i] < len)
            && (len <= LIMIT ==> forall i :: 0 <= i < len ==> indices[i] == i)
            && (len > 0 ==> indices[0] == 0)
            && (len > LIMIT ==> forall i {:trigger indices[i]} :: 0 <= i < LIMIT ==>
                  indices[i] * LIMIT <= i * len < indices[i] * LIMIT + LIMIT)
  {
    var indices := Picked(len);
    if len > LIMIT {
      BucketsPartition(len, LIMIT);
      forall i, j | 0 <= i < j < LIMIT ensures indices[i] < indices[j] {
        StartsInOrder(len, LIMIT, i, j);
      }
      forall i | 0 <= i < LIMIT
        ensures indices[i] < len && indices[i] * LIMIT <= i * len < indices[i] * LIMIT + LIMIT
      {
        BucketSound(i, len, LIMIT);
        StartsEvenly(i, len, LIMIT);
      }
    }
  }
}
