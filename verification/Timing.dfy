/** Latency statistics of the storage sentinel: the histogram the observer keeps, the
    differences and window sums built from it, and the check that tells consistent
    statistics from forged ones. */
module Timing {
  import opened Base
  import opened Numbers
  import opened Arith

  const BUCKETS: nat := 22

  /** The upper limits of all buckets but the last, which has none. */
  const UPPERS: seq<nat> := [1, 2, 4, 8, 16, 32, 64, 128, 256, 512, 1024, 2048, 4096, 8192, 16384, 32768, 65536,
                             262144, 1048576, 4194304, 16777216]

  /** The lower limits: one above the upper limit of the bucket before. */
  const LOWERS: seq<nat> := [0, 2, 3, 5, 9, 17, 33, 65, 129, 257, 513, 1025, 2049, 4097, 8193, 16385, 32769,
                             65537, 262145, 1048577, 4194305, 16777217]

  lemma BucketLimits()
    ensures |UPPERS| == 21 && |LOWERS| == 22 && BUCKETS == 22 && LOWERS[0] == 0
    ensures forall b :: 0 <= b < 21 ==> LOWERS[b + 1] == UPPERS[b] + 1
    ensures forall b :: 0 <= b < 21 ==> UPPERS[b] < 0x100_0000 + 1
  {
  }

  /** The buckets up to 65536 double, the others grow by the factor 4. */
  lemma BucketSizes()
    ensures |UPPERS| == 21 && UPPERS[0] == 1 && UPPERS[16] == 65536 && UPPERS[20] == 0x100_0000
    ensures forall b :: 0 <= b < 16 ==> UPPERS[b + 1] == 2 * UPPERS[b]
    ensures forall b :: 16 <= b < 20 ==> UPPERS[b + 1] == 4 * UPPERS[b]
  {
  }

  ghost predicate InBucket(x: nat, b: nat) {
    b < 22 && LOWERS[b] <= x && (b < 21 ==> x <= UPPERS[b])
  }

  /** The first bucket from b on whose limit is not below x. */
  function BucketFrom(x: nat, b: nat): (k: nat)
    requires b <= 21
    ensures b <= k <= 21 && (k < 21 ==> x <= UPPERS[k]) && forall i :: b <= i < k ==> x > UPPERS[i]
    decreases 21 - b
  {
    if b == 21 || x <= UPPERS[b] then b else BucketFrom(x, b + 1)
  }

  lemma BucketFits(x: nat)
    ensures InBucket(x, BucketFrom(x, 0))
  {
    BucketLimits();
    var k := BucketFrom(x, 0);
    if k > 0 { assert x > UPPERS[k - 1]; }
  }

  /** mtfs_sentinel_histogram_bucket. */
  method HistogramBucket(elapsed: u64) returns (bucket: nat)
    ensures bucket == BucketFrom(elapsed, 0) && InBucket(elapsed, bucket)
  {
    bucket := 0;
    while bucket < BUCKETS - 1
      invariant bucket <= 21 && BucketFrom(elapsed, bucket) == BucketFrom(elapsed, 0)
    {
      if elapsed <= UPPERS[bucket] { break; }
      bucket := bucket + 1;
    }
    BucketFits(elapsed);
  }

  // ---- sums ----

  function Sum(h: seq<nat>): nat {
    if h == [] then 0 else Sum(h[..|h| - 1]) + h[|h| - 1]
  }

  function Dot(w: seq<nat>, h: seq<nat>): nat
    requires |w| == |h|
  {
    if h == [] then 0 else Dot(w[..|w| - 1], h[..|h| - 1]) + w[|w| - 1] * h[|h| - 1]
  }

  lemma {:induction false} SumUpdate(h: seq<nat>, b: nat, v: nat)
    requires b < |h|
    ensures Sum(h[b := v]) + h[b] == Sum(h) + v
  {
    var m := |h| - 1;
    if b == m {
      assert h[b := v][..m] == h[..m];
    } else {
      assert h[b := v][..m] == h[..m][b := v];
      SumUpdate(h[..m], b, v);
    }
  }

  lemma {:induction false} DotUpdate(w: seq<nat>, h: seq<nat>, b: nat, v: nat)
    requires |w| == |h| && b < |h|
    ensures Dot(w, h[b := v]) + w[b] * h[b] == Dot(w, h) + w[b] * v
  {
    var m := |h| - 1;
    if b == m {
      assert h[b := v][..m] == h[..m];
    } else {
      assert h[b := v][..m] == h[..m][b := v];
      DotUpdate(w[..m], h[..m], b, v);
    }
  }

  lemma {:induction false} SumZero(h: seq<nat>)
    requires forall i :: 0 <= i < |h| ==> h[i] == 0
    ensures Sum(h) == 0
  {
    if h != [] { SumZero(h[..|h| - 1]); }
  }

  lemma {:induction false} DotZero(w: seq<nat>, h: seq<nat>)
    requires |w| == |h| && forall i :: 0 <= i < |h| ==> h[i] == 0
    ensures Dot(w, h) == 0
  {
    if h != [] { DotZero(w[..|h| - 1], h[..|h| - 1]); }
  }

  /** A prefix sums to no more than the whole. */
  lemma {:induction false} PrefixSum(h: seq<nat>, k: nat)
    requires k <= |h|
    ensures Sum(h[..k]) <= Sum(h)
  {
    if k == |h| {
      assert h[..k] == h;
    } else {
      PrefixSum(h[..|h| - 1], k);
      assert h[..|h| - 1][..k] == h[..k];
    }
  }

  lemma {:induction false} PrefixDot(w: seq<nat>, h: seq<nat>, k: nat)
    requires |w| == |h| && k <= |h|
    ensures Dot(w[..k], h[..k]) <= Dot(w, h)
  {
    if k == |h| {
      assert h[..k] == h && w[..k] == w;
    } else {
      PrefixDot(w[..|h| - 1], h[..|h| - 1], k);
      assert h[..|h| - 1][..k] == h[..k] && w[..|h| - 1][..k] == w[..k];
    }
  }

  // ---- consistent statistics ----

  /** The timing fields of one operation in a feature record. */
  datatype OpFeature = OpFeature(samples: nat, invalid: nat, total: nat, average: nat, hist: seq<nat>) {
    predicate Fits64() {
      && samples <= U64MAX && invalid <= U64MAX && total <= U64MAX && average <= U64MAX
      && |hist| == 22 && forall b :: 0 <= b < 22 ==> hist[b] <= U64MAX
    }
  }

  function Mean(total: nat, samples: nat): nat {
    if samples == 0 then 0 else total / samples
  }

  lemma MeanIs(total: nat, samples: nat)
    ensures samples == 0 ==> Mean(total, samples) == 0
    ensures samples > 0 ==> Mean(total, samples) * samples <= total < Mean(total, samples) * samples + samples
  {
    if samples > 0 {
      assert total == samples * (total / samples) + total % samples;
      assert samples * (total / samples) == Mean(total, samples) * samples;
    }
  }

  /** The statistics could come from real latencies: the samples are those of the
      histogram, the total lies within the limits of their buckets, and the average is
      the floor of the mean. All sums are over unbounded integers. */
  predicate Consistent(o: OpFeature) {
    && |o.hist| == 22
    && Sum(o.hist) == o.samples
    && Dot(LOWERS, o.hist) <= o.total
    && (o.hist[21] > 0 || o.total <= Dot(UPPERS, o.hist[..21]))
    && o.average == Mean(o.total, o.samples)
  }

  /** add_product. */
  method AddProduct(sum: u64, value: u64, count: u64) returns (ok: bool, r: u64)
    ensures ok <==> sum + value * count <= U64MAX
    ensures ok ==> r == sum + value * count
    ensures !ok ==> r == sum
  {
    r := sum;
    var product;
    ok, product := Multiply64(value, count);
    if ok && product > U64MAX - sum { ok := false; }
    if ok { r := sum + product; }
  }

  /** The three sums after k turns of the check. */
  function SumTo(h: seq<nat>, k: nat): nat
    requires k <= |h|
  {
    Sum(h[..k])
  }

  function LowTo(h: seq<nat>, k: nat): nat
    requires k <= |h| == 22
  {
    Dot(LOWERS[..k], h[..k])
  }

  function HighTo(h: seq<nat>, k: nat): nat
    requires k <= 21 < |h|
  {
    Dot(UPPERS[..k], h[..k])
  }

  lemma DotStep(w: seq<nat>, h: seq<nat>, k: nat)
    requires k < |h| && k < |w|
    ensures Dot(w[..k + 1], h[..k + 1]) == Dot(w[..k], h[..k]) + w[k] * h[k]
    ensures Sum(h[..k + 1]) == Sum(h[..k]) + h[k]
  {
    assert h[..k + 1][..k] == h[..k] && w[..k + 1][..k] == w[..k];
  }

  lemma CheckTurn(h: seq<nat>, k: nat)
    requires k < |h| == 22
    ensures |UPPERS| == 21 && BUCKETS == 22
    ensures SumTo(h, k + 1) == SumTo(h, k) + h[k]
    ensures var lower := if k == 0 then 0 else UPPERS[k - 1] + 1;
            lower <= U64MAX && LowTo(h, k + 1) == LowTo(h, k) + lower * h[k]
    ensures k < 21 ==> UPPERS[k] <= U64MAX && HighTo(h, k + 1) == HighTo(h, k) + UPPERS[k] * h[k]
  {
    BucketLimits();
    hide Dot, Sum;
    DotStep(LOWERS, h, k);
    if k > 0 { assert LOWERS[k - 1 + 1] == UPPERS[k - 1] + 1; }
    if k < 21 { DotStep(UPPERS, h, k); }
  }

  lemma CheckStart(h: seq<nat>)
    requires |h| == 22
    ensures BUCKETS == 22 && U64MAX == 0xFFFF_FFFF_FFFF_FFFF && |UPPERS| == 21
    ensures SumTo(h, 0) == 0 && LowTo(h, 0) == 0 && HighTo(h, 0) == 0
  {
  }

  lemma CheckEnd(o: OpFeature)
    requires |o.hist| == 22
    ensures Consistent(o) <==>
              && SumTo(o.hist, 22) == o.samples && LowTo(o.hist, 22) <= o.total
              && (o.hist[21] > 0 || o.total <= HighTo(o.hist, 21))
              && o.average == Mean(o.total, o.samples)
    ensures Mean(o.total, o.samples) == if o.samples == 0 then 0 else o.total / o.samples
  {
    assert o.hist[..22] == o.hist && LOWERS[..22] == LOWERS && UPPERS[..21] == UPPERS;
  }

  /** Sums that outgrow 64 bits on the way show the statistics inconsistent. */
  lemma TooMuch(o: OpFeature, k: nat)
    requires o.Fits64() && k <= |o.hist| == 22
    ensures SumTo(o.hist, k) > U64MAX ==> !Consistent(o)
    ensures LowTo(o.hist, k) > U64MAX ==> !Consistent(o)
  {
    hide Dot, Sum, LOWERS, UPPERS;
    PrefixSum(o.hist, k);
    AllLimits();
    PrefixDot(LOWERS, o.hist, k);
  }

  lemma AllLimits()
    ensures |LOWERS| == 22 && |UPPERS| == 21
  {
  }

  /** An upper bound beyond 64 bits is no bound. */
  lemma NoBound(o: OpFeature, k: nat)
    requires o.Fits64() && k <= 21 < |o.hist|
    ensures HighTo(o.hist, k) > U64MAX ==> o.total <= HighTo(o.hist, 21)
  {
    hide Dot, Sum, LOWERS, UPPERS;
    AllLimits();
    PrefixDot(UPPERS, o.hist[..21], k);
    assert o.hist[..21][..k] == o.hist[..k] && UPPERS[..21] == UPPERS;
  }

  lemma FitsParts(o: OpFeature)
    requires o.Fits64()
    ensures o.samples <= U64MAX && o.invalid <= U64MAX && o.total <= U64MAX && o.average <= U64MAX
    ensures |o.hist| == 22 && forall b :: 0 <= b < 22 ==> o.hist[b] <= U64MAX
  {
  }

  /** mtfs_sentinel_operation_timing_is_consistent decides Consistent without ever leaving
      64 bits. */
  method IsConsistent(o: OpFeature) returns (ok: bool)
    requires o.Fits64()
    ensures ok <==> Consistent(o)
  {
    hide *;
    FitsParts(o);
    CheckStart(o.hist);
    CheckEnd(o);
    var samples: u64, minimum: u64, maximum: u64, unbounded := 0, 0, 0, false;
    var bucket := 0;
    while bucket < BUCKETS
      invariant 0 <= bucket <= 22
      invariant samples == SumTo(o.hist, bucket) && minimum == LowTo(o.hist, bucket)
      invariant unbounded ==> (bucket == 22 && o.hist[21] > 0) || o.total <= HighTo(o.hist, 21)
      invariant !unbounded ==> maximum == HighTo(o.hist, if bucket == 22 then 21 else bucket)
      invariant !unbounded && bucket == 22 ==> o.hist[21] == 0
    {
      CheckTurn(o.hist, bucket);
      TooMuch(o, bucket + 1);
      var count: u64 := o.hist[bucket];
      var lower: u64 := if bucket == 0 then 0 else UPPERS[bucket - 1] + 1;
      if count > U64MAX - samples { return false; }
      var fits;
      fits, minimum := AddProduct(minimum, lower, count);
      if !fits { return false; }
      samples := samples + count;
      if bucket == BUCKETS - 1 {
        if count != 0 { unbounded := true; }
      } else {
        NoBound(o, bucket + 1);
        var upper: u64 := UPPERS[bucket];
        fits, maximum := AddProduct(maximum, upper, count);
        if !fits { unbounded := true; }
      }
      bucket := bucket + 1;
    }
    var mean: u64 := 0;
    if o.samples != 0 { mean := Divide64(o.total, o.samples); }
    return samples == o.samples && o.total >= minimum && (unbounded || o.total <= maximum) && o.average == mean;
  }

  /** encoder_timing_consistent: the mean test without a division accepts exactly the
      floor mean. */
  method EncoderAccepts(o: OpFeature) returns (ok: bool)
    requires o.Fits64()
    ensures ok <==> o.samples > 0 && Sum(o.hist) == o.samples && o.average == Mean(o.total, o.samples)
  {
    if o.samples == 0 { return false; }
    var total: u64 := 0;
    var bucket := 0;
    while bucket < BUCKETS
      invariant bucket <= 22 && total == Sum(o.hist[..bucket])
    {
      assert o.hist[..bucket + 1][..bucket] == o.hist[..bucket];
      PrefixSum(o.hist, bucket + 1);
      if o.hist[bucket] > U64MAX - total { return false; }
      total := total + o.hist[bucket];
      bucket := bucket + 1;
    }
    assert o.hist[..22] == o.hist;
    FloorMean(o.total, o.samples, o.average);
    if total != o.samples { return false; }
    var product := MultiplyU64(o.average, o.samples);
    if product.None? || product.value > o.total { return false; }
    return o.total - product.value < o.samples;
  }

  lemma FloorMean(total: nat, samples: nat, average: nat)
    requires samples > 0
    ensures average == total / samples <==> average * samples <= total && total - average * samples < samples
  {
    if average * samples <= total && total - average * samples < samples {
      QuotientIs(total, samples, average, total - average * samples);
    }
    if average == total / samples {
      assert total == samples * (total / samples) + total % samples;
    }
  }

  // ---- recorded calls ----

  /** The histogram of a list of latencies. */
  function Tally(xs: seq<nat>): (h: seq<nat>)
    ensures |h| == 22
  {
    if xs == [] then seq(22, _ => 0)
    else
      var h, b := Tally(xs[..|xs| - 1]), BucketFrom(xs[|xs| - 1], 0);
      h[b := h[b] + 1]
  }

  /** Real latencies give consistent statistics. */
  lemma {:induction false} TallyConsistent(xs: seq<nat>)
    ensures Sum(Tally(xs)) == |xs|
    ensures Dot(LOWERS, Tally(xs)) <= Sum(xs)
    ensures Tally(xs)[21] > 0 || Sum(xs) <= Dot(UPPERS, Tally(xs)[..21])
  {
    hide *;
    if xs == [] {
      TallyNone();
    } else {
      var m := |xs| - 1;
      TallyConsistent(xs[..m]);
      OneMore(xs[..m], xs[m]);
      assert xs[..m] + [xs[m]] == xs;
      TallyMore(Tally(xs[..m]), xs[m], Sum(xs[..m]));
    }
  }

  lemma TallyNone()
    ensures |LOWERS| == 22 && |UPPERS| == 21
    ensures Sum(Tally([])) == 0 && Dot(LOWERS, Tally([])) == 0 && Sum([]) == 0
  {
    var h := Tally([]);
    AllLimits();
    hide LOWERS, UPPERS;
    SumZero(h);
    DotZero(LOWERS, h);
  }

  lemma TallyMore(h: seq<nat>, x: nat, total: nat)
    requires |h| == 22
    ensures var b := BucketFrom(x, 0);
            var h' := h[b := h[b] + 1];
            && |LOWERS| == 22 && |UPPERS| == 21
            && Sum(h') == Sum(h) + 1
            && (Dot(LOWERS, h) <= total ==> Dot(LOWERS, h') <= total + x)
            && (h[21] > 0 || total <= Dot(UPPERS, h[..21]) ==> h'[21] > 0 || total + x <= Dot(UPPERS, h'[..21]))
  {
    hide *;
    BucketIs(x);
    RaiseCount(LOWERS, UPPERS, h, BucketFrom(x, 0), x, total);
  }

  lemma BucketIs(x: nat)
    ensures |LOWERS| == 22 && |UPPERS| == 21
    ensures var b := BucketFrom(x, 0); LOWERS[b] <= x && (b < 21 ==> x <= UPPERS[b])
  {
    BucketFits(x);
  }

  lemma RaiseCount(lo: seq<nat>, up: seq<nat>, h: seq<nat>, b: nat, x: nat, total: nat)
    requires |h| == |lo| == 22 && |up| == 21 && b < 22 && lo[b] <= x && (b < 21 ==> x <= up[b])
    ensures var h' := h[b := h[b] + 1];
            && Sum(h') == Sum(h) + 1
            && (Dot(lo, h) <= total ==> Dot(lo, h') <= total + x)
            && (h[21] > 0 || total <= Dot(up, h[..21]) ==> h'[21] > 0 || total + x <= Dot(up, h'[..21]))
  {
    hide *;
    var v := h[b] + 1;
    SumUpdate(h, b, v);
    DotUpdate(lo, h, b, v);
    assert lo[b] * v == lo[b] * h[b] + lo[b];
    if b < 21 {
      DotUpdate(up, h[..21], b, v);
      assert up[b] * v == up[b] * h[b] + up[b];
      assert h[b := v][..21] == h[..21][b := v];
    }
  }

  lemma {:induction false} TallyAppend(xs: seq<nat>, ys: seq<nat>)
    ensures forall b :: 0 <= b < 22 ==> Tally(xs + ys)[b] == Tally(xs)[b] + Tally(ys)[b]
    ensures Sum(xs + ys) == Sum(xs) + Sum(ys)
    decreases |ys|
  {
    if ys == [] {
      assert xs + ys == xs;
    } else {
      var m := |ys| - 1;
      TallyAppend(xs, ys[..m]);
      assert (xs + ys)[..|xs + ys| - 1] == xs + ys[..m];
    }
  }

  /** The sums of a histogram with room for the total: the limits of the buckets allow it. */
  ghost predicate Between(h: seq<nat>, total: nat) {
    && |h| == 22 && |LOWERS| == 22 && |UPPERS| == 21
    && Dot(LOWERS, h) <= total && (h[21] > 0 || total <= Dot(UPPERS, h[..21]))
  }

  /** One latency taken out of bucket b, such that the rest still has room. */
  lemma TakeOne(h: seq<nat>, total: nat, b: nat) returns (x: nat)
    requires Between(h, total) && b < 22 && h[b] > 0 && (h[21] > 0 ==> b == 21)
    ensures InBucket(x, b) && x <= total && Between(h[b := h[b] - 1], total - x) && Sum(h[b := h[b] - 1]) == Sum(h) - 1
  {
    BucketLimits();
    hide Dot, Sum, LOWERS, UPPERS;
    var v := h[b] - 1;
    var h' := h[b := v];
    SumUpdate(h, b, v);
    LessOne(LOWERS, h, b);
    var low := Dot(LOWERS, h);
    LimitsUp(b);
    if b == 21 {
      x := LOWERS[21] + (total - low);
      LowBelowHigh(h');
    } else {
      LessOne(UPPERS, h[..21], b);
      assert h'[..21] == h[..21][b := v];
      x := if total - low <= UPPERS[b] - LOWERS[b] then LOWERS[b] + (total - low) else UPPERS[b];
      if x < UPPERS[b] || total - low == UPPERS[b] - LOWERS[b] { LowBelowHigh(h'); }
    }
  }

  lemma LessOne(w: seq<nat>, h: seq<nat>, b: nat)
    requires |w| == |h| && b < |h| && h[b] > 0
    ensures Dot(w, h[b := h[b] - 1]) + w[b] == Dot(w, h)
  {
    hide Dot;
    var v := h[b] - 1;
    DotUpdate(w, h, b, v);
    assert w[b] * (v + 1) == w[b] * v + w[b];
  }

  lemma LimitsUp(b: nat)
    ensures |LOWERS| == 22 && |UPPERS| == 21 && (b < 21 ==> LOWERS[b] <= UPPERS[b])
  {
  }

  /** The least total is no more than the greatest. */
  lemma LowBelowHigh(h: seq<nat>)
    requires |h| == 22
    ensures |LOWERS| == 22 && |UPPERS| == 21 && (h[21] > 0 || Dot(LOWERS, h) <= Dot(UPPERS, h[..21]))
  {
    AllLimits();
    forall b | 0 <= b < 21
      ensures LOWERS[b] <= UPPERS[b]
    {
      LimitsUp(b);
    }
    hide LOWERS, UPPERS;
    DotOrder(LOWERS[..21], UPPERS, h[..21]);
    assert LOWERS[..21] + [LOWERS[21]] == LOWERS;
  }

  lemma {:induction false} DotOrder(a: seq<nat>, b: seq<nat>, h: seq<nat>)
    requires |a| == |b| == |h| && forall i :: 0 <= i < |h| ==> a[i] <= b[i]
    ensures Dot(a, h) <= Dot(b, h)
  {
    if h != [] {
      var m := |h| - 1;
      DotOrder(a[..m], b[..m], h[..m]);
      MulLe(a[m], b[m], h[m]);
    }
  }

  /** A bucket that holds a latency; the last one if it holds any. */
  lemma {:induction false} Occupied(h: seq<nat>) returns (b: nat)
    requires Sum(h) > 0
    ensures b < |h| && h[b] > 0 && forall c :: b < c < |h| ==> h[c] == 0
  {
    var m := |h| - 1;
    if h[m] > 0 { b := m; } else { b := Occupied(h[..m]); }
  }

  lemma BucketUnique(x: nat, b: nat)
    requires InBucket(x, b)
    ensures BucketFrom(x, 0) == b
  {
    BucketFits(x);
    var k := BucketFrom(x, 0);
    if k < b { BucketsRise(k, b); }
  }

  lemma {:induction false} BucketsRise(a: nat, b: nat)
    requires a < b < 22
    ensures |LOWERS| == 22 && |UPPERS| == 21 && UPPERS[a] < LOWERS[b]
    decreases b
  {
    BucketLimits();
    if a + 1 == b {
      assert LOWERS[a + 1] == UPPERS[a] + 1;
    } else {
      BucketsRise(a, b - 1);
      assert LOWERS[b - 1 + 1] == UPPERS[b - 1] + 1;
      LimitsUp(b - 1);
    }
  }

  /** Whatever passes the check is the record of some latencies: with TallyConsistent, the
      check accepts exactly the records that real calls can leave. */
  lemma {:induction false} Realizable(h: seq<nat>, total: nat) returns (xs: seq<nat>)
    requires Between(h, total)
    ensures Tally(xs) == h && Sum(xs) == total
    decreases Sum(h)
  {
    hide *;
    if Sum(h) == 0 {
      xs := [];
      NothingRecorded(h, total);
    } else {
      var b := Occupied(h);
      BetweenParts(h, total);
      var x := TakeOne(h, total, b);
      var h' := h[b := h[b] - 1];
      var ys := Realizable(h', total - x);
      OneMore(ys, x);
      BucketUnique(x, b);
      assert h'[b := h'[b] + 1] == h;
      xs := ys + [x];
    }
  }

  lemma BetweenParts(h: seq<nat>, total: nat)
    requires Between(h, total)
    ensures |h| == 22
  {
  }

  lemma {:induction false} AllZero(h: seq<nat>)
    requires Sum(h) == 0
    ensures forall i :: 0 <= i < |h| ==> h[i] == 0
  {
    if h != [] { AllZero(h[..|h| - 1]); }
  }

  lemma NothingRecorded(h: seq<nat>, total: nat)
    requires Between(h, total) && Sum(h) == 0
    ensures Tally([]) == h && Sum([]) == total
  {
    AllZero(h);
    AllLimits();
    hide LOWERS, UPPERS;
    DotZero(UPPERS, h[..21]);
  }

  /** A record passes the check exactly if some calls with these latencies leave it. */
  lemma ConsistentIffReal(o: OpFeature)
    ensures Consistent(o) <==> exists xs: seq<nat> ::
              && o.hist == Tally(xs) && o.samples == |xs| && o.total == Sum(xs)
              && o.average == if |xs| == 0 then 0 else Sum(xs) / |xs|
  {
    AllLimits();
    hide LOWERS, UPPERS, Dot, Sum, Tally;
    if Consistent(o) {
      var xs := Realizable(o.hist, o.total);
      TallyConsistent(xs);
      assert o.hist == Tally(xs);
    }
    forall xs: seq<nat> | o.hist == Tally(xs) && o.samples == |xs| && o.total == Sum(xs) && o.average == if |xs| == 0 then 0 else Sum(xs) / |xs|
      ensures Consistent(o)
    {
      TallyConsistent(xs);
    }
  }

  /** A copy of the counters. */
  datatype Snapshot = Snapshot(samples: u64, invalid: u64, total: u64, hist: seq<u64>)

  /** The counters of one operation in the observer. */
  class Counters {
    var samples: u64
    var invalid: u64
    var total: u64
    var histogram: array<u64>
    /** MTFS_SENTINEL_OBSERVER_FLAG_SATURATED. */
    var saturated: bool
    /** The latencies of the calls recorded, and how many had no valid clock. */
    ghost var calls: seq<nat>
    ghost var bad: nat

    ghost predicate Valid()
      reads this, histogram
    {
      && histogram.Length == 22
      && (!saturated ==> samples == |calls| && invalid == bad && total == Sum(calls) && histogram[..] == Tally(calls))
    }

    constructor ()
      ensures Valid() && !saturated && calls == [] && bad == 0 && fresh(histogram)
    {
      samples, invalid, total, saturated, calls, bad := 0, 0, 0, false, [], 0;
      var h := new u64[22](_ => 0);
      histogram := h;
      new;
      assert histogram[..] == Tally([]);
    }

    /** saturating_add. */
    method Add(a: u64, b: u64) returns (r: u64)
      modifies `saturated
      ensures a + b <= U64MAX ==> r == a + b && saturated == old(saturated)
      ensures a + b > U64MAX ==> r == U64MAX && saturated
    {
      if b > U64MAX - a {
        saturated := true;
        return U64MAX;
      }
      return a + b;
    }

    /** record_timing: a call with an invalid clock is only counted; nothing is recorded
        if the lock is not granted. */
    method Record(locked: bool, startValid: bool, start: u64, endValid: bool, end: u64)
      requires Valid()
      modifies this, histogram
      ensures Valid() && histogram == old(histogram)
      ensures calls == if locked && startValid && endValid && start <= end then old(calls) + [end - start] else old(calls)
      ensures bad == if locked && !(startValid && endValid && start <= end) then old(bad) + 1 else old(bad)
      ensures old(saturated) ==> saturated
      ensures saturated && !old(saturated) ==> |calls| > U64MAX || Sum(calls) > U64MAX || bad > U64MAX
    {
      if !locked { return; }
      if !startValid || !endValid || end < start {
        invalid := Add(invalid, 1);
        bad := bad + 1;
      } else {
        Count(end - start);
      }
    }

    method Count(elapsed: u64)
      requires Valid()
      modifies this, histogram
      ensures Valid() && histogram == old(histogram) && calls == old(calls) + [elapsed] && bad == old(bad)
      ensures old(saturated) ==> saturated
      ensures saturated && !old(saturated) ==> |calls| > U64MAX || Sum(calls) > U64MAX
    {
      hide Sum, Tally, BucketFrom, InBucket, UPPERS, LOWERS, BUCKETS;
      var bucket := HistogramBucket(elapsed);
      CountedFacts(calls, elapsed);
      ghost var h := histogram[..];
      samples := Add(samples, 1);
      total := Add(total, elapsed);
      var n := Add(histogram[bucket], 1);
      histogram[bucket] := n;
      calls := calls + [elapsed];
      assert histogram[..] == h[bucket := n];
    }

    method Get() returns (s: Snapshot)
      requires Valid()
      ensures s == Snapshot(samples, invalid, total, histogram[..])
      ensures !saturated ==> Tallied(s, calls, bad)
    {
      s := Snapshot(samples, invalid, total, histogram[..]);
    }
  }

  lemma CountedFacts(calls: seq<nat>, x: nat)
    ensures Sum(calls + [x]) == Sum(calls) + x
    ensures var b := BucketFrom(x, 0);
            Tally(calls + [x]) == Tally(calls)[b := Tally(calls)[b] + 1] && Tally(calls)[b] <= |calls|
  {
    hide *;
    OneMore(calls, x);
    TallyConsistent(calls);
    EachCount(Tally(calls), BucketFrom(x, 0));
  }

  lemma OneMore(calls: seq<nat>, x: nat)
    ensures Sum(calls + [x]) == Sum(calls) + x
    ensures var b := BucketFrom(x, 0); Tally(calls + [x]) == Tally(calls)[b := Tally(calls)[b] + 1]
  {
    hide BucketFrom;
    assert (calls + [x])[..|calls|] == calls;
  }

  lemma {:induction false} EachCount(h: seq<nat>, b: nat)
    requires b < |h|
    ensures h[b] <= Sum(h)
  {
    if b < |h| - 1 { EachCount(h[..|h| - 1], b); }
  }

  /** The snapshot shows exactly these calls. */
  ghost predicate Tallied(s: Snapshot, calls: seq<nat>, bad: nat) {
    s.samples == |calls| && s.invalid == bad && s.total == Sum(calls) && s.hist == Tally(calls)
  }

  // ---- differences ----

  predicate NotBehind(c: Snapshot, p: Snapshot) {
    && |c.hist| == |p.hist| == 22
    && c.samples >= p.samples && c.invalid >= p.invalid && c.total >= p.total
    && forall b :: 0 <= b < 22 ==> c.hist[b] >= p.hist[b]
  }

  function Difference(c: Snapshot, p: Snapshot): OpFeature
    requires NotBehind(c, p)
  {
    OpFeature(c.samples - p.samples, c.invalid - p.invalid, c.total - p.total,
              Mean(c.total - p.total, c.samples - p.samples),
              seq(22, b requires 0 <= b < 22 => c.hist[b] - p.hist[b]))
  }

  /** timing_delta: fails exactly if some counter went backwards. */
  method TimingDelta(c: Snapshot, p: Snapshot) returns (ok: bool, o: OpFeature)
    requires |c.hist| == |p.hist| == 22
    ensures ok <==> NotBehind(c, p)
    ensures ok ==> o == Difference(c, p)
  {
    o := OpFeature(0, 0, 0, 0, []);
    ok := false;
    if c.samples < p.samples || c.invalid < p.invalid || c.total < p.total { return; }
    var hist: seq<nat> := [];
    var i := 0;
    while i < BUCKETS
      invariant i == |hist| <= 22
      invariant forall b :: 0 <= b < i ==> c.hist[b] >= p.hist[b] && hist[b] == c.hist[b] - p.hist[b]
    {
      if c.hist[i] < p.hist[i] { return; }
      hist := hist + [c.hist[i] - p.hist[i]];
      i := i + 1;
    }
    var samples, total := c.samples - p.samples, c.total - p.total;
    var average: u64 := 0;
    if samples != 0 { average := Divide64(total, samples); }
    ok, o := true, OpFeature(samples, c.invalid - p.invalid, total, average, hist);
  }

  /** Between two snapshots of the same counters, any run of calls gives a difference
      that passes the check. */
  lemma DifferenceConsistent(p: Snapshot, c: Snapshot, xs: seq<nat>, ys: seq<nat>, m: nat, n: nat)
    requires Tallied(p, xs, m) && Tallied(c, xs + ys, m + n)
    ensures NotBehind(c, p) && Consistent(Difference(c, p))
    ensures Difference(c, p).samples == |ys| && Difference(c, p).total == Sum(ys) && Difference(c, p).hist == Tally(ys)
    ensures Difference(c, p).invalid == n
  {
    hide *;
    TalliedParts(p, xs, m);
    TalliedParts(c, xs + ys, m + n);
    TallyAppend(xs, ys);
    TallyConsistent(ys);
    AheadBy(c, p, Tally(ys));
    ConsistentOf(Difference(c, p));
  }

  lemma TalliedParts(s: Snapshot, calls: seq<nat>, bad: nat)
    requires Tallied(s, calls, bad)
    ensures s.samples == |calls| && s.invalid == bad && s.total == Sum(calls) && s.hist == Tally(calls) && |UPPERS| == 21 && |LOWERS| == 22
  {
  }

  lemma AheadBy(c: Snapshot, p: Snapshot, h: seq<nat>)
    requires |c.hist| == |p.hist| == |h| == 22 && c.samples >= p.samples && c.invalid >= p.invalid && c.total >= p.total
    requires forall b :: 0 <= b < 22 ==> c.hist[b] == p.hist[b] + h[b]
    ensures NotBehind(c, p)
    ensures var o := Difference(c, p);
            && o.samples == c.samples - p.samples && o.total == c.total - p.total && o.invalid == c.invalid - p.invalid && o.hist == h
            && o.average == Mean(o.total, o.samples)
  {
    assert Difference(c, p).hist == h;
  }

  lemma ConsistentOf(o: OpFeature)
    requires |o.hist| == 22 && |UPPERS| == 21 && |LOWERS| == 22 && Sum(o.hist) == o.samples && Dot(LOWERS, o.hist) <= o.total
    requires (o.hist[21] > 0 || o.total <= Dot(UPPERS, o.hist[..21])) && o.average == Mean(o.total, o.samples)
    ensures Consistent(o)
  {
  }

  // ---- windows ----

  function Plus(a: seq<nat>, b: seq<nat>): (r: seq<nat>)
    requires |a| == |b|
    ensures |r| == |a| && forall i :: 0 <= i < |r| ==> r[i] == a[i] + b[i]
  {
    seq(|a|, i requires 0 <= i < |a| => a[i] + b[i])
  }

  lemma {:induction false} SumPlus(a: seq<nat>, b: seq<nat>)
    requires |a| == |b|
    ensures Sum(Plus(a, b)) == Sum(a) + Sum(b)
  {
    if a != [] {
      var m := |a| - 1;
      SumPlus(a[..m], b[..m]);
      assert Plus(a, b)[..m] == Plus(a[..m], b[..m]);
    }
  }

  lemma {:induction false} DotPlus(w: seq<nat>, a: seq<nat>, b: seq<nat>)
    requires |w| == |a| == |b|
    ensures Dot(w, Plus(a, b)) == Dot(w, a) + Dot(w, b)
  {
    if a != [] {
      var m := |a| - 1;
      DotPlus(w[..m], a[..m], b[..m]);
      assert Plus(a, b)[..m] == Plus(a[..m], b[..m]);
      assert w[m] * (a[m] + b[m]) == w[m] * a[m] + w[m] * b[m];
    }
  }

  /** Consistent but for the average, which a window computes anew. */
  predicate Sound(o: OpFeature) {
    Consistent(o.(average := Mean(o.total, o.samples)))
  }

  function Added(a: OpFeature, b: OpFeature): OpFeature
    requires |a.hist| == |b.hist|
  {
    OpFeature(a.samples + b.samples, a.invalid + b.invalid, a.total + b.total, 0, Plus(a.hist, b.hist))
  }

  predicate Wide(fs: seq<OpFeature>) {
    forall i :: 0 <= i < |fs| ==> |fs[i].hist| == 22
  }

  /** The sum over a window. */
  function Summed(fs: seq<OpFeature>): (o: OpFeature)
    requires Wide(fs)
    ensures |o.hist| == 22
  {
    if fs == [] then OpFeature(0, 0, 0, 0, seq(22, _ => 0)) else Added(Summed(fs[..|fs| - 1]), fs[|fs| - 1])
  }

  /** The sum of a window is the sum of each field. */
  lemma {:induction false} SummedFields(fs: seq<OpFeature>)
    requires Wide(fs)
    ensures Summed(fs).samples == Sum(seq(|fs|, i requires 0 <= i < |fs| => fs[i].samples))
    ensures Summed(fs).invalid == Sum(seq(|fs|, i requires 0 <= i < |fs| => fs[i].invalid))
    ensures Summed(fs).total == Sum(seq(|fs|, i requires 0 <= i < |fs| => fs[i].total))
    ensures forall b :: 0 <= b < 22 ==> Summed(fs).hist[b] == Sum(seq(|fs|, i requires 0 <= i < |fs| => fs[i].hist[b]))
  {
    if fs != [] {
      var m := |fs| - 1;
      SummedFields(fs[..m]);
      assert seq(|fs|, i requires 0 <= i < |fs| => fs[i].samples)[..m] == seq(m, i requires 0 <= i < m => fs[..m][i].samples);
      assert seq(|fs|, i requires 0 <= i < |fs| => fs[i].invalid)[..m] == seq(m, i requires 0 <= i < m => fs[..m][i].invalid);
      assert seq(|fs|, i requires 0 <= i < |fs| => fs[i].total)[..m] == seq(m, i requires 0 <= i < m => fs[..m][i].total);
      forall b | 0 <= b < 22
        ensures Summed(fs).hist[b] == Sum(seq(|fs|, i requires 0 <= i < |fs| => fs[i].hist[b]))
      {
        assert seq(|fs|, i requires 0 <= i < |fs| => fs[i].hist[b])[..m] == seq(m, i requires 0 <= i < m => fs[..m][i].hist[b]);
      }
    }
  }

  lemma AddedSound(a: OpFeature, b: OpFeature)
    requires Sound(a) && Sound(b)
    ensures Sound(Added(a, b))
  {
    SumPlus(a.hist, b.hist);
    DotPlus(LOWERS, a.hist, b.hist);
    DotPlus(UPPERS, a.hist[..21], b.hist[..21]);
    assert Plus(a.hist, b.hist)[..21] == Plus(a.hist[..21], b.hist[..21]);
    if a.hist[21] == 0 && b.hist[21] == 0 {
      assert Plus(a.hist, b.hist)[21] == 0;
    } else {
      assert Plus(a.hist, b.hist)[21] > 0;
    }
  }

  /** Any window sum of consistent samples passes the check, with the average computed
      from the sums. */
  lemma {:induction false} SummedConsistent(fs: seq<OpFeature>)
    requires forall i :: 0 <= i < |fs| ==> Consistent(fs[i])
    ensures Wide(fs) && Consistent(Summed(fs).(average := Mean(Summed(fs).total, Summed(fs).samples)))
  {
    if fs == [] {
      var h := Summed(fs).hist;
      SumZero(h);
      DotZero(LOWERS, h);
    } else {
      var m := |fs| - 1;
      SummedConsistent(fs[..m]);
      AddedSound(Summed(fs[..m]), fs[m]);
    }
  }

  // ---- the window ----

  /** A feature record, as far as the window looks at it: whether it starts a new series,
      whose it is, and the timing fields of one operation. */
  datatype Feature = Feature(discontinuity: bool, target: u32, transport: u32, op: OpFeature)

  predicate SameSeries(a: Feature, b: Feature) {
    a.target == b.target && a.transport == b.transport
  }

  function OpsOf(fs: seq<Feature>): (os: seq<OpFeature>)
    ensures |os| == |fs| && forall i :: 0 <= i < |fs| ==> os[i] == fs[i].op
  {
    seq(|fs|, i requires 0 <= i < |fs| => fs[i].op)
  }

  predicate Fit64(fs: seq<OpFeature>) {
    forall i :: 0 <= i < |fs| ==> fs[i].Fits64()
  }

  /** What mtfs_sentinel_window_push leaves in a window of the given capacity. */
  function Pushed(w: seq<Feature>, f: Feature, capacity: nat): (r: seq<Feature>)
    requires 0 < capacity
  {
    var kept := if f.discontinuity || (w != [] && !SameSeries(w[|w| - 1], f)) then [] else w;
    (if |kept| == capacity then kept[1..] else kept) + [f]
  }

  /** A new series begins with g after f: the record says so, or target or transport differ. */
  predicate Breaks(f: Feature, g: Feature) {
    g.discontinuity || g.target != f.target || g.transport != f.transport
  }

  /** What a window holds after the records fs: the newest ones, unbroken, and all of them
      back to a break, to the first record or to the capacity. */
  ghost predicate Newest(w: seq<Feature>, fs: seq<Feature>, capacity: nat) {
    && |w| <= |fs| && |w| <= capacity && w == fs[|fs| - |w|..]
    && (forall i :: 0 <= i < |w| - 1 ==> !Breaks(w[i], w[i + 1]))
    && (|w| == capacity || |w| == |fs| || (w != [] && Breaks(fs[|fs| - |w| - 1], w[0])) || (w != [] && w[0].discontinuity))
    && (fs != [] ==> w != [])
  }

  lemma PushedNewest(w: seq<Feature>, fs: seq<Feature>, f: Feature, capacity: nat)
    requires 0 < capacity && Newest(w, fs, capacity)
    ensures Newest(Pushed(w, f, capacity), fs + [f], capacity)
  {
    if w != [] { assert w[|w| - 1] == fs[|fs| - 1]; }
    if w == [] || Breaks(w[|w| - 1], f) {
      hide Breaks;
      assert (fs + [f])[|fs|..] == [f];
      if |fs| > 0 { assert (fs + [f])[|fs| - 1] == w[|w| - 1]; }
    } else if |w| == capacity {
      hide Breaks;
      NewestMore(w[1..], fs, f);
    } else {
      hide Breaks;
      NewestMore(w, fs, f);
      if |w| < |fs| { assert (fs + [f])[|fs| - |w| - 1] == fs[|fs| - |w| - 1] && (w + [f])[0] == w[0]; }
    }
  }

  /** A suffix without a break, and one more record that does not break it. */
  lemma NewestMore(w: seq<Feature>, fs: seq<Feature>, f: Feature)
    requires |w| <= |fs| && w == fs[|fs| - |w|..] && (w != [] ==> !Breaks(w[|w| - 1], f))
    requires forall i :: 0 <= i < |w| - 1 ==> !Breaks(w[i], w[i + 1])
    ensures w + [f] == (fs + [f])[|fs| - |w|..]
    ensures forall i :: 0 <= i < |w| ==> !Breaks((w + [f])[i], (w + [f])[i + 1])
  {
    hide Breaks;
  }

  lemma NewestNone(capacity: nat)
    ensures Newest([], [], capacity)
  {
  }

  /** The window after a run of pushes into an empty one. */
  function Held(fs: seq<Feature>, capacity: nat): seq<Feature>
    requires 0 < capacity
  {
    if fs == [] then [] else Pushed(Held(fs[..|fs| - 1], capacity), fs[|fs| - 1], capacity)
  }

  /** It holds the newest records of one series, whatever was pushed before. */
  lemma {:induction false} HeldNewest(fs: seq<Feature>, capacity: nat)
    requires 0 < capacity
    ensures Newest(Held(fs, capacity), fs, capacity)
  {
    hide Newest, Pushed;
    if fs == [] {
      NewestNone(capacity);
    } else {
      var m := |fs| - 1;
      HeldNewest(fs[..m], capacity);
      PushedNewest(Held(fs[..m], capacity), fs[..m], fs[m], capacity);
      assert fs[..m] + [fs[m]] == fs;
    }
  }

  function Capped(n: nat): (r: u64) {
    if n > U64MAX then U64MAX else n
  }

  /** The sum as the window returns it: every field stops at UINT64_MAX, and the average
      comes from the totals. */
  function CappedSum(o: OpFeature): (r: OpFeature)
    requires |o.hist| == 22
    ensures |r.hist| == 22
  {
    OpFeature(Capped(o.samples), Capped(o.invalid), Capped(o.total), Mean(Capped(o.total), Capped(o.samples)),
              seq(22, b requires 0 <= b < 22 => Capped(o.hist[b])))
  }

  /** No field of the sum is capped. */
  predicate Uncapped(o: OpFeature) {
    && o.samples <= U64MAX && o.invalid <= U64MAX && o.total <= U64MAX
    && forall b :: 0 <= b < |o.hist| ==> o.hist[b] <= U64MAX
  }

  lemma ModOnce(x: nat, n: nat)
    requires 0 < n && x < 2 * n
    ensures x % n == if x < n then x else x - n
  {
    QuotientIs(x, n, if x < n then 0 else 1, if x < n then x else x - n);
  }

  class Window {
    const storage: array<Feature>
    var next: nat
    var count: nat

    ghost predicate Valid()
      reads this
    {
      next < storage.Length && count <= storage.Length
    }

    /** The slot of the i-th oldest record. */
    function Slot(i: nat): (k: nat)
      requires Valid() && i <= count
      reads this
      ensures k < storage.Length
    {
      var x := next + i + storage.Length - count;
      if x < storage.Length then x else x - storage.Length
    }

    /** The records held, oldest first. */
    ghost function Contents(): (s: seq<Feature>)
      requires Valid()
      reads this, storage
      ensures |s| == count && forall i :: 0 <= i < count ==> s[i] == storage[Slot(i)]
    {
      seq(count, i requires 0 <= i < count reads this, storage requires Valid() => storage[Slot(i)])
    }

    /** mtfs_sentinel_window_init. */
    constructor (storage: array<Feature>)
      requires storage.Length > 0
      ensures Valid() && this.storage == storage && Contents() == []
    {
      this.storage, next, count := storage, 0, 0;
    }

    /** mtfs_sentinel_window_push: a ring buffer that keeps the newest records of one
        series. */
    method Push(f: Feature)
      requires Valid()
      modifies this, storage
      ensures Valid() && Contents() == Pushed(old(Contents()), f, storage.Length)
    {
      ghost var w0 := Contents();
      if f.discontinuity {
        next, count := 0, 0;
      } else if count != 0 {
        ModOnce(next + storage.Length - 1, storage.Length);
        var newest := (next + storage.Length - 1) % storage.Length;
        assert newest == Slot(count - 1);
        if !SameSeries(storage[newest], f) { next, count := 0, 0; }
      }
      ghost var w1 := Contents();
      assert w1 == if f.discontinuity || (w0 != [] && !SameSeries(w0[|w0| - 1], f)) then [] else w0;
      Store(f);
    }

    method Store(f: Feature)
      requires Valid()
      modifies this, storage
      ensures Valid()
      ensures var w := old(Contents()); Contents() == (if |w| == storage.Length then w[1..] else w) + [f]
    {
      ghost var w, n0, c0 := Contents(), next, count;
      ModOnce(next + 1, storage.Length);
      storage[next] := f;
      next := (next + 1) % storage.Length;
      if count < storage.Length { count := count + 1; }
      ghost var d := if c0 == storage.Length then 1 else 0;
      forall i | 0 <= i < count
        ensures storage[Slot(i)] == ((if |w| == storage.Length then w[1..] else w) + [f])[i]
      {
        if i < count - 1 { assert w[i + d] == old(storage[Slot(i + d)]); }
      }
    }

    /** add64. */
    method Add(a: u64, b: u64) returns (r: u64)
      ensures r == Capped(a + b)
    {
      if b > U64MAX - a { return U64MAX; }
      return a + b;
    }

    method AddHistograms(a: seq<nat>, b: seq<nat>) returns (r: seq<nat>)
      requires |a| == |b| == 22 && forall i :: 0 <= i < 22 ==> a[i] <= U64MAX && b[i] <= U64MAX
      ensures |r| == 22 && forall i :: 0 <= i < 22 ==> r[i] == Capped(a[i] + b[i])
    {
      r := [];
      var bucket := 0;
      while bucket < BUCKETS
        invariant bucket == |r| <= 22 && forall i :: 0 <= i < bucket ==> r[i] == Capped(a[i] + b[i])
      {
        var x: u64, y: u64 := a[bucket], b[bucket];
        var s := Add(x, y);
        r := r + [s];
        bucket := bucket + 1;
      }
    }

    /** The timing part of mtfs_sentinel_window_get for one operation. */
    method Get() returns (ok: bool, o: OpFeature)
      requires Valid() && Fit64(OpsOf(Contents()))
      ensures ok <==> count != 0
      ensures ok ==> Wide(OpsOf(Contents())) && o == CappedSum(Summed(OpsOf(Contents())))
    {
      hide *;
      Bounds();
      ghost var os := OpsOf(Contents());
      FitsWide(os);
      CappedNone();
      ok, o := false, OpFeature(0, 0, 0, 0, seq(22, _ => 0));
      if count == 0 { return; }
      var index := (next + storage.Length - count) % storage.Length;
      var n := 0;
      assert os[..0] == [];
      while n < count
        invariant 0 <= n <= count == |os| && |o.hist| == 22 && Wide(os[..n])
        invariant o == CappedSum(Summed(os[..n])).(average := 0)
      {
        SlotAt(index, n);
        var b := storage[(index + n) % storage.Length].op;
        CappedTurn(os, n);
        FitsParts(b);
        FitsParts(CappedSum(Summed(os[..n])));
        o := AddOp(o, b);
        ghost var c := CappedSum(Summed(os[..n + 1]));
        assert o.hist == c.hist;
        n := n + 1;
      }
      assert os[..n] == os;
      CappedMean(Summed(os));
      FitsParts(CappedSum(Summed(os)));
      if o.samples != 0 {
        var a := Divide64(o.total, o.samples);
        o := o.(average := a);
      }
      ok := true;
    }

    method AddOp(a: OpFeature, b: OpFeature) returns (o: OpFeature)
      requires |a.hist| == |b.hist| == 22 && forall i :: 0 <= i < 22 ==> a.hist[i] <= U64MAX && b.hist[i] <= U64MAX
      requires a.samples <= U64MAX && a.invalid <= U64MAX && a.total <= U64MAX
      requires b.samples <= U64MAX && b.invalid <= U64MAX && b.total <= U64MAX
      ensures |o.hist| == 22 && o.average == 0
      ensures o.samples == Capped(a.samples + b.samples) && o.invalid == Capped(a.invalid + b.invalid) && o.total == Capped(a.total + b.total)
      ensures forall i :: 0 <= i < 22 ==> o.hist[i] == Capped(a.hist[i] + b.hist[i])
    {
      var s := Add(a.samples, b.samples);
      var i := Add(a.invalid, b.invalid);
      var t := Add(a.total, b.total);
      var h := AddHistograms(a.hist, b.hist);
      o := OpFeature(s, i, t, 0, h);
    }

    lemma Bounds()
      requires Valid()
      ensures next < storage.Length && count <= storage.Length
    {
    }

    lemma SlotAt(index: nat, n: nat)
      requires Valid() && n < count && index == (next + storage.Length - count) % storage.Length
      ensures (index + n) % storage.Length == Slot(n)
    {
      ModOnce(next + storage.Length - count, storage.Length);
      ModOnce(index + n, storage.Length);
    }
  }

  lemma CappedIs(n: nat)
    ensures Capped(n) <= n && (Capped(n) < n ==> Capped(n) == 0xFFFF_FFFF_FFFF_FFFF) && Capped(n) <= 0xFFFF_FFFF_FFFF_FFFF
  {
  }

  lemma CappedMean(o: OpFeature)
    requires |o.hist| == 22
    ensures var c := CappedSum(o); c.average == (if c.samples == 0 then 0 else c.total / c.samples) && c.samples <= U64MAX && c.total <= U64MAX
    ensures CappedSum(o).average <= U64MAX
    ensures CappedSum(o).Fits64()
  {
    var c := CappedSum(o);
    if c.samples != 0 {
      assert c.total == c.samples * c.average + c.total % c.samples;
      if c.average > 0 { AtLeast(c.average, c.samples); }
    }
  }

  lemma FitsWide(os: seq<OpFeature>)
    requires Fit64(os)
    ensures Wide(os) && forall n :: 0 <= n <= |os| ==> Wide(os[..n])
  {
  }

  lemma CappedNone()
    ensures CappedSum(Summed([])) == OpFeature(0, 0, 0, 0, seq(22, _ => 0))
  {
    assert CappedSum(Summed([])).hist == seq(22, _ => 0);
  }

  /** Capping term by term is capping the sum. */
  lemma CappedTurn(os: seq<OpFeature>, n: nat)
    requires n < |os| && Fit64(os)
    ensures Wide(os[..n]) && Wide(os[..n + 1]) && os[n].Fits64()
    ensures var a, b, c := CappedSum(Summed(os[..n])), os[n], CappedSum(Summed(os[..n + 1]));
            && c.samples == Capped(a.samples + b.samples) && c.invalid == Capped(a.invalid + b.invalid)
            && c.total == Capped(a.total + b.total)
            && (forall i :: 0 <= i < 22 ==> c.hist[i] == Capped(a.hist[i] + b.hist[i]))
            && a.Fits64()
  {
    FitsWide(os);
    assert os[..n + 1][..n] == os[..n];
    hide Wide, Fit64;
  }

  /** If no field of the window sum was capped, it passes the check whenever the samples
      in the window do. */
  lemma WindowConsistent(os: seq<OpFeature>)
    requires forall i :: 0 <= i < |os| ==> Consistent(os[i])
    ensures Wide(os) && (Uncapped(Summed(os)) ==> Consistent(CappedSum(Summed(os))))
  {
    hide *;
    SummedConsistent(os);
    if Uncapped(Summed(os)) { UncappedSame(Summed(os)); }
  }

  lemma UncappedSame(o: OpFeature)
    requires |o.hist| == 22 && Uncapped(o)
    ensures CappedSum(o) == o.(average := Mean(o.total, o.samples))
  {
    assert CappedSum(o).hist == o.hist;
  }
}
