/** The anomaly score of the storage sentinel and the interval of scores that an output
    known only up to an error can have. */
module Score {
  import opened Base
  import opened Numbers
  import opened Arith
  import opened Tflite

  const LENGTH: nat := 24

  type Vector = s: seq<i8> | |s| == 24 witness seq(24, _ => 0)

  function Square(d: int): (r: nat)
    ensures r == Abs(d) * Abs(d)
  {
    SquareAbs(d);
    d * d
  }

  lemma SquareAbs(d: int)
    ensures d * d == Abs(d) * Abs(d) >= 0
  {
    AbsProduct(d, d);
  }

  /** Sum of squared differences over the first n elements. */
  function SumSq(x: Vector, y: Vector, n: nat): nat
    requires n <= 24
  {
    if n == 0 then 0 else SumSq(x, y, n - 1) + Square(Diff(x[n - 1], y[n - 1]))
  }

  /** The mean, rounded half up. */
  function Rounded(sum: nat): nat { (sum + 12) / 24 }

  /** The multiple of 1/24 lies less than half a unit above it or at most half below. */
  lemma RoundedIs(sum: nat)
    ensures 24 * Rounded(sum) - 12 <= sum < 24 * Rounded(sum) + 12
  {
  }

  /** Equal vectors are at distance 0. */
  lemma {:induction false} SumOfSame(x: Vector, n: nat)
    requires n <= 24
    ensures SumSq(x, x, n) == 0
  {
    if n > 0 { SumOfSame(x, n - 1); }
  }

  /** Another value in one place changes the sum by the difference of two squares. */
  lemma {:induction false} SumChanged(x: Vector, y: Vector, z: Vector, i: nat, n: nat)
    requires i < 24 && n <= 24 && forall j :: 0 <= j < 24 && j != i ==> z[j] == y[j]
    ensures var a, b := (z[i] as int) - (x[i] as int), (y[i] as int) - (x[i] as int);
            SumSq(x, z, n) - SumSq(x, y, n) == if i < n then a * a - b * b else 0
  {
    if n > 0 {
      SumChanged(x, y, z, i, n - 1);
      SquareNegated(Diff(x[n - 1], z[n - 1]));
      SquareNegated(Diff(x[n - 1], y[n - 1]));
    }
  }

  lemma SquareNegated(d: int)
    ensures Square(d) == (-d) * (-d)
  {
  }

  function ScoreOf(x: Vector, y: Vector): nat { Rounded(SumSq(x, y, 24)) }

  datatype Result = Result(score: nat, threshold: nat, anomaly: bool)

  /** mtfs_sentinel_score_q8. */
  method ScoreQ8(input: Vector, output: Vector, threshold: u64) returns (r: Result)
    ensures r == Result(ScoreOf(input, output), threshold, ScoreOf(input, output) > threshold)
  {
    var sum := 0;
    var i := 0;
    while i < LENGTH
      invariant 0 <= i <= 24 && sum == SumSq(input, output, i)
    {
      var difference := Diff(input[i], output[i]);
      sum := sum + difference * difference;
      i := i + 1;
    }
    var score := (sum + 12) / 24;
    r := Result(score, threshold, score > threshold);
  }

  // ---- one element ----

  function Lower(ref: i8, e: nat): (r: i8) { if Diff(ref, e) < -128 then -128 else Diff(ref, e) }

  function Upper(ref: i8, e: nat): (r: i8) { if ref + (e as int) > 127 then 127 else ref + (e as int) }

  /** Distance of x from the interval of values within e of ref. */
  function MinDelta(x: i8, ref: i8, e: nat): nat {
    if x < Lower(ref, e) then Diff(Lower(ref, e), x)
    else if x > Upper(ref, e) then Diff(x, Upper(ref, e))
    else 0
  }

  /** Distance of x from the far end of that interval. */
  function MaxDelta(x: i8, ref: i8, e: nat): nat {
    var l, u := Abs(Diff(x, Lower(ref, e))), Abs(Diff(x, Upper(ref, e)));
    if l > u then l else u
  }

  /** y may be the true output when ref is known to be within e of it. */
  predicate Near(ref: i8, e: nat, y: i8) { Abs(Diff(y, ref)) <= e }

  function Closest(x: i8, ref: i8, e: nat): (y: i8)
    ensures Near(ref, e, y) && Abs(Diff(x, y)) == MinDelta(x, ref, e)
  {
    if x < Lower(ref, e) then Lower(ref, e) else if x > Upper(ref, e) then Upper(ref, e) else x
  }

  function Farthest(x: i8, ref: i8, e: nat): (y: i8)
    ensures Near(ref, e, y) && Abs(Diff(x, y)) == MaxDelta(x, ref, e)
  {
    if Abs(Diff(x, Lower(ref, e))) > Abs(Diff(x, Upper(ref, e))) then Lower(ref, e) else Upper(ref, e)
  }

  lemma Between(x: i8, ref: i8, e: nat, y: i8)
    requires Near(ref, e, y)
    ensures MinDelta(x, ref, e) <= Abs(Diff(x, y)) <= MaxDelta(x, ref, e)
  {
  }

  lemma SquareOrder(a: nat, b: nat)
    requires a <= b
    ensures a * a <= b * b
  {
    MulLe(a, b, a);
    MulLe(a, b, b);
    assert b * a == a * b;
  }

  // ---- the interval ----

  function MinSum(x: Vector, ref: Vector, e: nat, n: nat): nat
    requires n <= 24
  {
    if n == 0 then 0 else MinSum(x, ref, e, n - 1) + MinDelta(x[n - 1], ref[n - 1], e) * MinDelta(x[n - 1], ref[n - 1], e)
  }

  function MaxSum(x: Vector, ref: Vector, e: nat, n: nat): nat
    requires n <= 24
  {
    if n == 0 then 0 else MaxSum(x, ref, e, n - 1) + MaxDelta(x[n - 1], ref[n - 1], e) * MaxDelta(x[n - 1], ref[n - 1], e)
  }

  datatype Decision = Normal | Anomaly | Ambiguous

  datatype Interval = Interval(min: nat, max: nat, decision: Decision)

  function Decide(min: nat, max: nat, threshold: nat): Decision {
    if max <= threshold then Normal else if min > threshold then Anomaly else Ambiguous
  }

  /** mtfs_sentinel_score_interval_q8; None for an error above 255. */
  method ScoreInterval(input: Vector, ref: Vector, e: u32, threshold: u64) returns (r: Option<Interval>)
    ensures r.None? <==> e > 255
    ensures r.Some? ==>
              var min, max := Rounded(MinSum(input, ref, e, 24)), Rounded(MaxSum(input, ref, e, 24));
              r.value == Interval(min, max, Decide(min, max, threshold))
  {
    if e > 255 { return None; }
    var minimum, maximum := 0, 0;
    var i := 0;
    while i < LENGTH
      invariant 0 <= i <= 24 && minimum == MinSum(input, ref, e, i) && maximum == MaxSum(input, ref, e, i)
    {
      var x: int, y: int := input[i], ref[i];
      var lower, upper := y - e, y + e;
      if lower < -128 { lower := -128; }
      if upper > 127 { upper := 127; }
      var minDelta;
      if x < lower { minDelta := lower - x; } else if x > upper { minDelta := x - upper; } else { minDelta := 0; }
      var lowerDelta := x - lower;
      if lowerDelta < 0 { lowerDelta := -lowerDelta; }
      var upperDelta := x - upper;
      if upperDelta < 0 { upperDelta := -upperDelta; }
      var maxDelta := if lowerDelta > upperDelta then lowerDelta else upperDelta;
      assert minDelta == MinDelta(input[i], ref[i], e) && maxDelta == MaxDelta(input[i], ref[i], e);
      minimum := minimum + minDelta * minDelta;
      maximum := maximum + maxDelta * maxDelta;
      i := i + 1;
    }
    var min, max := (minimum + 12) / 24, (maximum + 12) / 24;
    r := Some(Interval(min, max, if max <= threshold then Normal else if min > threshold then Anomaly else Ambiguous));
  }

  /** y may be the true output vector. */
  ghost predicate Possible(ref: Vector, e: nat, y: Vector) {
    forall i :: 0 <= i < 24 ==> Near(ref[i], e, y[i])
  }

  lemma {:induction false} SumsBetween(x: Vector, ref: Vector, e: nat, y: Vector, n: nat)
    requires Possible(ref, e, y) && n <= 24
    ensures MinSum(x, ref, e, n) <= SumSq(x, y, n) <= MaxSum(x, ref, e, n)
  {
    if n > 0 {
      SumsBetween(x, ref, e, y, n - 1);
      Between(x[n - 1], ref[n - 1], e, y[n - 1]);
      SquareOrder(MinDelta(x[n - 1], ref[n - 1], e), Abs(Diff(x[n - 1], y[n - 1])));
      SquareOrder(Abs(Diff(x[n - 1], y[n - 1])), MaxDelta(x[n - 1], ref[n - 1], e));
    }
  }

  lemma RoundedOrder(a: nat, b: nat)
    requires a <= b
    ensures Rounded(a) <= Rounded(b)
  {
  }

  /** Sound: every possible output scores inside the interval. */
  lemma IntervalSound(x: Vector, ref: Vector, e: nat, y: Vector)
    requires Possible(ref, e, y)
    ensures Rounded(MinSum(x, ref, e, 24)) <= ScoreOf(x, y) <= Rounded(MaxSum(x, ref, e, 24))
  {
    SumsBetween(x, ref, e, y, 24);
    RoundedOrder(MinSum(x, ref, e, 24), SumSq(x, y, 24));
    RoundedOrder(SumSq(x, y, 24), MaxSum(x, ref, e, 24));
  }

  function Nearby(x: Vector, ref: Vector, e: nat): (y: Vector)
    ensures forall i :: 0 <= i < 24 ==> y[i] == Closest(x[i], ref[i], e)
  {
    seq(24, i requires 0 <= i < 24 => Closest(x[i], ref[i], e))
  }

  function Faraway(x: Vector, ref: Vector, e: nat): (y: Vector)
    ensures forall i :: 0 <= i < 24 ==> y[i] == Farthest(x[i], ref[i], e)
  {
    seq(24, i requires 0 <= i < 24 => Farthest(x[i], ref[i], e))
  }

  lemma {:induction false} EndsAttained(x: Vector, ref: Vector, e: nat, n: nat)
    requires n <= 24
    ensures SumSq(x, Nearby(x, ref, e), n) == MinSum(x, ref, e, n)
    ensures SumSq(x, Faraway(x, ref, e), n) == MaxSum(x, ref, e, n)
  {
    if n > 0 { EndsAttained(x, ref, e, n - 1); }
  }

  /** Tight: both ends are scores of possible outputs. */
  lemma IntervalTight(x: Vector, ref: Vector, e: nat)
    ensures Possible(ref, e, Nearby(x, ref, e)) && ScoreOf(x, Nearby(x, ref, e)) == Rounded(MinSum(x, ref, e, 24))
    ensures Possible(ref, e, Faraway(x, ref, e)) && ScoreOf(x, Faraway(x, ref, e)) == Rounded(MaxSum(x, ref, e, 24))
  {
    EndsAttained(x, ref, e, 24);
  }

  /** The decision says exactly what the verdicts of all possible outputs have in common. */
  lemma DecisionExact(x: Vector, ref: Vector, e: nat, threshold: nat)
    ensures var d := Decide(Rounded(MinSum(x, ref, e, 24)), Rounded(MaxSum(x, ref, e, 24)), threshold);
            && (d == Normal <==> forall y: Vector :: Possible(ref, e, y) ==> ScoreOf(x, y) <= threshold)
            && (d == Anomaly <==> forall y: Vector :: Possible(ref, e, y) ==> ScoreOf(x, y) > threshold)
            && (d == Ambiguous <==>
                  && (exists y: Vector :: Possible(ref, e, y) && ScoreOf(x, y) <= threshold)
                  && (exists y: Vector :: Possible(ref, e, y) && ScoreOf(x, y) > threshold))
  {
    hide *;
    IntervalTight(x, ref, e);
    forall y: Vector | Possible(ref, e, y)
      ensures Rounded(MinSum(x, ref, e, 24)) <= ScoreOf(x, y) <= Rounded(MaxSum(x, ref, e, 24))
    {
      IntervalSound(x, ref, e, y);
    }
    DecideIs(Rounded(MinSum(x, ref, e, 24)), Rounded(MaxSum(x, ref, e, 24)), threshold);
  }

  lemma DecideIs(min: nat, max: nat, threshold: nat)
    ensures Decide(min, max, threshold) == if max <= threshold then Normal else if min > threshold then Anomaly else Ambiguous
  {
  }
}
