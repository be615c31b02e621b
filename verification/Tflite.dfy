/** TFLite int8 inference in plain integer arithmetic: the C routines, the Python
    reference they must match, and the overflow bound that model validation checks. */
module Tflite {
  import opened Base
  import opened Numbers

  type i8 = x: int | -128 <= x < 128
  type i32 = x: int | -0x8000_0000 <= x < 0x8000_0000

  const MIN32: int := -0x8000_0000
  const MAX32: int := 0x7FFF_FFFF

  function Abs(x: int): (r: nat) {
    if x < 0 then -x else x
  }

  function Diff(a: int, b: int): int { a - b }

  /** Division of C and of _trunc_div: toward zero. */
  function TruncDiv(n: int, d: int): int
    requires d > 0
  {
    if n >= 0 then n / d else -((-n) / d)
  }

  // ---- saturating rounding doubling high multiplication ----

  /** tflite_high_mul. */
  function HighMul(a: i32, b: i32): (r: i32)
    ensures a == MIN32 && b == MIN32 ==> r == MAX32
    ensures !(a == MIN32 && b == MIN32) ==> r == (a * b + 0x4000_0000) / 0x8000_0000
  {
    ProductRange(a, b);
    if a == MIN32 && b == MIN32 then MAX32
    else
      var nudge := if a * b >= 0 then 0x4000_0000 else -0x3FFF_FFFF;
      var product := a * b + nudge;
      NudgedDivision(a * b);
      if product >= 0 then product / 0x8000_0000 else -((-product) / 0x8000_0000)
  }

  /** saturating_rounding_doubling_high_mul of the Python reference. */
  function PyHighMul(a: int, b: int): int {
    if a == -0x8000_0000 && b == -0x8000_0000 then 0x8000_0000 - 1
    else
      var product := a * b;
      var nudge := if product >= 0 then 0x4000_0000 else 1 - 0x4000_0000;
      TruncDiv(product + nudge, 0x8000_0000)
  }

  lemma ProductRange(a: i32, b: i32)
    ensures Abs(a * b) <= 0x8000_0000 * 0x8000_0000
    ensures !(a == MIN32 && b == MIN32) ==> -0x8000_0000 * 0x7FFF_FFFF - 0x8000_0000 <= a * b <= 0x8000_0000 * 0x7FFF_FFFF
  {
    var p, q := Abs(a), Abs(b);
    AbsProduct(a, b);
    MulLe(p, 0x8000_0000, q);
    MulLe(q, 0x8000_0000, 0x8000_0000);
    if p < 0x8000_0000 {
      MulLe(p, 0x7FFF_FFFF, q);
      MulLe(q, 0x8000_0000, 0x7FFF_FFFF);
    } else if q < 0x8000_0000 {
      MulLe(q, 0x7FFF_FFFF, 0x8000_0000);
    }
  }

  lemma AbsProduct(a: int, b: int)
    ensures Abs(a * b) == Abs(a) * Abs(b)
  {
    if a >= 0 && b >= 0 {
    } else if a < 0 && b < 0 {
      assert a * b == (-a) * (-b);
    } else if a < 0 {
      assert a * b == -((-a) * b);
      MulLe(0, -a, b);
    } else {
      assert a * b == -(a * (-b));
      MulLe(0, a, -b);
    }
  }

  /** Truncation after the sign-dependent nudge is the floor after half an ulp. */
  lemma NudgedDivision(p: int)
    ensures p >= 0 ==> p + 0x4000_0000 >= 0
    ensures p < 0 ==>
              var n := p - 0x3FFF_FFFF;
              n < 0 && -((-n) / 0x8000_0000) == (p + 0x4000_0000) / 0x8000_0000
  {
    if p < 0 {
      var n := p - 0x3FFF_FFFF;
      var q, r := (-n) / 0x8000_0000, (-n) % 0x8000_0000;
      assert p + 0x4000_0000 == 0x8000_0000 * (-q) + (0x7FFF_FFFF - r);
    }
  }

  lemma HighMulMatchesPython(a: i32, b: i32)
    ensures HighMul(a, b) == PyHighMul(a, b)
  {
    NudgedDivision(a * b);
  }

  // ---- rounding division by a power of two ----

  /** tflite_divide_pot. */
  function DividePot(value: i32, e: nat): int {
    if e == 0 then value
    else
      var d := Pow2(e);
      var base := if value >= 0 then value / d else -((-(value + 1) + 1 + d - 1) / d);
      var remainder := value - base * d;
      var threshold := (d - 1) / 2 + (if value < 0 then 1 else 0);
      base + (if remainder > threshold then 1 else 0)
  }

  /** rounding_divide_by_pot of the Python reference: value & mask and value >> e are the
      remainder and quotient of floor division. */
  function PyDividePot(value: int, e: nat): int {
    if e == 0 then value
    else
      var mask := Pow2(e) - 1;
      var remainder := value % (mask + 1);
      var threshold := mask / 2 + (if value < 0 then 1 else 0);
      value / (mask + 1) + (if remainder > threshold then 1 else 0)
  }

  /** The quotient rounded to nearest, ties away from zero. */
  function Nearest(n: int, d: nat): int
    requires d > 0
  {
    if n >= 0 then (2 * n + d) / (2 * d) else -((2 * (-n) + d) / (2 * d))
  }

  /** No multiple of d lies nearer to n than d times the result, and of two that are equally
      near it is the one farther from zero. */
  lemma NearestIs(n: int, d: nat)
    requires d > 0
    ensures 2 * Abs(n - d * Nearest(n, d)) <= d
    ensures 2 * Abs(n - d * Nearest(n, d)) == d ==> Abs(d * Nearest(n, d)) > Abs(n)
  {
    var m := if n >= 0 then n else -n;
    var q, r := (2 * m + d) / (2 * d), (2 * m + d) % (2 * d);
    assert 2 * m + d == (2 * d) * q + r;
    assert (2 * d) * q == 2 * (d * q);
    assert d * (-q) == -(d * q);
  }

  /** A ceiling of a magnitude is the negated floor. */
  lemma CeilIsFloor(v: int, d: nat)
    requires v < 0 && d > 0
    ensures -((-v + d - 1) / d) == v / d
  {
    var q, r := v / d, v % d;
    assert v == d * q + r;
    var m: nat := -q;
    assert -v + d - 1 == d * m + (d - 1 - r);
    QuotientIs(-v + d - 1, d, m, d - 1 - r);
  }

  lemma DividePotMatchesPython(value: i32, e: nat)
    ensures DividePot(value, e) == PyDividePot(value, e)
  {
    if e > 0 {
      var d := Pow2(e);
      if value < 0 { CeilIsFloor(value, d); }
      assert value == d * (value / d) + value % d;
      assert (value / d) * d == d * (value / d);
    }
  }

  /** Both round to nearest, ties away from zero. */
  lemma DividePotRounds(value: i32, e: nat)
    ensures DividePot(value, e) == Nearest(value, Pow2(e))
  {
    if e > 0 {
      hide *;
      DividePotMatchesPython(value, e);
      PyParts(value, e);
      var d := Pow2(e);
      var q, r := Parts(value, d);
      if value >= 0 { NearestUp(value, d, q, r); } else { NearestDown(value, d, q, r); }
    } else {
      assert Pow2(0) == 1;
      NearestOne(value);
    }
  }

  lemma Parts(v: int, d: nat) returns (q: int, r: nat)
    requires d > 0
    ensures q == v / d && r == v % d && v == d * q + r && r < d
  {
    q, r := v / d, v % d;
  }

  lemma NearestOne(v: int)
    ensures Nearest(v, 1) == v
  {
  }

  lemma PyParts(value: int, e: nat)
    requires e > 0
    ensures var d, r := Pow2(e), value % Pow2(e);
            PyDividePot(value, e) == value / d + if (if value >= 0 then 2 * r >= d else 2 * r > d) then 1 else 0
  {
    HalfEven(Pow2(e));
  }

  lemma HalfEven(d: nat)
    requires d > 0 && d % 2 == 0
    ensures (d - 1) / 2 == d / 2 - 1 && d == 2 * (d / 2)
  {
  }

  lemma NearestUp(v: int, d: nat, q: int, r: nat)
    requires v >= 0 && d > 0 && v == d * q + r && r < d
    ensures Nearest(v, d) == q + if 2 * r >= d then 1 else 0
  {
    var e := if 2 * r >= d then 1 else 0;
    assert 2 * v + d == (2 * d) * q + 2 * r + d;
    assert (2 * d) * (q + e) == (2 * d) * q + (2 * d) * e;
    assert (2 * d) * e == if e == 1 then 2 * d else 0;
    QuotientIs(2 * v + d, 2 * d, q + e, 2 * r + d - (if e == 1 then 2 * d else 0));
  }

  lemma NearestDown(v: int, d: nat, q: int, r: nat)
    requires v < 0 && d > 0 && v == d * q + r && r < d
    ensures Nearest(v, d) == q + if 2 * r > d then 1 else 0
  {
    var e := if 2 * r > d then 1 else 0;
    var m := -q - e;
    assert (2 * d) * (-q - e) == (2 * d) * (-q) - (2 * d) * e;
    assert (2 * d) * (-q) == -((2 * d) * q);
    assert (2 * d) * e == if e == 1 then 2 * d else 0;
    assert 2 * (-v) + d == -((2 * d) * q) - 2 * r + d;
    QuotientIs(2 * (-v) + d, 2 * d, m, d - 2 * r + if e == 1 then 2 * d else 0);
  }

  lemma {:induction false} PowGrows(a: nat, b: nat)
    requires a <= b
    ensures Pow2(a) <= Pow2(b)
  {
    if a < b { PowGrows(a, b - 1); }
  }

  // ---- multiplication by a quantized multiplier ----

  /** tflite_multiply; None is MTFS_ERROR_OVERFLOW. */
  function Multiply(value: i32, multiplier: i32, shift: int): (r: Option<int>) {
    var left := if shift > 0 then shift else 0;
    var right := if shift < 0 then -shift else 0;
    var shifted := value * Pow2(left);
    if multiplier < 0 || shift < -31 || shift > 30 || shifted < MIN32 || shifted > MAX32 then None
    else Some(DividePot(HighMul(shifted, multiplier), right))
  }

  /** multiply_by_quantized_multiplier; None is CanonicalInt8Error. */
  function PyMultiply(value: int, multiplier: int, shift: int): (r: Option<int>) {
    var left := if shift > 0 then shift else 0;
    var right := if shift < 0 then -shift else 0;
    var shifted := value * Pow2(left);
    if !(-0x8000_0000 <= shifted < 0x8000_0000) || right > 31 then None
    else Some(PyDividePot(PyHighMul(shifted, multiplier), right))
  }

  /** With a multiplier and a shift that validation accepts, both agree, also on when to
      fail: exactly when the left shift overflows. */
  lemma MultiplyMatchesPython(value: i32, multiplier: i32, shift: int)
    requires multiplier >= 0 && -31 <= shift <= 30
    ensures Multiply(value, multiplier, shift) == PyMultiply(value, multiplier, shift)
    ensures shift <= 0 ==> Multiply(value, multiplier, shift).Some?
  {
    var left := if shift > 0 then shift else 0;
    var right := if shift < 0 then -shift else 0;
    var shifted := value * Pow2(left);
    if shift <= 0 { assert Pow2(0) == 1; }
    if MIN32 <= shifted <= MAX32 {
      HighMulMatchesPython(shifted, multiplier);
      DividePotMatchesPython(HighMul(shifted, multiplier), right);
    }
  }

  // ---- layers ----

  /** One fully connected layer of the model. */
  datatype Layer = Layer(
    inputZero: i8, outputZero: i8, relu: bool,
    weights: seq<seq<i8>>, biases: seq<i32>, weightZeros: seq<i8>, multipliers: seq<i32>, shifts: seq<i8>)

  predicate Shaped(l: Layer, inCount: nat, outCount: nat) {
    && |l.weights| == |l.biases| == |l.weightZeros| == |l.multipliers| == |l.shifts| == outCount
    && forall o :: 0 <= o < outCount ==> |l.weights[o]| == inCount
  }

  /** input_bound in validate_cpu_model: the largest distance of an input from its zero. */
  function InputBound(zero: int): (b: nat)
    requires -128 <= zero < 128
  {
    if 127 - zero < zero + 128 then zero + 128 else 127 - zero
  }

  lemma InputInBound(x: i8, zero: i8)
    ensures Abs(Diff(x, zero)) <= InputBound(zero)
  {
  }

  /** And some input is that far away. */
  lemma InputReachesBound(zero: i8) returns (x: i8)
    ensures Abs(Diff(x, zero)) == InputBound(zero)
  {
    x := if 127 - zero < zero + 128 then -128 else 127;
  }

  /** The bound validate_cpu_model has summed up after n inputs of neuron o. */
  function BoundTo(l: Layer, o: nat, n: nat): (b: nat)
    requires o < |l.biases| == |l.weights| == |l.weightZeros| && n <= |l.weights[o]|
  {
    if n == 0 then Abs(l.biases[o])
    else BoundTo(l, o, n - 1) + InputBound(l.inputZero) * Abs(Diff(l.weights[o][n - 1], l.weightZeros[o]))
  }

  /** Weights at their zero point leave the magnitude of the bias. */
  lemma {:induction false} BoundAtZero(l: Layer, o: nat, n: nat)
    requires o < |l.biases| == |l.weights| == |l.weightZeros| && n <= |l.weights[o]|
    requires forall i :: 0 <= i < n ==> l.weights[o][i] == l.weightZeros[o]
    ensures BoundTo(l, o, n) == Abs(l.biases[o])
  {
    if n > 0 { BoundAtZero(l, o, n - 1); }
  }

  /** Another weight changes the bound by the difference of their distances from the zero point
      times the bound of an input. */
  lemma {:induction false} BoundChanged(l: Layer, m: Layer, o: nat, i: nat, n: nat)
    requires o < |l.biases| == |l.weights| == |l.weightZeros| && n <= |l.weights[o]| && i < |l.weights[o]|
    requires |m.biases| == |m.weights| == |m.weightZeros| == |l.weights| && |m.weights[o]| == |l.weights[o]|
    requires m.biases[o] == l.biases[o] && m.weightZeros[o] == l.weightZeros[o] && m.inputZero == l.inputZero
    requires forall j :: 0 <= j < n && j != i ==> m.weights[o][j] == l.weights[o][j]
    ensures i >= n ==> BoundTo(m, o, n) == BoundTo(l, o, n)
    ensures i < n ==>
              BoundTo(m, o, n) + InputBound(l.inputZero) * Abs(l.weights[o][i] as int - l.weightZeros[o] as int) ==
              BoundTo(l, o, n) + InputBound(l.inputZero) * Abs(m.weights[o][i] as int - l.weightZeros[o] as int)
  {
    if n > 0 { BoundChanged(l, m, o, i, n - 1); }
  }

  /** The accumulator after n inputs. */
  function AccTo(l: Layer, o: nat, x: seq<i8>, n: nat): int
    requires o < |l.biases| == |l.weights| == |l.weightZeros| && n <= |l.weights[o]| && n <= |x|
  {
    if n == 0 then l.biases[o]
    else AccTo(l, o, x, n - 1) + Diff(x[n - 1], l.inputZero) * Diff(l.weights[o][n - 1], l.weightZeros[o])
  }

  /** An input at its zero point contributes nothing. */
  lemma {:induction false} AccAtZero(l: Layer, o: nat, x: seq<i8>, n: nat)
    requires o < |l.biases| == |l.weights| == |l.weightZeros| && n <= |l.weights[o]| && n <= |x|
    requires forall i :: 0 <= i < n ==> x[i] == l.inputZero
    ensures AccTo(l, o, x, n) == l.biases[o]
  {
    if n > 0 { AccAtZero(l, o, x, n - 1); }
  }

  /** Another value of one input shifts the accumulator by the difference times the weight
      above its zero point. */
  lemma {:induction false} AccRaised(l: Layer, o: nat, x: seq<i8>, y: seq<i8>, i: nat, n: nat)
    requires o < |l.biases| == |l.weights| == |l.weightZeros| && n <= |l.weights[o]| && i < n <= |x| == |y|
    requires forall j :: 0 <= j < n && j != i ==> y[j] == x[j]
    ensures AccTo(l, o, y, n) - AccTo(l, o, x, n) == ((y[i] as int) - (x[i] as int)) * ((l.weights[o][i] as int) - (l.weightZeros[o] as int))
  {
    var w := Diff(l.weights[o][n - 1], l.weightZeros[o]);
    if i == n - 1 {
      AccSame(l, o, x, y, n - 1);
      assert Diff(y[i], l.inputZero) * w - Diff(x[i], l.inputZero) * w == (Diff(y[i], l.inputZero) - Diff(x[i], l.inputZero)) * w;
    } else {
      AccRaised(l, o, x, y, i, n - 1);
    }
  }

  lemma {:induction false} AccSame(l: Layer, o: nat, x: seq<i8>, y: seq<i8>, n: nat)
    requires o < |l.biases| == |l.weights| == |l.weightZeros| && n <= |l.weights[o]| && n <= |x| == |y|
    requires forall j :: 0 <= j < n ==> y[j] == x[j]
    ensures AccTo(l, o, y, n) == AccTo(l, o, x, n)
  {
    if n > 0 { AccSame(l, o, x, y, n - 1); }
  }

  predicate NeuronValid(l: Layer, o: nat, inCount: nat)
    requires o < |l.weights| == |l.biases| == |l.weightZeros| == |l.multipliers| == |l.shifts| && inCount <= |l.weights[o]|
  {
    l.multipliers[o] >= 0 && -31 <= l.shifts[o] <= 30 && BoundTo(l, o, inCount) <= MAX32
  }

  predicate LayerValid(l: Layer, inCount: nat, outCount: nat) {
    Shaped(l, inCount, outCount) && forall o :: 0 <= o < outCount ==> NeuronValid(l, o, inCount)
  }

  lemma {:induction false} BoundGrows(l: Layer, o: nat, m: nat, n: nat)
    requires o < |l.biases| == |l.weights| == |l.weightZeros| && m <= n <= |l.weights[o]|
    ensures BoundTo(l, o, m) <= BoundTo(l, o, n)
    decreases n
  {
    if m < n {
      BoundGrows(l, o, m, n - 1);
      MulLe(0, InputBound(l.inputZero), Abs(Diff(l.weights[o][n - 1], l.weightZeros[o])));
    }
  }

  /** No input drives the accumulator beyond the bound. */
  lemma {:induction false} AccBounded(l: Layer, o: nat, x: seq<i8>, n: nat)
    requires o < |l.biases| == |l.weights| == |l.weightZeros| && n <= |l.weights[o]| && n <= |x|
    ensures Abs(AccTo(l, o, x, n)) <= BoundTo(l, o, n)
  {
    if n > 0 {
      AccBounded(l, o, x, n - 1);
      var a, w := Diff(x[n - 1], l.inputZero), Diff(l.weights[o][n - 1], l.weightZeros[o]);
      AbsProduct(a, w);
      InputInBound(x[n - 1], l.inputZero);
      MulLe(Abs(a), InputBound(l.inputZero), Abs(w));
    }
  }

  /** In a validated model no accumulator leaves int32, on any input, at any time. */
  lemma NoOverflow(l: Layer, o: nat, x: seq<i8>, inCount: nat, n: nat)
    requires Shaped(l, inCount, |l.weights|) && o < |l.weights| && NeuronValid(l, o, inCount) && n <= inCount <= |x|
    ensures MIN32 <= AccTo(l, o, x, n) <= MAX32
  {
    AccBounded(l, o, x, n);
    BoundGrows(l, o, n, inCount);
  }

  /** The checks of validate_cpu_model for one layer. */
  method ValidateLayer(l: Layer, inCount: nat, outCount: nat) returns (ok: bool)
    requires Shaped(l, inCount, outCount)
    ensures ok <==> LayerValid(l, inCount, outCount)
  {
    var o := 0;
    while o < outCount
      invariant 0 <= o <= outCount && forall p :: 0 <= p < o ==> NeuronValid(l, p, inCount)
    {
      if l.multipliers[o] < 0 || l.shifts[o] < -31 || l.shifts[o] > 30 {
        assert !NeuronValid(l, o, inCount);
        return false;
      }
      var zero: int := l.inputZero;
      var inputBound := 127 - zero;
      if inputBound < zero + 128 { inputBound := zero + 128; }
      var bound: int := l.biases[o];
      if bound < 0 { bound := -bound; }
      var n := 0;
      while n < inCount
        invariant 0 <= n <= inCount && bound == BoundTo(l, o, n)
      {
        var weight := Diff(l.weights[o][n], l.weightZeros[o]);
        if weight < 0 { weight := -weight; }
        bound := bound + inputBound * weight;
        n := n + 1;
      }
      if bound > MAX32 {
        assert !NeuronValid(l, o, inCount);
        return false;
      }
      o := o + 1;
    }
    ok := true;
  }

  function Clamp(relu: bool, zero: int, v: int): (r: i8) {
    var a := if relu && v < zero then zero else v;
    if a < -128 then -128 else if a > 127 then 127 else a
  }

  /** One neuron in the Python reference. */
  function PyNeuron(l: Layer, o: nat, x: seq<i8>): (r: Option<i8>)
    requires Shaped(l, |x|, |l.weights|) && o < |l.weights|
  {
    var acc := AccTo(l, o, x, |x|);
    if !(-0x8000_0000 <= acc < 0x8000_0000) then None
    else
      var q := PyMultiply(acc, l.multipliers[o], l.shifts[o]);
      if q.None? then None else Some(PyClamp(l.relu, l.outputZero, q.value + (l.outputZero as int)))
  }

  function PyClamp(relu: bool, zero: int, v: int): (r: i8) {
    var a := if relu then (if v > zero then v else zero) else v;
    var b := if a > -128 then a else -128;
    if b < 127 then b else 127
  }

  /** The value in the output range nearest to v: the range ends at 127, and begins at the
      zero point of the output if there is a relu. */
  ghost predicate InRange(relu: bool, zero: i8, v: int, r: i8) {
    var low: int := if relu then zero else -128;
    (low <= v <= 127 ==> r == v) && (v < low ==> r == low) && (v > 127 ==> r == 127)
  }

  /** What comes out of a neuron with a shift to the right, and of one with a shift to the
      left unless it overflows. */
  lemma NeuronOutput(l: Layer, o: nat, x: seq<i8>)
    requires Shaped(l, |x|, |l.weights|) && o < |l.weights| && NeuronValid(l, o, |x|)
    ensures var acc, m, s, zero := AccTo(l, o, x, |x|), l.multipliers[o] as int, l.shifts[o] as int, l.outputZero as int;
            && (s <= 0 ==>
                  && PyNeuron(l, o, x).Some?
                  && InRange(l.relu, l.outputZero, Nearest((acc * m + 0x4000_0000) / 0x8000_0000, Pow2(-s)) + zero, PyNeuron(l, o, x).value))
            && (s > 0 ==>
                  && (PyNeuron(l, o, x).Some? <==> MIN32 <= acc * Pow2(s) <= MAX32)
                  && (PyNeuron(l, o, x).Some? ==>
                        InRange(l.relu, l.outputZero, (acc * Pow2(s) * m + 0x4000_0000) / 0x8000_0000 + zero, PyNeuron(l, o, x).value)))
  {
    NoOverflow(l, o, x, |x|, |x|);
    var acc: i32, s: int := AccTo(l, o, x, |x|), l.shifts[o];
    hide AccTo, BoundTo, DividePot, PyDividePot, HighMul, PyHighMul, Nearest;
    MultiplyMatchesPython(acc, l.multipliers[o], s);
    if s <= 0 {
      assert Pow2(0) == 1;
      DividePotRounds(HighMul(acc, l.multipliers[o]), -s);
    } else if MIN32 <= acc * Pow2(s) <= MAX32 {
      DividePotRounds(HighMul(acc * Pow2(s), l.multipliers[o]), 0);
      assert Pow2(0) == 1;
      NearestOne(HighMul(acc * Pow2(s), l.multipliers[o]));
    }
  }

  /** The first n outputs of a layer, or None if one of them fails. */
  function PyOutputs(l: Layer, x: seq<i8>, n: nat): (r: Option<seq<i8>>)
    requires Shaped(l, |x|, |l.weights|) && n <= |l.weights|
    ensures r.Some? ==> |r.value| == n
  {
    if n == 0 then Some([])
    else
      var before, last := PyOutputs(l, x, n - 1), PyNeuron(l, n - 1, x);
      if before.None? || last.None? then None else Some(before.value + [last.value])
  }

  lemma {:induction false} FailureStays(l: Layer, x: seq<i8>, m: nat, n: nat)
    requires Shaped(l, |x|, |l.weights|) && m <= n <= |l.weights| && PyOutputs(l, x, m).None?
    ensures PyOutputs(l, x, n).None?
    decreases n
  {
    if m < n { FailureStays(l, x, m, n - 1); }
  }

  /** Output o of a layer is that of neuron o, and the layer fails exactly if a neuron does. */
  lemma {:induction false} OutputAt(l: Layer, x: seq<i8>, n: nat)
    requires Shaped(l, |x|, |l.weights|) && n <= |l.weights|
    ensures PyOutputs(l, x, n).None? <==> exists o :: 0 <= o < n && PyNeuron(l, o, x).None?
    ensures PyOutputs(l, x, n).Some? ==> forall o :: 0 <= o < n ==> PyNeuron(l, o, x) == Some(PyOutputs(l, x, n).value[o])
  {
    hide PyNeuron;
    if n > 0 { OutputAt(l, x, n - 1); }
  }

  /** The layer shapes of the canonical model. */
  const DIMENSIONS: seq<nat> := [24, 12, 4, 12, 24]

  predicate ModelValid(layers: seq<Layer>) {
    && |layers| == 4
    && LayerValid(layers[0], 24, 12) && LayerValid(layers[1], 12, 4)
    && LayerValid(layers[2], 4, 12) && LayerValid(layers[3], 12, 24)
  }

  lemma Dimensions()
    ensures |DIMENSIONS| == 5 && DIMENSIONS[0] == 24 && DIMENSIONS[4] == 24
  {
  }

  /** infer_raw: the outputs after n layers. */
  function PyInfer(layers: seq<Layer>, input: seq<i8>, n: nat): (r: Option<seq<i8>>)
    requires ModelValid(layers) && |input| == 24 && n <= 4
    ensures r.Some? ==> |r.value| == DIMENSIONS[n]
  {
    if n == 0 then
      Dimensions();
      Some(input)
    else
      LayerAt(layers, n - 1);
      var x := PyInfer(layers, input, n - 1);
      if x.None? then None else PyOutputs(layers[n - 1], x.value, |layers[n - 1].weights|)
  }

  /** The network is its four layers, first to last. */
  lemma InferLayers(layers: seq<Layer>, x: seq<i8>)
    requires ModelValid(layers) && |x| == 24
    ensures PyInfer(layers, x, 4).Some? ==>
              exists a: seq<i8>, b: seq<i8>, c: seq<i8> ::
                && |a| == 12 && |b| == 4 && |c| == 12
                && PyOutputs(layers[0], x, 12) == Some(a) && PyOutputs(layers[1], a, 4) == Some(b)
                && PyOutputs(layers[2], b, 12) == Some(c) && PyOutputs(layers[3], c, 24) == PyInfer(layers, x, 4)
  {
    hide PyOutputs, NeuronValid;
    if PyInfer(layers, x, 4).Some? {
      assert PyInfer(layers, x, 3).Some?;
      assert PyInfer(layers, x, 2).Some?;
      assert PyInfer(layers, x, 1).Some?;
      var a, b, c := PyInfer(layers, x, 1).value, PyInfer(layers, x, 2).value, PyInfer(layers, x, 3).value;
      assert PyInfer(layers, x, 0) == Some(x);
      assert PyOutputs(layers[0], x, 12) == Some(a);
      assert PyOutputs(layers[1], a, 4) == Some(b);
      assert PyOutputs(layers[2], b, 12) == Some(c);
    }
  }

  /** One output of the C code. */
  method Neuron(l: Layer, o: nat, current: array<i8>, inCount: nat) returns (ok: bool, out: i8)
    requires Shaped(l, inCount, |l.weights|) && o < |l.weights| && NeuronValid(l, o, inCount) && inCount <= current.Length
    ensures PyNeuron(l, o, current[..inCount]) == if ok then Some(out) else None
  {
    ok, out := false, 0;
    var accumulator: int := l.biases[o];
    var n := 0;
    ghost var x := current[..inCount];
    while n < inCount
      invariant 0 <= n <= inCount && accumulator == AccTo(l, o, x, n)
    {
      accumulator := accumulator + Diff(current[n], l.inputZero) * Diff(l.weights[o][n], l.weightZeros[o]);
      n := n + 1;
    }
    NoOverflow(l, o, x, inCount, inCount);
    var acc: i32 := accumulator;
    MultiplyMatchesPython(acc, l.multipliers[o], l.shifts[o]);
    var q := Multiply(acc, l.multipliers[o], l.shifts[o]);
    hide Multiply, PyMultiply, AccTo, NeuronValid;
    if q.Some? {
      ok, out := true, Clamp(l.relu, l.outputZero, q.value + (l.outputZero as int));
    }
  }

  /** The loop over the outputs of a layer. */
  method RunLayer(l: Layer, current: array<i8>, next: array<i8>, inCount: nat) returns (ok: bool)
    requires LayerValid(l, inCount, |l.weights|) && inCount <= current.Length && |l.weights| <= next.Length && current != next
    modifies next
    ensures PyOutputs(l, current[..inCount], |l.weights|) == if ok then Some(next[..|l.weights|]) else None
  {
    hide NeuronValid, PyNeuron, Shaped, BoundTo;
    LayerParts(l, inCount);
    ghost var x := current[..inCount];
    var o := 0;
    while o < |l.weights|
      invariant 0 <= o <= |l.weights| && current[..inCount] == x
      invariant PyOutputs(l, x, o) == Some(next[..o])
    {
      var out;
      ok, out := Neuron(l, o, current, inCount);
      if !ok {
        FailureStays(l, x, o + 1, |l.weights|);
        return;
      }
      next[o] := out;
      assert next[..o + 1] == next[..o] + [out];
      o := o + 1;
    }
    ok := true;
  }

  lemma LayerParts(l: Layer, inCount: nat)
    requires LayerValid(l, inCount, |l.weights|)
    ensures Shaped(l, inCount, |l.weights|) && forall o :: 0 <= o < |l.weights| ==> NeuronValid(l, o, inCount)
  {
  }

  /** mtfs_sentinel_cpu_infer_canonical_int8 on a validated model: two buffers take turns,
      and the result, failures included, is that of the Python reference. */
  method InferCanonical(layers: seq<Layer>, input: array<i8>) returns (ok: bool, output: array<i8>)
    requires ModelValid(layers) && input.Length == 24
    ensures fresh(output) && output.Length == 24
    ensures PyInfer(layers, input[..], 4) == if ok then Some(output[..]) else None
  {
    ghost var x0 := input[..];
    var current, next := new i8[24](i => 0), new i8[24](i => 0);
    output := new i8[24](i => 0);
    var n := 0;
    while n < 24
      invariant 0 <= n <= 24 && current[..n] == input[..n] && input[..] == x0
    {
      current[n] := input[n];
      n := n + 1;
    }
    assert current[..24] == x0;
    var k := 0;
    while k < 4
      invariant 0 <= k <= 4 && fresh(current) && fresh(next) && current != next && current.Length == next.Length == 24
      invariant fresh(output) && output != current && output != next
      invariant input[..] == x0 && PyInfer(layers, x0, k) == Some(current[..DIMENSIONS[k]])
    {
      LayerAt(layers, k);
      hide LayerValid, PyOutputs, ModelValid;
      ok := RunLayer(layers[k], current, next, DIMENSIONS[k]);
      if !ok {
        InferFails(layers, x0, k + 1, 4);
        return;
      }
      current, next := next, current;
      k := k + 1;
    }
    n := 0;
    while n < 24
      invariant 0 <= n <= 24 && output[..n] == current[..n]
      invariant input[..] == x0 && PyInfer(layers, x0, 4) == Some(current[..24])
    {
      output[n] := current[n];
      n := n + 1;
    }
    assert output[..] == current[..24];
    ok := true;
  }

  lemma LayerAt(layers: seq<Layer>, k: nat)
    requires ModelValid(layers) && k < 4
    ensures |layers| == 4 && |DIMENSIONS| == 5 && DIMENSIONS[k] <= 24 && DIMENSIONS[k + 1] <= 24
    ensures |layers[k].weights| == DIMENSIONS[k + 1] && LayerValid(layers[k], DIMENSIONS[k], DIMENSIONS[k + 1])
  {
    hide NeuronValid;
  }

  lemma {:induction false} InferFails(layers: seq<Layer>, input: seq<i8>, m: nat, n: nat)
    requires ModelValid(layers) && |input| == 24 && m <= n <= 4 && PyInfer(layers, input, m).None?
    ensures PyInfer(layers, input, n).None?
    decreases n
  {
    if m < n { InferFails(layers, input, m, n - 1); }
  }
}
