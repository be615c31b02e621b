/** The first model format: plain int8 layers whose outputs are shifted right by 7 bits. Its
    only bound on the model is one on the biases, and that is enough. */
module Int8V1 {
  import opened Base
  import opened Numbers
  import opened Tflite

  /** round_shift7. */
  function RoundShift7(v: int): int {
    if v >= 0 then (v + 64) / 128 else -((-v + 64) / 128)
  }

  /** It divides by 128, rounded to nearest, ties away from zero. */
  lemma RoundShift7Rounds(v: int)
    ensures RoundShift7(v) == Nearest(v, 128)
  {
  }

  const WEIGHTS: nat := 672
  const BIASES: nat := 52

  /** Weights and biases of all layers in one run each. */
  datatype Model = Model(weights: seq<i8>, biases: seq<i32>)

  predicate Sized(m: Model) { |m.weights| == WEIGHTS && |m.biases| == BIASES }

  /** Where the weights and the biases of layer k begin. */
  function WeightOffset(k: nat): nat {
    if k == 0 then 0 else if k == 1 then 288 else if k == 2 then 336 else if k == 3 then 384 else 672
  }

  function BiasOffset(k: nat): nat {
    if k == 0 then 0 else if k == 1 then 12 else if k == 2 then 16 else if k == 3 then 28 else 52
  }

  lemma Layout(k: nat)
    requires k < 4
    ensures |DIMENSIONS| == 5 && 0 < DIMENSIONS[k] <= 24 && 0 < DIMENSIONS[k + 1] <= 24
    ensures WeightOffset(k + 1) == WeightOffset(k) + DIMENSIONS[k] * DIMENSIONS[k + 1] <= WEIGHTS
    ensures BiasOffset(k + 1) == BiasOffset(k) + DIMENSIONS[k + 1] <= BIASES
  {
  }

  lemma WeightInside(k: nat, o: nat, n: nat)
    requires k < 4 && |DIMENSIONS| == 5 && o < DIMENSIONS[k + 1] && n < DIMENSIONS[k]
    ensures WeightOffset(k) + n * DIMENSIONS[k + 1] + o < WEIGHTS
  {
    Layout(k);
    MulLe(n + 1, DIMENSIONS[k], DIMENSIONS[k + 1]);
  }

  /** The bound of validate_cpu_model. */
  predicate BiasesValid(m: Model) {
    forall i :: 0 <= i < |m.biases| ==> MIN32 + 400000 <= m.biases[i] <= MAX32 - 400000
  }

  method ValidateBiases(m: Model) returns (ok: bool)
    requires Sized(m)
    ensures ok <==> BiasesValid(m)
  {
    var i := 0;
    while i < BIASES
      invariant 0 <= i <= BIASES && forall j :: 0 <= j < i ==> MIN32 + 400000 <= m.biases[j] <= MAX32 - 400000
    {
      if m.biases[i] > MAX32 - 400000 || m.biases[i] < MIN32 + 400000 { return false; }
      i := i + 1;
    }
    ok := true;
  }

  /** The accumulator of neuron o of layer k after n inputs. */
  function Acc(m: Model, k: nat, o: nat, x: seq<i8>, n: nat): int
    requires Sized(m) && k < 4 && |DIMENSIONS| == 5 && o < DIMENSIONS[k + 1] && n <= DIMENSIONS[k] && n <= |x|
  {
    Layout(k);
    if n == 0 then m.biases[BiasOffset(k) + o]
    else
      WeightInside(k, o, n - 1);
      Acc(m, k, o, x, n - 1) + (x[n - 1] as int) * m.weights[WeightOffset(k) + (n - 1) * DIMENSIONS[k + 1] + o]
  }

  /** Inputs of 0 leave the bias of the neuron; the biases of the layers follow one another. */
  lemma {:induction false} AccAtZero(m: Model, k: nat, o: nat, x: seq<i8>, n: nat)
    requires Sized(m) && k < 4 && |DIMENSIONS| == 5 && o < DIMENSIONS[k + 1] && n <= DIMENSIONS[k] && n <= |x|
    requires forall i :: 0 <= i < n ==> x[i] == 0
    ensures Acc(m, k, o, x, n) == m.biases[[0, 12, 16, 28][k] + o]
  {
    Layout(k);
    if n > 0 { AccAtZero(m, k, o, x, n - 1); }
  }

  /** Another value of input i shifts the accumulator by the difference times the weight from
      i to o; the weights of a layer are stored input by input. */
  lemma {:induction false} AccRaised(m: Model, k: nat, o: nat, x: seq<i8>, y: seq<i8>, i: nat, n: nat)
    requires Sized(m) && k < 4 && |DIMENSIONS| == 5 && o < DIMENSIONS[k + 1] && n <= DIMENSIONS[k] && n <= |x| == |y|
    requires i < |x| && forall j :: 0 <= j < n && j != i ==> y[j] == x[j]
    ensures i < n ==>
              && [0, 288, 336, 384][k] + i * [12, 4, 12, 24][k] + o < 672
              && Acc(m, k, o, y, n) - Acc(m, k, o, x, n) ==
                 ((y[i] as int) - (x[i] as int)) * m.weights[[0, 288, 336, 384][k] + i * [12, 4, 12, 24][k] + o]
    ensures i >= n ==> Acc(m, k, o, y, n) == Acc(m, k, o, x, n)
  {
    Layout(k);
    if n > 0 {
      WeightInside(k, o, n - 1);
      AccRaised(m, k, o, x, y, i, n - 1);
    }
  }

  /** Each product of two int8 values adds at most 16384. */
  lemma {:induction false} AccNearBias(m: Model, k: nat, o: nat, x: seq<i8>, n: nat)
    requires Sized(m) && k < 4 && |DIMENSIONS| == 5 && o < DIMENSIONS[k + 1] && n <= DIMENSIONS[k] && n <= |x|
    ensures BiasOffset(k) + o < BIASES && Abs(Acc(m, k, o, x, n) - m.biases[BiasOffset(k) + o]) <= 16384 * n
  {
    Layout(k);
    if n > 0 {
      AccNearBias(m, k, o, x, n - 1);
      WeightInside(k, o, n - 1);
      SmallProduct(x[n - 1], m.weights[WeightOffset(k) + (n - 1) * DIMENSIONS[k + 1] + o]);
    }
  }

  lemma SmallProduct(a: i8, b: i8)
    ensures Abs((a as int) * b) <= 16384
  {
    AbsProduct(a, b);
    MulLe(Abs(a), 128, Abs(b));
  }

  /** In a validated model no accumulator leaves int32, on any input, at any time. */
  lemma NoOverflow(m: Model, k: nat, o: nat, x: seq<i8>, n: nat)
    requires Sized(m) && BiasesValid(m) && k < 4 && |DIMENSIONS| == 5 && o < DIMENSIONS[k + 1] && n <= DIMENSIONS[k] && n <= |x|
    ensures MIN32 <= Acc(m, k, o, x, n) <= MAX32
  {
    Layout(k);
    AccNearBias(m, k, o, x, n);
  }

  /** Rounded, cut off below zero in the hidden layers, and clipped to int8. */
  function Output(k: nat, acc: int): i8 {
    var q := Nearest(acc, 128);
    var a := if k != 3 && q < 0 then 0 else q;
    if a < -128 then -128 else if a > 127 then 127 else a
  }

  /** Nearest to acc / 128 in 0 to 127, or in -128 to 127 in the last layer. */
  lemma OutputIs(k: nat, acc: int)
    ensures var low, q := if k == 3 then -128 else 0, Nearest(acc, 128);
            && (low <= q <= 127 ==> Output(k, acc) == q)
            && (q < low ==> Output(k, acc) == low) && (q > 127 ==> Output(k, acc) == 127)
  {
  }

  function Outputs(m: Model, k: nat, x: seq<i8>): (r: seq<i8>)
    requires Sized(m) && k < 4 && |DIMENSIONS| == 5 && |x| == DIMENSIONS[k]
    ensures |r| == DIMENSIONS[k + 1]
  {
    seq(DIMENSIONS[k + 1], o requires 0 <= o < DIMENSIONS[k + 1] => Output(k, Acc(m, k, o, x, |x|)))
  }

  /** What comes out of the first n layers. */
  function Net(m: Model, x: seq<i8>, n: nat): (r: seq<i8>)
    requires Sized(m) && |x| == 24 && n <= 4
    ensures |DIMENSIONS| == 5 && |r| == DIMENSIONS[n]
  {
    Dimensions();
    if n == 0 then x else Outputs(m, n - 1, Net(m, x, n - 1))
  }

  /** The network is its four layers, first to last, and each layer its neurons. */
  lemma NetLayers(m: Model, x: seq<i8>)
    requires Sized(m) && |x| == 24
    ensures |DIMENSIONS| == 5 && DIMENSIONS[0] == 24 && DIMENSIONS[1] == 12 && DIMENSIONS[2] == 4 && DIMENSIONS[3] == 12 && DIMENSIONS[4] == 24
    ensures Net(m, x, 4) == Outputs(m, 3, Outputs(m, 2, Outputs(m, 1, Outputs(m, 0, x))))
    ensures forall o :: 0 <= o < 12 ==> Outputs(m, 0, x)[o] == Output(0, Acc(m, 0, o, x, 24))
  {
    hide Acc, Output;
    assert Net(m, x, 0) == x;
    assert Net(m, x, 1) == Outputs(m, 0, x);
    assert Net(m, x, 2) == Outputs(m, 1, Outputs(m, 0, x));
  }

  /** One output; the overflow test never fires on a validated model. */
  method Neuron(m: Model, k: nat, o: nat, current: array<i8>) returns (ok: bool, out: i8)
    requires Sized(m) && BiasesValid(m) && k < 4 && |DIMENSIONS| == 5 && o < DIMENSIONS[k + 1] && DIMENSIONS[k] <= current.Length
    ensures ok && out == Output(k, Acc(m, k, o, current[..DIMENSIONS[k]], DIMENSIONS[k]))
  {
    Layout(k);
    var inCount, outCount := DIMENSIONS[k], DIMENSIONS[k + 1];
    ghost var x := current[..inCount];
    var accumulator: int := m.biases[BiasOffset(k) + o];
    var n := 0;
    while n < inCount
      invariant 0 <= n <= inCount && accumulator == Acc(m, k, o, x, n)
    {
      WeightInside(k, o, n);
      accumulator := accumulator + (current[n] as int) * m.weights[WeightOffset(k) + n * outCount + o];
      n := n + 1;
    }
    NoOverflow(m, k, o, x, inCount);
    ok, out := true, 0;
    if accumulator < MIN32 || accumulator > MAX32 { ok := false; }
    RoundShift7Rounds(accumulator);
    var quantized := RoundShift7(accumulator);
    if k != 3 && quantized < 0 { quantized := 0; }
    if quantized < -128 { quantized := -128; }
    if quantized > 127 { quantized := 127; }
    out := quantized;
  }

  /** The loop over the outputs of a layer. */
  method RunLayer(m: Model, k: nat, current: array<i8>, next: array<i8>) returns (ok: bool)
    requires Sized(m) && BiasesValid(m) && k < 4 && |DIMENSIONS| == 5 && current != next
    requires DIMENSIONS[k] <= current.Length && DIMENSIONS[k + 1] <= next.Length
    modifies next
    ensures ok && next[..DIMENSIONS[k + 1]] == Outputs(m, k, current[..DIMENSIONS[k]])
  {
    Layout(k);
    hide Output, BiasesValid, WeightOffset, BiasOffset, Acc;
    ghost var x := current[..DIMENSIONS[k]];
    ok := true;
    var o := 0;
    while o < DIMENSIONS[k + 1]
      invariant 0 <= o <= DIMENSIONS[k + 1] && ok && current[..DIMENSIONS[k]] == x
      invariant forall p :: 0 <= p < o ==> next[p] == Outputs(m, k, x)[p]
    {
      var out;
      ok, out := Neuron(m, k, o, current);
      if !ok { return; }
      next[o] := out;
      o := o + 1;
    }
    assert next[..DIMENSIONS[k + 1]] == Outputs(m, k, x);
  }

  /** The part of mtfs_sentinel_cpu_infer_detailed for this format: on a validated model it
      never fails, and the two buffers that take turns end with the output of the network. */
  method Infer(m: Model, input: array<i8>) returns (ok: bool, output: array<i8>)
    requires Sized(m) && BiasesValid(m) && input.Length == 24
    ensures ok && fresh(output) && output.Length == 24 && output[..] == Net(m, input[..], 4)
  {
    ghost var x0 := input[..];
    Dimensions();
    var current, next := new i8[24](i => 0), new i8[24](i => 0);
    var n := 0;
    while n < 24
      invariant 0 <= n <= 24 && current[..n] == input[..n] && input[..] == x0
    {
      current[n] := input[n];
      n := n + 1;
    }
    assert current[..24] == x0;
    ok := true;
    var k := 0;
    while k < 4
      invariant 0 <= k <= 4 && ok && fresh(current) && fresh(next) && current != next && current.Length == next.Length == 24
      invariant input[..] == x0 && current[..DIMENSIONS[k]] == Net(m, x0, k)
    {
      Layout(k);
      hide Outputs, BiasesValid;
      ok := RunLayer(m, k, current, next);
      if !ok { return false, current; }
      current, next := next, current;
      k := k + 1;
    }
    output := current;
    assert current[..24] == current[..];
  }
}
