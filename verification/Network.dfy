/** Quantised inference on the processor (calculateNNCPU in patmos/c/accelerator/neuralNetwork.h): the flat loops
    over running weight indices compute the layered network, up to what 32 bits cut off. */
module Network {

  import opened Machine
  import opened Products

  const INPUTS: nat := 784
  const HIDDEN: nat := 100
  const OUTPUTS: nat := 10

  // ----- The layered network over the integers -------------------------------------------------------------

  /** The first `n` terms of the product of `x` with the row of weights that starts at `base`. */
  function Dot(x: seq<int>, w: seq<int>, base: nat, n: nat): int
    requires n <= |x| && base + n <= |w|
  {
    if n == 0 then 0 else Dot(x, w, base, n - 1) + x[n - 1] * w[base + n - 1]
  }

  /** Row `i` of the weights fits the matrix. */
  lemma RowFits(i: nat, rows: nat, n: nat)
    requires i < rows
    ensures i * n + n <= rows * n
  {
    MulBound(i + 1, n, rows, n);
    assert (i + 1) * n == i * n + n;
  }

  function Neuron(x: seq<int>, w: seq<int>, b: seq<int>, i: nat): int
    requires i < |b| && |w| == |b| * |x|
  {
    RowFits(i, |b|, |x|);
    Dot(x, w, i * |x|, |x|) + b[i]
  }

  function Layer(x: seq<int>, w: seq<int>, b: seq<int>): (y: seq<int>)
    requires |w| == |b| * |x|
    ensures |y| == |b|
  {
    seq(|b|, i requires 0 <= i < |b| => Neuron(x, w, b, i))
  }

  function Relu(v: int): (r: int)
    ensures (v >= 0 ==> r == v) && (v <= 0 ==> r == 0)
  {
    if v <= 0 then 0 else v
  }

  function ReluAll(y: seq<int>): (r: seq<int>)
    ensures |r| == |y|
  {
    seq(|y|, i requires 0 <= i < |y| => Relu(y[i]))
  }

  /** What 32 bits keep of every value. */
  function Cut(y: seq<int>): (r: seq<int>)
    ensures |r| == |y|
  {
    seq(|y|, i requires 0 <= i < |y| => Int32(y[i]))
  }

  /** `k` is the least index of a largest value. */
  predicate FirstMaximum(y: seq<int>, k: nat)
  {
    k < |y| && (forall i :: 0 <= i < |y| ==> y[i] <= y[k]) && (forall i :: 0 <= i < k ==> y[i] < y[k])
  }

  /** There is only one such index. */
  lemma FirstMaximumOnce(y: seq<int>, j: nat, k: nat)
    requires FirstMaximum(y, j) && FirstMaximum(y, k)
    ensures j == k
  {
    assert y[j] == y[k];
  }

  /** Cutting a sum at the end is the same as cutting it on the way. */
  lemma CutSum(a: int, b: int)
    ensures Int32(Int32(a) + b) == Int32(a + b)
  {
    var q := (a + 0x8000_0000) / 0x1_0000_0000;
    assert Int32(a) == a - q * 0x1_0000_0000;
    assert Int32(a) + b == a + b - q * 0x1_0000_0000;
    CutMultiple(a + b, q);
  }

  lemma CutMultiple(a: int, q: int)
    ensures Int32(a - q * 0x1_0000_0000) == Int32(a)
  {
    var v := a + 0x8000_0000;
    var k, r := v / 0x1_0000_0000, v % 0x1_0000_0000;
    assert v - q * 0x1_0000_0000 == (k - q) * 0x1_0000_0000 + r;
  }

  // ----- The loops -------------------------------------------------------------------------------------------

  /** Accumulator `i` after its whole row. */
  predicate RowDone(layer: seq<int>, x: seq<int>, w: seq<int>, i: nat)
    requires i < |layer| && |w| == |layer| * |x|
  {
    RowFits(i, |layer|, |x|);
    layer[i] == Int32(Dot(x, w, i * |x|, |x|))
  }

  /** The multiply-accumulate loops of one layer, with one index running through all weights. */
  method Accumulate(layer: array<int>, x: seq<int>, w: seq<int>)
    requires |w| == layer.Length * |x| && forall i :: 0 <= i < layer.Length ==> layer[i] == 0
    modifies layer
    ensures forall i :: 0 <= i < layer.Length ==> RowDone(layer[..], x, w, i)
  {
    var rows, n := layer.Length, |x|;
    var weightIndex := 0;
    var i := 0;
    while i < rows
      invariant 0 <= i <= rows && weightIndex == i * n
      invariant forall k :: 0 <= k < i ==> RowDone(layer[..], x, w, k)
      invariant forall k :: i <= k < rows ==> layer[k] == 0
    {
      ghost var before := layer[..];
      weightIndex := AccumulateRow(layer, x, w, i, weightIndex);
      forall k | 0 <= k < i + 1 ensures RowDone(layer[..], x, w, k) {
        if k < i {
          assert RowDone(before, x, w, k);
        }
      }
      i := i + 1;
    }
  }

  /** The inner loop: one row of weights. */
  method AccumulateRow(layer: array<int>, x: seq<int>, w: seq<int>, i: nat, from: nat) returns (weightIndex: nat)
    requires |w| == layer.Length * |x| && i < layer.Length && from == i * |x| && layer[i] == 0
    modifies layer
    ensures weightIndex == (i + 1) * |x|
    ensures layer[..] == old(layer[..])[i := layer[i]] && RowDone(layer[..], x, w, i)
  {
    RowFits(i, layer.Length, |x|);
    weightIndex := from;
    var p := 0;
    while p < |x|
      invariant 0 <= p <= |x| && weightIndex == from + p
      invariant layer[i] == Int32(Dot(x, w, from, p)) && layer[..] == old(layer[..])[i := layer[i]]
    {
      CutSum(Dot(x, w, from, p), x[p] * w[weightIndex]);
      hide Int32;
      layer[i] := Int32(layer[i] + x[p] * w[weightIndex]);
      weightIndex := weightIndex + 1;
      p := p + 1;
    }
    assert (i + 1) * |x| == i * |x| + |x|;
  }

  lemma BiasedRow(sums: seq<int>, x: seq<int>, w: seq<int>, b: seq<int>, i: nat)
    requires i < |sums| == |b| && |w| == |b| * |x| && RowDone(sums, x, w, i)
    ensures Int32(sums[i] + b[i]) == Int32(Neuron(x, w, b, i))
  {
    RowFits(i, |b|, |x|);
    CutSum(Dot(x, w, i * |x|, |x|), b[i]);
    hide Int32; hide Dot;
  }

  /** Multiply, accumulate and add the biases: one layer, cut to 32 bits. */
  method DenseLayer(x: seq<int>, w: seq<int>, b: seq<int>) returns (layer: array<int>)
    requires |w| == |b| * |x|
    ensures fresh(layer) && layer[..] == Cut(Layer(x, w, b))
  {
    layer := new int[|b|](_ => 0);
    Accumulate(layer, x, w);
    ghost var sums := layer[..];
    hide RowDone; hide Neuron; hide Int32;
    var i := 0;
    while i < |b|
      invariant 0 <= i <= |b|
      invariant forall k :: 0 <= k < i ==> layer[k] == Int32(Neuron(x, w, b, k))
      invariant forall k :: i <= k < |b| ==> layer[k] == sums[k]
    {
      assert RowDone(sums, x, w, i);
      BiasedRow(sums, x, w, b, i);
      layer[i] := Int32(layer[i] + b[i]);
      i := i + 1;
    }
  }

  method ApplyRelu(layer: array<int>)
    modifies layer
    ensures layer[..] == ReluAll(old(layer[..]))
  {
    var i := 0;
    while i < layer.Length
      invariant 0 <= i <= layer.Length
      invariant forall k :: 0 <= k < i ==> layer[k] == Relu(old(layer[k]))
      invariant forall k :: i <= k < layer.Length ==> layer[k] == old(layer[k])
    {
      if layer[i] <= 0 {
        layer[i] := 0;
      }
      i := i + 1;
    }
  }

  method FindMaximum(layer: array<int>) returns (result: nat)
    requires layer.Length > 0
    ensures FirstMaximum(layer[..], result)
  {
    var resultNum := layer[0];
    result := 0;
    var i := 0;
    while i < layer.Length
      invariant 0 <= i <= layer.Length && result < layer.Length && resultNum == layer[result]
          && (result < i || result == 0)
      invariant forall k :: 0 <= k < i ==> layer[k] <= resultNum
      invariant forall k :: 0 <= k < result ==> layer[k] < resultNum
    {
      if layer[i] > resultNum {
        result := i;
        resultNum := layer[i];
      }
      i := i + 1;
    }
  }

  // ----- The whole inference -----------------------------------------------------------------------------------

  /** Pixels and first-layer weights of one byte, biases well within 32 bits: the first layer is exact. */
  predicate ByteSized(x: seq<int>, w: seq<int>, b: seq<int>)
  {
    && (forall p :: 0 <= p < |x| ==> 0 <= x[p] <= 255)
    && (forall k :: 0 <= k < |w| ==> -128 <= w[k] <= 127)
    && (forall i :: 0 <= i < |b| ==> -0x10_0000 <= b[i] <= 0x10_0000)
  }

  lemma {:induction false} DotBound(x: seq<int>, w: seq<int>, base: nat, n: nat)
    requires n <= |x| && base + n <= |w|
    requires forall p :: 0 <= p < |x| ==> 0 <= x[p] <= 255
    requires forall k :: 0 <= k < |w| ==> -128 <= w[k] <= 127
    ensures -0x7F80 * n <= Dot(x, w, base, n) <= 0x7F80 * n
  {
    if n > 0 {
      DotBound(x, w, base, n - 1);
      ProductBound(x[n - 1], w[base + n - 1], 255, 128);
    }
  }

  /** The first layer never loses a bit. */
  lemma FirstLayerExact(x: seq<int>, w: seq<int>, b: seq<int>)
    requires |x| == INPUTS && |w| == |b| * |x| && ByteSized(x, w, b)
    ensures Cut(Layer(x, w, b)) == Layer(x, w, b)
  {
    forall i | 0 <= i < |b| ensures Int32(Neuron(x, w, b, i)) == Neuron(x, w, b, i) {
      RowFits(i, |b|, |x|);
      DotBound(x, w, i * |x|, |x|);
      hide Dot; hide Int32;
    }
  }

  /** The output values of the network: two layers with a rectifier between them. */
  function Outputs(x: seq<int>, w1: seq<int>, b1: seq<int>, w2: seq<int>, b2: seq<int>): (y: seq<int>)
    requires |w1| == |b1| * |x| && |w2| == |b2| * |b1|
    ensures |y| == |b2|
  {
    Layer(ReluAll(Layer(x, w1, b1)), w2, b2)
  }

  predicate FitsAll(y: seq<int>)
  {
    forall i :: 0 <= i < |y| ==> INT_MIN <= y[i] <= INT_MAX
  }

  // ----- A bound on the weights --------------------------------------------------------------------------------

  function Above(v: int): (p: int)
    ensures p >= 0 && p >= v
  {
    if v > 0 then v else 0
  }

  function Under(v: int): (p: int)
    ensures p <= 0 && p <= v
  {
    if v < 0 then v else 0
  }

  /** The largest product of a row of weights with values that lie between 0 and the given tops. */
  function High(top: seq<int>, w: seq<int>, base: nat, n: nat): int
    requires n <= |top| && base + n <= |w|
  {
    if n == 0 then 0 else High(top, w, base, n - 1) + top[n - 1] * Above(w[base + n - 1])
  }

  /** The smallest such product. */
  function Low(top: seq<int>, w: seq<int>, base: nat, n: nat): int
    requires n <= |top| && base + n <= |w|
  {
    if n == 0 then 0 else Low(top, w, base, n - 1) + top[n - 1] * Under(w[base + n - 1])
  }

  /** All values lie between 0 and their tops. */
  predicate Boxed(x: seq<int>, top: seq<int>)
  {
    |x| == |top| && forall p :: 0 <= p < |x| ==> 0 <= x[p] <= top[p]
  }

  lemma TermBetween(x: int, top: int, w: int)
    requires 0 <= x <= top
    ensures top * Under(w) <= x * w <= top * Above(w)
  {
    if w >= 0 {
      MulBound(x, w, top, w);
    } else {
      MulBound(x, -w, top, -w);
      assert x * -w == -(x * w) && top * -w == -(top * w);
    }
  }

  lemma {:induction false} DotBetween(x: seq<int>, top: seq<int>, w: seq<int>, base: nat, n: nat)
    requires Boxed(x, top) && n <= |x| && base + n <= |w|
    ensures Low(top, w, base, n) <= Dot(x, w, base, n) <= High(top, w, base, n)
  {
    hide Above; hide Under;
    if n > 0 {
      DotBetween(x, top, w, base, n - 1);
      TermBetween(x[n - 1], top[n - 1], w[base + n - 1]);
    }
  }

  /** The values that make a row's product largest, or smallest: the top where the weight pulls that way, else 0. */
  function Extreme(top: seq<int>, w: seq<int>, base: nat, high: bool): (x: seq<int>)
    requires base + |top| <= |w|
    ensures |x| == |top|
  {
    seq(|top|, p requires 0 <= p < |top| => if (w[base + p] > 0) == high then top[p] else 0)
  }

  lemma {:induction false} ExtremeReached(top: seq<int>, w: seq<int>, base: nat, n: nat, high: bool)
    requires n <= |top| && base + |top| <= |w|
    ensures Dot(Extreme(top, w, base, high), w, base, n) == if high then High(top, w, base, n) else Low(top, w, base, n)
    decreases n
  {
    if n > 0 {
      ExtremeReached(top, w, base, n - 1, high);
    }
  }

  /** Every value of the layer fits 32 bits, at the extremes of its inputs. */
  predicate RowsFit(top: seq<int>, w: seq<int>, b: seq<int>)
    requires |w| == |b| * |top|
  {
    forall i :: 0 <= i < |b| ==> RowWithin(top, w, b, i)
  }

  predicate RowWithin(top: seq<int>, w: seq<int>, b: seq<int>, i: nat)
    requires |w| == |b| * |top| && i < |b|
  {
    RowFits(i, |b|, |top|);
    INT_MIN <= Low(top, w, i * |top|, |top|) + b[i] && High(top, w, i * |top|, |top|) + b[i] <= INT_MAX
  }

  predicate FitsAt(x: seq<int>, w: seq<int>, b: seq<int>, i: nat)
    requires |w| == |b| * |x| && i < |b|
  {
    INT_MIN <= Neuron(x, w, b, i) <= INT_MAX
  }

  /** The exact condition on a layer: its values fit 32 bits for all inputs up to the tops if and only if they do at
      the extremes, which its weights and biases determine. */
  lemma RowFitsIff(top: seq<int>, w: seq<int>, b: seq<int>, i: nat)
    requires |w| == |b| * |top| && i < |b| && forall p :: 0 <= p < |top| ==> top[p] >= 0
    ensures RowWithin(top, w, b, i) <==> forall x :: Boxed(x, top) ==> FitsAt(x, w, b, i)
  {
    RowFits(i, |b|, |top|);
    var base := i * |top|;
    if RowWithin(top, w, b, i) {
      forall x | Boxed(x, top) ensures FitsAt(x, w, b, i) {
        DotBetween(x, top, w, base, |top|);
      }
    }
    if forall x :: Boxed(x, top) ==> FitsAt(x, w, b, i) {
      var least, most := Extreme(top, w, base, false), Extreme(top, w, base, true);
      ExtremeReached(top, w, base, |top|, false);
      ExtremeReached(top, w, base, |top|, true);
      assert Boxed(least, top) && Boxed(most, top);
      assert FitsAt(least, w, b, i) && FitsAt(most, w, b, i);
    }
  }

  /** The brightest image. */
  function Bright(n: nat): (x: seq<int>)
    ensures |x| == n
  {
    seq(n, _ => 255)
  }

  /** The largest value of each rectified neuron over all images of byte-sized pixels. */
  function Peaks(n: nat, w: seq<int>, b: seq<int>): (top: seq<int>)
    requires |w| == |b| * n
    ensures |top| == |b| && forall i :: 0 <= i < |b| ==> top[i] >= 0
  {
    seq(|b|, i requires 0 <= i < |b| => Peak(n, w, b, i))
  }

  function Peak(n: nat, w: seq<int>, b: seq<int>, i: nat): (v: int)
    requires |w| == |b| * n && i < |b|
    ensures v >= 0
  {
    RowFits(i, |b|, n);
    Relu(High(Bright(n), w, i * n, n) + b[i])
  }

  /** No image exceeds the peak, and some image reaches it. */
  lemma PeakIsMaximum(n: nat, w: seq<int>, b: seq<int>, i: nat)
    requires |w| == |b| * n && i < |b|
    ensures forall x :: Boxed(x, Bright(n)) ==> Relu(Neuron(x, w, b, i)) <= Peak(n, w, b, i)
    ensures exists x :: Boxed(x, Bright(n)) && Relu(Neuron(x, w, b, i)) == Peak(n, w, b, i)
  {
    RowFits(i, |b|, n);
    forall x | Boxed(x, Bright(n)) ensures Relu(Neuron(x, w, b, i)) <= Peak(n, w, b, i) {
      DotBetween(x, Bright(n), w, i * n, n);
    }
    var most := Extreme(Bright(n), w, i * n, true);
    ExtremeReached(Bright(n), w, i * n, n, true);
    assert Boxed(most, Bright(n));
  }

  /** What a caller can check on the weights and biases alone: even at the neurons' peaks no output exceeds 32 bits. */
  predicate WeightsFit(w1: seq<int>, b1: seq<int>, w2: seq<int>, b2: seq<int>)
    requires |w1| == |b1| * INPUTS && |w2| == |b2| * |b1|
  {
    RowsFit(Peaks(INPUTS, w1, b1), w2, b2)
  }

  /** Then all outputs fit 32 bits, for every image. */
  lemma OutputsFit(x: seq<int>, w1: seq<int>, b1: seq<int>, w2: seq<int>, b2: seq<int>)
    requires |x| == INPUTS && |w1| == |b1| * |x| && |w2| == |b2| * |b1| && Boxed(x, Bright(INPUTS))
    requires WeightsFit(w1, b1, w2, b2)
    ensures FitsAll(Outputs(x, w1, b1, w2, b2))
  {
    var hidden, top := ReluAll(Layer(x, w1, b1)), Peaks(INPUTS, w1, b1);
    hide Neuron; hide Peak; hide FitsAt; hide RowWithin;
    forall j | 0 <= j < |hidden| ensures 0 <= hidden[j] <= top[j] {
      PeakIsMaximum(INPUTS, w1, b1, j);
    }
    assert Boxed(hidden, top);
    forall i | 0 <= i < |b2| ensures INT_MIN <= Outputs(x, w1, b1, w2, b2)[i] <= INT_MAX {
      assert RowWithin(top, w2, b2, i);
      RowFitsIff(top, w2, b2, i);
      FitsAtMeans(hidden, w2, b2, i);
    }
  }

  lemma FitsAtMeans(x: seq<int>, w: seq<int>, b: seq<int>, i: nat)
    requires |w| == |b| * |x| && i < |b| && FitsAt(x, w, b, i)
    ensures INT_MIN <= Neuron(x, w, b, i) <= INT_MAX
  {
  }

  /** calculateNNCPU: the first largest of the network's outputs as 32 bits hold them, and so of the outputs
      themselves whenever they fit, which they do for every image if the weights meet WeightsFit. */
  method CalculateNNCPU(x: seq<int>, w1: seq<int>, b1: seq<int>, w2: seq<int>, b2: seq<int>) returns (result: nat)
    requires |x| == 784 && |b1| == 100 && |b2| == 10 && |w1| == |b1| * |x| && |w2| == |b2| * |b1|
    requires ByteSized(x, w1, b1)
    ensures FirstMaximum(Cut(Outputs(x, w1, b1, w2, b2)), result)
    ensures FitsAll(Outputs(x, w1, b1, w2, b2)) ==> FirstMaximum(Outputs(x, w1, b1, w2, b2), result)
    ensures WeightsFit(w1, b1, w2, b2) ==> FirstMaximum(Outputs(x, w1, b1, w2, b2), result)
  {
    if WeightsFit(w1, b1, w2, b2) {
      OutputsFit(x, w1, b1, w2, b2);
    }
    hide Layer; hide WeightsFit;
    var layer1 := DenseLayer(x, w1, b1);
    FirstLayerExact(x, w1, b1);
    ApplyRelu(layer1);
    assert layer1[..] == ReluAll(Layer(x, w1, b1));
    var layer2 := DenseLayer(layer1[..], w2, b2);
    ghost var y := Outputs(x, w1, b1, w2, b2);
    if FitsAll(y) {
      assert Cut(y) == y;
    }
    result := FindMaximum(layer2);
  }

  // ----- Weights that lose bits ----------------------------------------------------------------------------------

  function Constant(n: nat, v: int): (q: seq<int>)
    ensures |q| == n && forall k :: 0 <= k < n ==> q[k] == v
  {
    seq(n, _ => v)
  }

  /** The first output takes 127 times the first hidden neuron; everything else is 0. */
  function OneWeight(): (w: seq<int>)
    ensures |w| == OUTPUTS * HIDDEN && w[0] == 127 && forall k :: 1 <= k < |w| ==> w[k] == 0
  {
    [127] + Constant(OUTPUTS * HIDDEN - 1, 0)
  }

  lemma {:induction false} ConstantDot(x: seq<int>, w: seq<int>, base: nat, n: nat, a: int, b: int)
    requires n <= |x| && base + n <= |w| && forall p :: 0 <= p < |x| ==> x[p] == a
    requires forall k :: base <= k < base + n ==> w[k] == b
    ensures Dot(x, w, base, n) == n * (a * b)
  {
    if n > 0 {
      ConstantDot(x, w, base, n - 1, a, b);
      assert (n - 1) * (a * b) + a * b == n * (a * b);
    }
  }

  lemma {:induction false} OnlyFirst(x: seq<int>, w: seq<int>, n: nat)
    requires 1 <= n <= |x| && n <= |w| && forall k :: 1 <= k < n ==> w[k] == 0
    ensures Dot(x, w, 0, n) == x[0] * w[0]
  {
    if n > 1 {
      OnlyFirst(x, w, n - 1);
    }
  }

  const BRIGHTEST: int := 784 * (255 * 127)

  lemma HiddenConstant()
    ensures ReluAll(Layer(Bright(INPUTS), Constant(HIDDEN * INPUTS, 127), Constant(HIDDEN, 0)))
        == Constant(HIDDEN, BRIGHTEST)
  {
    var x, w, b := Bright(INPUTS), Constant(HIDDEN * INPUTS, 127), Constant(HIDDEN, 0);
    forall i | 0 <= i < HIDDEN ensures Relu(Neuron(x, w, b, i)) == BRIGHTEST {
      RowFits(i, HIDDEN, INPUTS);
      ConstantDot(x, w, i * INPUTS, INPUTS, 255, 127);
    }
  }

  lemma OutputsConstant(y: seq<int>)
    requires y == Layer(Constant(HIDDEN, BRIGHTEST), OneWeight(), Constant(OUTPUTS, 0))
    ensures |y| == OUTPUTS && y[0] == BRIGHTEST * 127 && forall i :: 1 <= i < OUTPUTS ==> y[i] == 0
  {
    var h, w, b := Constant(HIDDEN, BRIGHTEST), OneWeight(), Constant(OUTPUTS, 0);
    OnlyFirst(h, w, HIDDEN);
    assert Neuron(h, w, b, 0) == BRIGHTEST * 127;
    forall i | 1 <= i < OUTPUTS ensures Neuron(h, w, b, i) == 0 {
      RowFits(i, OUTPUTS, HIDDEN);
      ConstantDot(h, w, i * HIDDEN, HIDDEN, BRIGHTEST, 0);
    }
  }

  /** Byte-sized pixels and weights do not suffice: with a white image, all first-layer weights 127, and a single
      second-layer weight of 127, the network's answer is 0, and what 32 bits keep of the outputs answers 1. */
  lemma BytesDoNotSuffice()
    ensures var x, w1, b1 := Bright(INPUTS), Constant(HIDDEN * INPUTS, 127), Constant(HIDDEN, 0);
            var y := Outputs(x, w1, b1, OneWeight(), Constant(OUTPUTS, 0));
            && ByteSized(x, w1, b1) && !FitsAll(y)
            && (forall k :: FirstMaximum(y, k) <==> k == 0)
            && (forall k :: FirstMaximum(Cut(y), k) <==> k == 1)
  {
    var x, w1, b1 := Bright(INPUTS), Constant(HIDDEN * INPUTS, 127), Constant(HIDDEN, 0);
    HiddenConstant();
    var y := Outputs(x, w1, b1, OneWeight(), Constant(OUTPUTS, 0));
    OutputsConstant(y);
    hide Layer; hide ReluAll; hide Outputs; hide OneWeight;
    assert y[0] > INT_MAX && Cut(y)[0] < 0 && forall i :: 1 <= i < OUTPUTS ==> Cut(y)[i] == 0;
    assert FirstMaximum(y, 0) && FirstMaximum(Cut(y), 1);
    forall k | FirstMaximum(y, k) ensures k == 0 {
      FirstMaximumOnce(y, 0, k);
    }
    forall k | FirstMaximum(Cut(y), k) ensures k == 1 {
      FirstMaximumOnce(Cut(y), 1, k);
    }
  }
}
