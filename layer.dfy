/** One fully connected layer: a row-major weight array (row = output node), a bias per
    output node and an activation function. */
module Layers {
  import opened Support
  import opened Activations

  /** The values a layer holds, as the specification functions see them. */
  datatype LayerParams = LayerParams(
    numInputs: nat,
    numOutputs: nat,
    weights: seq<real>,
    biases: seq<real>,
    activation: Activation)

  /** The shape the constructor gives a layer: in*out weights and out biases. */
  predicate WellShaped(p: LayerParams)
  {
    |p.weights| == p.numInputs * p.numOutputs && |p.biases| == p.numOutputs
  }

  /** nodeOut * in + nodeIn lies inside the weight array for every valid pair of nodes. */
  lemma WeightIndexInBounds(numInputs: nat, numOutputs: nat, nodeIn: nat, nodeOut: nat)
    requires nodeIn < numInputs && nodeOut < numOutputs
    ensures nodeOut * numInputs + nodeIn < numInputs * numOutputs
  {
    assert nodeOut + 1 <= numOutputs;
    MultiplyMonotone(nodeOut + 1, numOutputs, numInputs);
    assert (nodeOut + 1) * numInputs == nodeOut * numInputs + numInputs;
  }

  lemma MultiplyMonotone(a: nat, b: nat, c: nat)
    requires a <= b
    ensures a * c <= b * c
  {
  }

  /** Distinct pairs of nodes use distinct weights: the row-major index is injective. */
  lemma WeightIndexInjective(numInputs: nat, i1: nat, o1: nat, i2: nat, o2: nat)
    requires i1 < numInputs && i2 < numInputs
    requires o1 * numInputs + i1 == o2 * numInputs + i2
    ensures i1 == i2 && o1 == o2
  {
    RowsSeparate(numInputs, i1, o1, o2);
    RowsSeparate(numInputs, i2, o2, o1);
  }

  /** Every index of an earlier row lies below the start of a later row. */
  lemma RowsSeparate(numInputs: nat, nodeIn: nat, o1: nat, o2: nat)
    requires nodeIn < numInputs
    ensures o1 < o2 ==> o1 * numInputs + nodeIn < o2 * numInputs
  {
    MultiplyMonotone(o1 + 1, if o1 < o2 then o2 else o1 + 1, numInputs);
    assert (o1 + 1) * numInputs == o1 * numInputs + numInputs;
  }

  /** Every weight belongs to a pair of nodes: index k is row k / in, column k % in. */
  lemma WeightIndexCovers(numInputs: nat, numOutputs: nat, k: nat)
    requires k < numInputs * numOutputs
    ensures numInputs > 0
    ensures k % numInputs < numInputs && k / numInputs < numOutputs
    ensures (k / numInputs) * numInputs + k % numInputs == k
  {
    if k / numInputs >= numOutputs {
      MultiplyMonotone(numOutputs, k / numInputs, numInputs);
      assert false;
    }
  }

  /** Equal factors give equal products. */
  lemma SameProduct(a: real, b: real, c: real, d: real)
    requires a == c && b == d
    ensures a * b == c * d
  {
  }

  /** GetWeight(nodeIn, nodeOut) on the parameter values. */
  function Weight(p: LayerParams, nodeIn: nat, nodeOut: nat): real
    requires WellShaped(p) && nodeIn < p.numInputs && nodeOut < p.numOutputs
  {
    WeightIndexInBounds(p.numInputs, p.numOutputs, nodeIn, nodeOut);
    p.weights[nodeOut * p.numInputs + nodeIn]
  }

  /** The running value of weightedInput for output nodeOut after the first k inputs. */
  function WeightedInput(p: LayerParams, inputs: seq<real>, nodeOut: nat, k: nat): real
    requires WellShaped(p) && nodeOut < p.numOutputs && k <= p.numInputs <= |inputs|
  {
    if k == 0 then p.biases[nodeOut]
    else WeightedInput(p, inputs, nodeOut, k - 1) + inputs[k - 1] * Weight(p, k - 1, nodeOut)
  }

  /** The weighted inputs of all output nodes, before activation. */
  function PreActivations(p: LayerParams, inputs: seq<real>): (r: seq<real>)
    requires WellShaped(p) && p.numInputs <= |inputs|
    ensures |r| == p.numOutputs
  {
    seq(p.numOutputs, o requires 0 <= o < p.numOutputs => WeightedInput(p, inputs, o, p.numInputs))
  }

  /** What CalculateOutputs returns. */
  function Outputs(p: LayerParams, exp: ExpFn, inputs: seq<real>): (r: seq<real>)
    requires WellShaped(p) && p.numInputs <= |inputs|
    ensures |r| == p.numOutputs
  {
    ActivateAll(p.activation, exp, PreActivations(p, inputs))
  }

  /** The products inputs[k] * GetWeight(k, nodeOut) of the first n inputs. */
  function Products(p: LayerParams, inputs: seq<real>, nodeOut: nat, n: nat): (r: seq<real>)
    requires WellShaped(p) && nodeOut < p.numOutputs && n <= p.numInputs <= |inputs|
    ensures |r| == n
  {
    seq(n, k requires 0 <= k < n => inputs[k] * Weight(p, k, nodeOut))
  }

  /** The value of output o before activation is biases[o] + the sum of inputs[k] * GetWeight(k, o). */
  lemma {:induction false} WeightedInputIsBiasPlusSum(p: LayerParams, inputs: seq<real>, nodeOut: nat, k: nat)
    requires WellShaped(p) && nodeOut < p.numOutputs && k <= p.numInputs <= |inputs|
    ensures WeightedInput(p, inputs, nodeOut, k) == p.biases[nodeOut] + Sum(Products(p, inputs, nodeOut, k))
  {
    if k > 0 {
      WeightedInputIsBiasPlusSum(p, inputs, nodeOut, k - 1);
      assert Products(p, inputs, nodeOut, k)[..k - 1] == Products(p, inputs, nodeOut, k - 1);
    }
  }

  /** The weighted input reads nothing of inputs beyond the first k entries. */
  lemma {:induction false} WeightedInputReadsPrefix(p: LayerParams, a: seq<real>, b: seq<real>, nodeOut: nat, k: nat)
    requires WellShaped(p) && nodeOut < p.numOutputs && k <= p.numInputs <= |a| && p.numInputs <= |b|
    requires a[..p.numInputs] == b[..p.numInputs]
    ensures WeightedInput(p, a, nodeOut, k) == WeightedInput(p, b, nodeOut, k)
  {
    if k > 0 {
      WeightedInputReadsPrefix(p, a, b, nodeOut, k - 1);
      assert a[k - 1] == a[..p.numInputs][k - 1];
      assert b[k - 1] == b[..p.numInputs][k - 1];
    }
  }

  /** CalculateOutputs ignores every input past the first numInputs. */
  lemma OutputsIgnoreExtraInputs(p: LayerParams, exp: ExpFn, inputs: seq<real>)
    requires WellShaped(p) && p.numInputs <= |inputs|
    ensures Outputs(p, exp, inputs) == Outputs(p, exp, inputs[..p.numInputs])
  {
    var short := inputs[..p.numInputs];
    assert short[..p.numInputs] == inputs[..p.numInputs];
    forall o | 0 <= o < p.numOutputs
      ensures WeightedInput(p, inputs, o, p.numInputs) == WeightedInput(p, short, o, p.numInputs)
    {
      WeightedInputReadsPrefix(p, inputs, short, o, p.numInputs);
    }
    assert PreActivations(p, inputs) == PreActivations(p, short);
  }

  /** A Sigmoid layer's outputs all lie in (0, 1). */
  lemma SigmoidLayerOutputsInUnitInterval(p: LayerParams, exp: ExpFn, inputs: seq<real>, o: nat)
    requires WellShaped(p) && p.numInputs <= |inputs| && p.activation == SigmoidFn
    requires o < p.numOutputs
    ensures 0.0 < Outputs(p, exp, inputs)[o] < 1.0
  {
    var pre := PreActivations(p, inputs);
    VectorFormIsScalarForm(SigmoidFn, exp, pre, o);
    SigmoidInOpenUnitInterval(exp, pre[o]);
  }

  /** A Softmax layer with at least one output yields a probability distribution. */
  lemma SoftmaxLayerSumsToOne(p: LayerParams, exp: ExpFn, inputs: seq<real>)
    requires WellShaped(p) && p.numInputs <= |inputs| && p.activation == SoftmaxFn
    requires p.numOutputs > 0
    ensures Sum(Outputs(p, exp, inputs)) == 1.0
  {
    SoftmaxSumsToOne(exp, PreActivations(p, inputs));
  }

  /** The weights Mutate leaves behind: it adds amount*sign to weights[i] for every i it
      reaches, and it reaches i = |biases| (where biases[i] throws) when that is a weight index. */
  function MutatedWeights(w: seq<real>, biasCount: nat, amount: real, negative: nat -> bool): (r: seq<real>)
    ensures |r| == |w|
  {
    seq(|w|, i requires 0 <= i < |w| => if i <= biasCount then w[i] + amount * Sign(negative(i)) else w[i])
  }

  /** The biases Mutate leaves behind: draw(i)*sign is added for every i below both lengths. */
  function MutatedBiases(b: seq<real>, weightCount: nat, negative: nat -> bool, draw: nat -> real): (r: seq<real>)
    ensures |r| == |b|
  {
    seq(|b|, i requires 0 <= i < |b| => if i < weightCount then b[i] + draw(i) * Sign(negative(i)) else b[i])
  }

  /** The random sign: -1 when NextDouble() < .5, else +1. */
  function Sign(negative: bool): (r: real)
    ensures r == 1.0 || r == -1.0
  {
    if negative then -1.0 else 1.0
  }

  /** The weights once Mutate has updated the first reach of them and stopped. */
  lemma WeightsAfterMutate(cur: seq<real>, w: seq<real>, reach: nat, biasCount: nat,
                           amount: real, negative: nat -> bool)
    requires |cur| == |w| && reach == if |w| <= biasCount then |w| else biasCount + 1
    requires forall k :: 0 <= k < |cur| ==>
      cur[k] == if k < reach then w[k] + amount * Sign(negative(k)) else w[k]
    ensures cur == MutatedWeights(w, biasCount, amount, negative)
  {
  }

  /** The biases once Mutate has updated the first reach of them and stopped. */
  lemma BiasesAfterMutate(cur: seq<real>, b: seq<real>, reach: nat, weightCount: nat,
                          negative: nat -> bool, draw: nat -> real)
    requires |cur| == |b| && reach == if weightCount <= |b| then weightCount else |b|
    requires forall k :: 0 <= k < |cur| ==>
      cur[k] == if k < reach then b[k] + draw(k) * Sign(negative(k)) else b[k]
    ensures cur == MutatedBiases(b, weightCount, negative, draw)
  {
  }

  /** Mutate(0) leaves every weight where it was. */
  lemma MutateZeroKeepsWeights(w: seq<real>, biasCount: nat, negative: nat -> bool)
    ensures MutatedWeights(w, biasCount, 0.0, negative) == w
  {
  }

  /** When Mutate runs to the end, every weight has moved by exactly amount, up or down. */
  lemma MutatedWeightsMoveByAmount(w: seq<real>, biasCount: nat, amount: real, negative: nat -> bool, i: nat)
    requires |w| <= biasCount && i < |w|
    ensures MutatedWeights(w, biasCount, amount, negative)[i] == w[i] + amount
         || MutatedWeights(w, biasCount, amount, negative)[i] == w[i] - amount
  {
    assert MutatedWeights(w, biasCount, amount, negative)[i] == w[i] + amount * Sign(negative(i));
  }

  /** A layer of the constructor's shape with at least two inputs always makes Mutate throw:
      it has more weights than biases. */
  lemma ShapedMutateFails(p: LayerParams)
    requires WellShaped(p) && p.numInputs >= 2 && p.numOutputs >= 1
    ensures |p.weights| > |p.biases|
  {
    MultiplyMonotone(2, p.numInputs, p.numOutputs);
  }

  /** The element-wise average MergeLayers computes, over the first argument's length. */
  function Average(mine: seq<real>, other: seq<real>): (r: seq<real>)
    requires |mine| <= |other|
    ensures |r| == |mine|
  {
    seq(|mine|, i requires 0 <= i < |mine| => (other[i] + mine[i]) / 2.0)
  }

  /** Merging a layer with itself gives back the same values. */
  lemma AverageSelf(s: seq<real>)
    ensures Average(s, s) == s
  {
  }

  /** Merging is symmetric when the lengths agree. */
  lemma AverageSymmetric(a: seq<real>, b: seq<real>)
    requires |a| == |b|
    ensures Average(a, b) == Average(b, a)
  {
  }

  /** Each merged value lies between the two values it came from. */
  lemma AverageBetween(a: seq<real>, b: seq<real>, i: nat)
    requires |a| <= |b| && i < |a|
    ensures a[i] <= b[i] ==> a[i] <= Average(a, b)[i] <= b[i]
    ensures b[i] <= a[i] ==> b[i] <= Average(a, b)[i] <= a[i]
  {
  }

  class Layer {
    var activation: Activation
    const numInputs: nat
    const numOutputs: nat
    var weights: array<real>
    var biases: array<real>

    /** The lengths the constructor establishes. SetWeights/SetBiases may break them. */
    ghost predicate Shaped()
      reads this`weights, this`biases
    {
      weights.Length == numInputs * numOutputs && biases.Length == numOutputs
    }

    /** The layer's current values. */
    function Params(): (p: LayerParams)
      reads this, weights, biases
      ensures p.numInputs == numInputs && p.numOutputs == numOutputs
      ensures |p.weights| == weights.Length && |p.biases| == biases.Length
      ensures Shaped() ==> WellShaped(p)
    {
      LayerParams(numInputs, numOutputs, weights[..], biases[..], activation)
    }

    /** Layer(in, out, rng): draw(i) stands for the i-th scaled normal draw of
        InitializeRandomWeights; biases start at 0 and the activation is Sigmoid. */
    constructor (numInputs: nat, numOutputs: nat, draw: nat -> real)
      ensures this.numInputs == numInputs && this.numOutputs == numOutputs
      ensures Shaped() && fresh(weights) && fresh(biases) && weights != biases
      ensures activation == SigmoidFn
      ensures weights[..] == seq(numInputs * numOutputs, i requires 0 <= i => draw(i))
      ensures biases[..] == seq(numOutputs, _ => 0.0)
    {
      this.numInputs := numInputs;
      this.numOutputs := numOutputs;
      weights := new real[numInputs * numOutputs];
      biases := new real[numOutputs](_ => 0.0);
      activation := SigmoidFn;
      new;
      InitializeRandomWeights(draw);
    }

    /** InitializeRandomWeights: every weight gets its draw; nothing else changes. */
    method InitializeRandomWeights(draw: nat -> real)
      modifies weights
      ensures weights[..] == seq(weights.Length, i requires 0 <= i => draw(i))
    {
      var i := 0;
      while i < weights.Length
        invariant 0 <= i <= weights.Length
        invariant forall k :: 0 <= k < i ==> weights[k] == draw(k)
      {
        weights[i] := draw(i);
        i := i + 1;
      }
    }

    /** GetWeight(nodeIn, nodeOut). */
    function GetWeight(nodeIn: nat, nodeOut: nat): (w: real)
      reads this, weights, biases
      requires Shaped() && nodeIn < numInputs && nodeOut < numOutputs
      ensures w == Weight(Params(), nodeIn, nodeOut)
    {
      WeightIndexInBounds(numInputs, numOutputs, nodeIn, nodeOut);
      weights[nodeOut * numInputs + nodeIn]
    }

    /** CalculateOutputs: a fresh array holding the activations of the weighted inputs.
        Nothing of the layer or of inputs changes. */
    method CalculateOutputs(inputs: array<real>, exp: ExpFn) returns (activations: array<real>)
      requires Shaped() && numInputs <= inputs.Length
      ensures fresh(activations)
      ensures activations[..] == Outputs(Params(), exp, inputs[..])
    {
      var weightedInputs := new real[numOutputs];
      var nodeOut := 0;
      while nodeOut < numOutputs
        invariant 0 <= nodeOut <= numOutputs
        invariant forall o :: 0 <= o < nodeOut ==>
          weightedInputs[o] == WeightedInput(Params(), inputs[..], o, numInputs)
      {
        weightedInputs[nodeOut] := WeightedInputOf(inputs, nodeOut);
        nodeOut := nodeOut + 1;
      }
      assert weightedInputs[..] == PreActivations(Params(), inputs[..]);
      activations := ApplyActivation(weightedInputs, exp);
    }

    /** The inner loop of CalculateOutputs: biases[nodeOut] plus the weighted inputs. */
    method WeightedInputOf(inputs: array<real>, nodeOut: nat) returns (weightedInput: real)
      requires Shaped() && numInputs <= inputs.Length && nodeOut < numOutputs
      ensures weightedInput == WeightedInput(Params(), inputs[..], nodeOut, numInputs)
    {
      ghost var p, ins := Params(), inputs[..];
      weightedInput := biases[nodeOut];
      var nodeIn := 0;
      while nodeIn < numInputs
        invariant 0 <= nodeIn <= numInputs
        invariant weightedInput == WeightedInput(p, ins, nodeOut, nodeIn)
      {
        var x, w := inputs[nodeIn], GetWeight(nodeIn, nodeOut);
        SameProduct(x, w, ins[nodeIn], Weight(p, nodeIn, nodeOut));
        weightedInput := weightedInput + x * w;
        nodeIn := nodeIn + 1;
      }
    }

    /** The activation loop of CalculateOutputs, over the weighted inputs. */
    method ApplyActivation(weightedInputs: array<real>, exp: ExpFn) returns (activations: array<real>)
      ensures fresh(activations)
      ensures activations[..] == ActivateAll(activation, exp, weightedInputs[..])
    {
      ghost var pre := weightedInputs[..];
      activations := new real[weightedInputs.Length];
      var outputNode := 0;
      while outputNode < weightedInputs.Length
        invariant 0 <= outputNode <= weightedInputs.Length
        invariant forall o :: 0 <= o < outputNode ==> activations[o] == ActivateAt(activation, exp, pre, o)
      {
        activations[outputNode] := ActivateAt(activation, exp, weightedInputs[..], outputNode);
        outputNode := outputNode + 1;
      }
    }

    /** SetWeights: the layer now uses the given array itself. */
    method SetWeights(newWeights: array<real>)
      modifies this`weights
      ensures weights == newWeights
    {
      weights := newWeights;
    }

    /** SetBiases: the layer now uses the given array itself. */
    method SetBiases(newBiases: array<real>)
      modifies this`biases
      ensures biases == newBiases
    {
      biases := newBiases;
    }

    /** SetActivationFunction. */
    method SetActivationFunction(a: Activation)
      modifies this`activation
      ensures activation == a
    {
      activation := a;
    }

    /** Mutate(amount): for each weight index i, weights[i] += amount*sign and
        biases[i] += draw(i)*sign. ok is false when biases[i] throws at i = biases.Length;
        the changes made before the throw stay. */
    method Mutate(amount: real, negative: nat -> bool, draw: nat -> real) returns (ok: bool)
      requires weights != biases
      modifies weights, biases
      ensures ok == (weights.Length <= biases.Length)
      ensures weights[..] == MutatedWeights(old(weights[..]), biases.Length, amount, negative)
      ensures biases[..] == MutatedBiases(old(biases[..]), weights.Length, negative, draw)
    {
      ghost var w0, b0 := weights[..], biases[..];
      var i := 0;
      while i < weights.Length
        invariant 0 <= i <= weights.Length && i <= biases.Length
        invariant forall k :: 0 <= k < weights.Length ==>
          weights[k] == if k < i then w0[k] + amount * Sign(negative(k)) else w0[k]
        invariant forall k :: 0 <= k < biases.Length ==>
          biases[k] == if k < i then b0[k] + draw(k) * Sign(negative(k)) else b0[k]
      {
        var random := Sign(negative(i));
        weights[i] := weights[i] + amount * random;
        if i >= biases.Length {
          ok := false;
          WeightsAfterMutate(weights[..], w0, i + 1, biases.Length, amount, negative);
          BiasesAfterMutate(biases[..], b0, i, weights.Length, negative, draw);
          return;
        }
        biases[i] := biases[i] + draw(i) * random;
        i := i + 1;
      }
      ok := true;
      WeightsAfterMutate(weights[..], w0, i, biases.Length, amount, negative);
      BiasesAfterMutate(biases[..], b0, i, weights.Length, negative, draw);
    }

    /** MergeLayers: fresh arrays of the first arguments' lengths holding the averages.
        The length warnings have no effect; a shorter other array would throw. */
    static method MergeLayers(thisWeights: array<real>, thisBiases: array<real>,
                              otherWeights: array<real>, otherBiases: array<real>)
      returns (newWeights: array<real>, newBiases: array<real>)
      requires thisWeights.Length <= otherWeights.Length && thisBiases.Length <= otherBiases.Length
      ensures fresh(newWeights) && fresh(newBiases)
      ensures newWeights[..] == Average(thisWeights[..], otherWeights[..])
      ensures newBiases[..] == Average(thisBiases[..], otherBiases[..])
    {
      newWeights := new real[thisWeights.Length];
      newBiases := new real[thisBiases.Length];
      var layerIndex := 0;
      while layerIndex < thisWeights.Length
        invariant 0 <= layerIndex <= thisWeights.Length
        invariant forall k :: 0 <= k < layerIndex ==> newWeights[k] == (otherWeights[k] + thisWeights[k]) / 2.0
      {
        newWeights[layerIndex] := (otherWeights[layerIndex] + thisWeights[layerIndex]) / 2.0;
        layerIndex := layerIndex + 1;
      }
      layerIndex := 0;
      while layerIndex < thisBiases.Length
        invariant 0 <= layerIndex <= thisBiases.Length
        invariant forall k :: 0 <= k < thisWeights.Length ==> newWeights[k] == (otherWeights[k] + thisWeights[k]) / 2.0
        invariant forall k :: 0 <= k < layerIndex ==> newBiases[k] == (otherBiases[k] + thisBiases[k]) / 2.0
      {
        newBiases[layerIndex] := (otherBiases[layerIndex] + thisBiases[layerIndex]) / 2.0;
        layerIndex := layerIndex + 1;
      }
    }
  }
}
