/** The fixed-topology network: a chain of layers, its forward pass and argmax, random
    mutation, and the save objects that snapshot it (NeuralNetwork, NeuralNetworkSave,
    ConnectionSaveData). */
module Networks {
  import opened Support
  import opened Activations
  import opened Layers

  /** The static NeuralNetwork.startID counter, held in an object that every save advances. */
  class NetworkIds {
    var startID: int

    constructor ()
      ensures startID == 1
    {
      startID := 1;
    }
  }

  /** ConnectionSaveData: the arrays of one layer, by reference, and its activation tag. */
  datatype ConnectionSaveData = ConnectionSaveData(
    weights: array<real>,
    biases: array<real>,
    activationType: ActivationType)

  /** The values a ConnectionSaveData refers to. */
  datatype SavedLayer = SavedLayer(weights: seq<real>, biases: seq<real>, activationType: ActivationType)

  /** double.MinValue, the starting maximum of MaxValueIndex. */
  const DoubleMin: real := -1.7976931348623157e308

  /** Every value is at least double.MinValue, as every finite double is. */
  predicate InDoubleRange(values: seq<real>)
  {
    forall j :: 0 <= j < |values| ==> DoubleMin <= values[j]
  }

  /** index is the first position of a largest value. */
  predicate IsFirstMax(values: seq<real>, index: nat)
  {
    index < |values| &&
    (forall j :: 0 <= j < |values| ==> values[j] <= values[index]) &&
    (forall j :: 0 <= j < index ==> values[j] < values[index])
  }

  /** Layer i takes sizes[i] inputs to sizes[i+1] outputs and has the constructor's shape. */
  predicate Chained(ps: seq<LayerParams>, sizes: seq<nat>)
  {
    |sizes| == |ps| + 1 &&
    forall i :: 0 <= i < |ps| ==>
      ps[i].numInputs == sizes[i] && ps[i].numOutputs == sizes[i + 1] && WellShaped(ps[i])
  }

  /** The layers can be applied one after the other to an input of the given width. */
  predicate Feeds(ps: seq<LayerParams>, width: nat)
    decreases |ps|
  {
    |ps| == 0 || (WellShaped(ps[0]) && ps[0].numInputs <= width && Feeds(ps[1..], ps[0].numOutputs))
  }

  /** The forward pass: each layer's outputs are the next layer's inputs. */
  function Forward(ps: seq<LayerParams>, exp: ExpFn, x: seq<real>): (r: seq<real>)
    requires Feeds(ps, |x|)
    ensures |r| == if |ps| == 0 then |x| else ps[|ps| - 1].numOutputs
    decreases |ps|
  {
    if |ps| == 0 then x else Forward(ps[1..], exp, Outputs(ps[0], exp, x))
  }

  /** One step of the forward pass: the suffix from layer i is layer i followed by the rest. */
  lemma ForwardStep(ps: seq<LayerParams>, i: nat, exp: ExpFn, x: seq<real>)
    requires i < |ps| && Feeds(ps[i..], |x|)
    ensures WellShaped(ps[i]) && ps[i].numInputs <= |x| && Feeds(ps[i + 1..], ps[i].numOutputs)
    ensures Forward(ps[i..], exp, x) == Forward(ps[i + 1..], exp, Outputs(ps[i], exp, x))
  {
    assert ps[i..][1..] == ps[i + 1..];
  }

  /** A chain whose first size fits the input can run on it. */
  lemma {:induction false} ChainedFeeds(ps: seq<LayerParams>, sizes: seq<nat>, width: nat)
    requires Chained(ps, sizes) && sizes[0] <= width
    ensures Feeds(ps, width)
    decreases |ps|
  {
    if |ps| > 0 {
      assert Chained(ps[1..], sizes[1..]) by {
        forall i | 0 <= i < |ps| - 1
          ensures ps[1..][i].numInputs == sizes[1..][i] && ps[1..][i].numOutputs == sizes[1..][i + 1]
        {
          assert ps[1..][i] == ps[i + 1];
        }
      }
      ChainedFeeds(ps[1..], sizes[1..], ps[0].numOutputs);
    }
  }

  /** Running two chains one after the other is running their concatenation. */
  lemma {:induction false} ForwardCompose(ps1: seq<LayerParams>, ps2: seq<LayerParams>, exp: ExpFn, x: seq<real>)
    requires Feeds(ps1, |x|) && Feeds(ps2, |Forward(ps1, exp, x)|)
    ensures Feeds(ps1 + ps2, |x|)
    ensures Forward(ps1 + ps2, exp, x) == Forward(ps2, exp, Forward(ps1, exp, x))
    decreases |ps1|
  {
    if |ps1| == 0 {
      assert ps1 + ps2 == ps2;
    } else {
      var y := Outputs(ps1[0], exp, x);
      assert (ps1 + ps2)[1..] == ps1[1..] + ps2;
      ForwardCompose(ps1[1..], ps2, exp, y);
    }
  }

  /** The forward pass reads only the first layer's inputs. */
  lemma ForwardIgnoresExtraInputs(ps: seq<LayerParams>, exp: ExpFn, x: seq<real>)
    requires |ps| > 0 && Feeds(ps, |x|)
    ensures Feeds(ps, ps[0].numInputs)
    ensures Forward(ps, exp, x) == Forward(ps, exp, x[..ps[0].numInputs])
  {
    OutputsIgnoreExtraInputs(ps[0], exp, x);
  }

  /** The random source of layer i. */
  function Row<T>(f: (nat, nat) -> T, i: nat): nat -> T
  {
    (k: nat) => f(i, k)
  }

  /** The layer Layer(in, out, rng) builds, with draw standing for its scaled normal draws. */
  function InitialLayer(numInputs: nat, numOutputs: nat, draw: nat -> real): (p: LayerParams)
    ensures WellShaped(p) && p.numInputs == numInputs && p.numOutputs == numOutputs
    ensures p.activation == SigmoidFn
    ensures forall o :: 0 <= o < numOutputs ==> p.biases[o] == 0.0
  {
    LayerParams(numInputs, numOutputs, seq(numInputs * numOutputs, k requires 0 <= k => draw(k)),
                seq(numOutputs, _ => 0.0), SigmoidFn)
  }

  /** The layers NeuralNetwork(layerSizes) builds. */
  function InitialParams(sizes: seq<nat>, draws: (nat, nat) -> real): (ps: seq<LayerParams>)
    requires |sizes| >= 1
    ensures |ps| == |sizes| - 1
  {
    seq(|sizes| - 1, i requires 0 <= i < |sizes| - 1 => InitialLayer(sizes[i], sizes[i + 1], Row(draws, i)))
  }

  /** The fresh layers have the shapes the sizes ask for. */
  lemma InitialParamsChained(sizes: seq<nat>, draws: (nat, nat) -> real)
    requires |sizes| >= 1
    ensures Chained(InitialParams(sizes, draws), sizes)
  {
    var ps := InitialParams(sizes, draws);
    forall i | 0 <= i < |ps|
      ensures ps[i].numInputs == sizes[i] && ps[i].numOutputs == sizes[i + 1] && WellShaped(ps[i])
    {
      assert ps[i] == InitialLayer(sizes[i], sizes[i + 1], Row(draws, i));
    }
  }

  /** What SaveNetwork records of each layer: the weights and biases, and the activation's tag. */
  function SavedOf(ps: seq<LayerParams>): (r: seq<SavedLayer>)
    ensures |r| == |ps|
  {
    seq(|ps|, i requires 0 <= i < |ps| => SavedLayer(ps[i].weights, ps[i].biases, GetActivationType(ps[i].activation)))
  }

  /** Array.Copy(src, dst, src.Length) into a layer that already holds values. */
  function CopyPrefix(src: seq<real>, dst: seq<real>): (r: seq<real>)
    requires |src| <= |dst|
    ensures |r| == |dst|
  {
    src + dst[|src|..]
  }

  /** Whether the saved arrays fit into layers of the given sizes, as Array.Copy demands. */
  predicate SavedFits(sizes: seq<nat>, saved: seq<SavedLayer>)
  {
    |sizes| >= 1 && |sizes| - 1 <= |saved| &&
    forall i :: 0 <= i < |sizes| - 1 ==>
      |saved[i].weights| <= sizes[i] * sizes[i + 1] && |saved[i].biases| <= sizes[i + 1]
  }

  /** Array.Copy of a saved layer's arrays over the front of a fresh layer's arrays. */
  function CopiedLayer(p: LayerParams, inSize: nat, outSize: nat, s: SavedLayer): (q: LayerParams)
    requires WellShaped(p) && p.numInputs == inSize && p.numOutputs == outSize
    requires |s.weights| <= inSize * outSize && |s.biases| <= outSize
    ensures q.numInputs == inSize && q.numOutputs == outSize && WellShaped(q)
  {
    p.(weights := CopyPrefix(s.weights, p.weights), biases := CopyPrefix(s.biases, p.biases))
  }

  /** One layer of LoadNewNetwork: the copied arrays, and the activation rebuilt from the saved tag. */
  function LoadedLayer(p: LayerParams, inSize: nat, outSize: nat, s: SavedLayer): (q: LayerParams)
    requires WellShaped(p) && p.numInputs == inSize && p.numOutputs == outSize
    requires |s.weights| <= inSize * outSize && |s.biases| <= outSize
    ensures q.numInputs == inSize && q.numOutputs == outSize && WellShaped(q)
  {
    CopiedLayer(p, inSize, outSize, s).(activation := GetActivationFromType(s.activationType))
  }

  /** The layers LoadNewNetwork yields from the fresh layers init of the given sizes. */
  function Loaded(init: seq<LayerParams>, sizes: seq<nat>, saved: seq<SavedLayer>): (ps: seq<LayerParams>)
    requires Chained(init, sizes) && SavedFits(sizes, saved)
    ensures Chained(ps, sizes)
  {
    seq(|init|, i requires 0 <= i < |init| => LoadedLayer(init[i], sizes[i], sizes[i + 1], saved[i]))
  }

  /** LoadNewNetwork(SaveNetwork()) gives back every size, weight, bias and activation,
      whatever the fresh network drew. */
  lemma LoadOfSaveIsIdentity(ps: seq<LayerParams>, sizes: seq<nat>, draws: (nat, nat) -> real)
    requires Chained(ps, sizes)
    ensures SavedFits(sizes, SavedOf(ps)) && Chained(InitialParams(sizes, draws), sizes)
    ensures Loaded(InitialParams(sizes, draws), sizes, SavedOf(ps)) == ps
  {
    InitialParamsChained(sizes, draws);
    SavedOfFits(ps, sizes);
    var init := InitialParams(sizes, draws);
    var saved := SavedOf(ps);
    var r := Loaded(init, sizes, saved);
    forall i | 0 <= i < |ps| ensures r[i] == ps[i] {
      assert r[i] == LoadedLayer(init[i], sizes[i], sizes[i + 1], saved[i]);
      assert saved[i] == SavedLayer(ps[i].weights, ps[i].biases, GetActivationType(ps[i].activation));
      ActivationFromOwnType(ps[i].activation);
      assert CopyPrefix(ps[i].weights, init[i].weights) == ps[i].weights;
      assert CopyPrefix(ps[i].biases, init[i].biases) == ps[i].biases;
    }
  }

  /** A save of a chain fits layers of the chain's sizes. */
  lemma SavedOfFits(ps: seq<LayerParams>, sizes: seq<nat>)
    requires Chained(ps, sizes)
    ensures SavedFits(sizes, SavedOf(ps))
  {
  }

  /** The index of the first layer whose Mutate throws (more weights than biases), or the
      number of layers when none does. */
  function FirstFailing(ps: seq<LayerParams>): (f: nat)
    ensures f <= |ps|
    ensures f < |ps| ==> |ps[f].weights| > |ps[f].biases|
    ensures forall j :: 0 <= j < f ==> |ps[j].weights| <= |ps[j].biases|
    decreases |ps|
  {
    if |ps| == 0 then 0
    else if |ps[0].weights| > |ps[0].biases| then 0
    else 1 + FirstFailing(ps[1..])
  }

  /** One layer after Layer.Mutate. */
  function MutateLayer(p: LayerParams, amount: real, negative: nat -> bool, draw: nat -> real): LayerParams
  {
    p.(weights := MutatedWeights(p.weights, |p.biases|, amount, negative),
       biases := MutatedBiases(p.biases, |p.weights|, negative, draw))
  }

  /** The layers after NeuralNetwork.Mutate: every layer up to and including the first one
      that throws is mutated; the exception leaves the later ones as they were. */
  function MutateAll(ps: seq<LayerParams>, amount: real, negative: (nat, nat) -> bool, draw: (nat, nat) -> real): (r: seq<LayerParams>)
    ensures |r| == |ps|
  {
    var failing := FirstFailing(ps);
    seq(|ps|, j requires 0 <= j < |ps| =>
      if j <= failing then MutateLayer(ps[j], amount, Row(negative, j), Row(draw, j)) else ps[j])
  }

  /** A network whose first layer has two or more inputs throws in that very layer, so Mutate
      only ever changes layer 0 of such a network. */
  lemma MutateStopsAtFirstLayer(ps: seq<LayerParams>, sizes: seq<nat>)
    requires Chained(ps, sizes) && |ps| > 0 && sizes[0] >= 2 && sizes[1] >= 1
    ensures FirstFailing(ps) == 0
  {
    ShapedMutateFails(ps[0]);
  }

  /** Mutating layer i of a network whose first i layers are mutated gives the first i + 1. */
  lemma MutateAllStep(ps: seq<LayerParams>, amount: real, negative: (nat, nat) -> bool, draw: (nat, nat) -> real,
                      i: nat, before: seq<LayerParams>)
    requires i < |ps| && i <= FirstFailing(ps)
    requires before == MutateAll(ps, amount, negative, draw)[..i] + ps[i..]
    ensures before[i := MutateLayer(ps[i], amount, Row(negative, i), Row(draw, i))] ==
      MutateAll(ps, amount, negative, draw)[..i + 1] + ps[i + 1..]
  {
    var goal := MutateAll(ps, amount, negative, draw);
    var after := before[i := MutateLayer(ps[i], amount, Row(negative, i), Row(draw, i))];
    assert after[i] == goal[i];
    forall j | 0 <= j < |ps| ensures after[j] == (goal[..i + 1] + ps[i + 1..])[j] {
      if j < i {
        assert after[j] == before[j] == goal[j];
      }
    }
  }

  /** When layer i is the one that throws, the first i + 1 mutated layers are the whole result. */
  lemma MutateAllStops(ps: seq<LayerParams>, amount: real, negative: (nat, nat) -> bool, draw: (nat, nat) -> real,
                       i: nat)
    requires i < |ps| && i <= FirstFailing(ps) && |ps[i].weights| > |ps[i].biases|
    ensures MutateAll(ps, amount, negative, draw)[..i + 1] + ps[i + 1..] == MutateAll(ps, amount, negative, draw)
  {
    var goal := MutateAll(ps, amount, negative, draw);
    FirstFailingStep(ps, i);
    forall j | i < j < |ps| ensures goal[j] == ps[j] { }
  }

  /** Loading layer i of a network whose first i layers are loaded gives the first i + 1:
      first its arrays are copied (mid), then its activation is set (after). */
  lemma LoadedStep(init: seq<LayerParams>, sizes: seq<nat>, saved: seq<SavedLayer>, i: nat,
                   before: seq<LayerParams>, mid: seq<LayerParams>, after: seq<LayerParams>)
    requires Chained(init, sizes) && SavedFits(sizes, saved) && i < |init|
    requires before == Loaded(init, sizes, saved)[..i] + init[i..]
    requires mid == before[i := CopiedLayer(before[i], sizes[i], sizes[i + 1], saved[i])]
    requires after == mid[i := mid[i].(activation := GetActivationFromType(saved[i].activationType))]
    ensures after == Loaded(init, sizes, saved)[..i + 1] + init[i + 1..]
  {
    assert before[i] == init[i];
  }

  /** Setting the activation of layer i < |ps| - 1 extends the prefix already set. */
  lemma WithActivationsStep(ps: seq<LayerParams>, activation: Activation, outputActivation: Activation,
                            i: nat, before: seq<LayerParams>)
    requires i < |ps| - 1
    requires before == WithActivations(ps, activation, outputActivation)[..i] + ps[i..]
    ensures before[i := before[i].(activation := activation)] ==
      WithActivations(ps, activation, outputActivation)[..i + 1] + ps[i + 1..]
  {
  }

  /** Setting the last layer's activation completes SetActivationFunction. */
  lemma WithActivationsLast(ps: seq<LayerParams>, activation: Activation, outputActivation: Activation,
                            before: seq<LayerParams>)
    requires |ps| >= 1
    requires before == WithActivations(ps, activation, activation)[..|ps| - 1] + ps[|ps| - 1..]
    ensures before[|ps| - 1 := before[|ps| - 1].(activation := outputActivation)] ==
      WithActivations(ps, activation, outputActivation)
  {
  }

  /** Below the first failing layer, a layer fails exactly when it is the first failing one. */
  lemma FirstFailingStep(ps: seq<LayerParams>, i: nat)
    requires i < |ps| && i <= FirstFailing(ps)
    ensures (|ps[i].weights| > |ps[i].biases|) == (FirstFailing(ps) == i)
  {
  }

  /** Mutate(0) moves no weight of any layer. */
  lemma MutateAllZeroKeepsWeights(ps: seq<LayerParams>, negative: (nat, nat) -> bool, draw: (nat, nat) -> real, j: nat)
    requires j < |ps|
    ensures MutateAll(ps, 0.0, negative, draw)[j].weights == ps[j].weights
  {
    MutateZeroKeepsWeights(ps[j].weights, |ps[j].biases|, Row(negative, j));
  }

  /** The layers after SetActivationFunction(activation, outputActivation). */
  function WithActivations(ps: seq<LayerParams>, activation: Activation, outputActivation: Activation): (r: seq<LayerParams>)
    requires |ps| >= 1
    ensures |r| == |ps|
  {
    seq(|ps|, i requires 0 <= i < |ps| =>
      ps[i].(activation := if i == |ps| - 1 then outputActivation else activation))
  }

  /** Array.Copy(src, dst, length): the first length entries of src overwrite those of dst. */
  method ArrayCopy(src: array<real>, dst: array<real>, length: nat)
    requires length <= src.Length && length <= dst.Length
    modifies dst
    ensures dst[..] == old(src[..length]) + old(dst[length..])
  {
    ghost var s0, d0 := src[..], dst[..];
    var k := 0;
    while k < length
      invariant 0 <= k <= length
      invariant forall j :: 0 <= j < k ==> dst[j] == s0[j]
      invariant forall j :: k <= j < dst.Length ==> dst[j] == d0[j]
      invariant forall j :: k <= j < src.Length ==> src[j] == s0[j]
    {
      dst[k] := src[k];
      k := k + 1;
    }
    assert dst[..] == s0[..length] + d0[length..];
  }

  /** NeuralNetworkSave: the layer sizes and connections of a network, the unchanging flag
      and the id taken from the counter at creation. */
  class NeuralNetworkSave {
    const layerSizes: array<nat>
    const connections: seq<ConnectionSaveData>
    var unchanging: bool
    const networkId: int
    /** A set holding every array the connections refer to. */
    ghost const Repr: set<array<real>>

    ghost predicate Valid()
    {
      forall i :: 0 <= i < |connections| ==> connections[i].weights in Repr && connections[i].biases in Repr
    }

    /** The values behind the saved references. */
    function Contents(): (r: seq<SavedLayer>)
      requires Valid()
      reads Repr
      ensures |r| == |connections|
    {
      seq(|connections|, i requires 0 <= i < |connections| reads Repr =>
        SavedLayer(connections[i].weights[..], connections[i].biases[..], connections[i].activationType))
    }

    /** unchanging starts true; networkId = startID++. */
    constructor (ids: NetworkIds, layerSizes: array<nat>, connections: seq<ConnectionSaveData>, ghost repr: set<array<real>>)
      requires forall i :: 0 <= i < |connections| ==> connections[i].weights in repr && connections[i].biases in repr
      modifies ids
      ensures this.layerSizes == layerSizes && this.connections == connections && Repr == repr && Valid()
      ensures unchanging
      ensures networkId == old(ids.startID) && ids.startID == old(ids.startID) + 1
    {
      this.layerSizes := layerSizes;
      this.connections := connections;
      unchanging := true;
      networkId := ids.startID;
      Repr := repr;
      new;
      ids.startID := ids.startID + 1;
    }

    /** MergeNetworks: every pair of layers is merged and the result is dropped, so neither
        save changes. A shorter other save would throw. */
    method MergeNetworks(other: NeuralNetworkSave)
      requires |connections| <= |other.connections|
      requires forall i :: 0 <= i < |connections| ==>
        connections[i].weights.Length <= other.connections[i].weights.Length &&
        connections[i].biases.Length <= other.connections[i].biases.Length
      ensures unchanged(this, other) && unchanged(Repr, other.Repr)
    {
      var i := 0;
      while i < |connections|
        invariant 0 <= i <= |connections|
      {
        var newWeights, newBiases := Layer.MergeLayers(
          connections[i].weights, connections[i].biases,
          other.connections[i].weights, other.connections[i].biases);
        i := i + 1;
      }
    }
  }

  class NeuralNetwork {
    const layers: seq<Layer>
    const layerSizes: array<nat>
    /** The weight and bias arrays of all layers. */
    ghost const Repr: set<array<real>>

    /** The shape the constructor establishes, the arrays in Repr, and no two layers sharing
        a layer or an array. */
    ghost predicate Valid()
      reads layers`weights, layers`biases, layerSizes
    {
      layerSizes.Length >= 1 && |layers| == layerSizes.Length - 1 &&
      (forall i :: 0 <= i < |layers| ==>
        layers[i].numInputs == layerSizes[i] && layers[i].numOutputs == layerSizes[i + 1] && layers[i].Shaped() &&
        layers[i].weights in Repr && layers[i].biases in Repr && layers[i].weights != layers[i].biases) &&
      (forall i, j :: 0 <= i < j < |layers| ==>
        layers[i] != layers[j] &&
        layers[i].weights != layers[j].weights && layers[i].biases != layers[j].biases &&
        layers[i].weights != layers[j].biases && layers[i].biases != layers[j].weights)
    }

    /** The values of all layers, in order. */
    function Params(): (ps: seq<LayerParams>)
      requires Valid()
      reads layers, layerSizes, Repr
      ensures |ps| == |layers|
      ensures forall i :: 0 <= i < |layers| ==> ps[i] == layers[i].Params()
    {
      seq(|layers|, i requires 0 <= i < |layers| && Valid() reads layers, layerSizes, Repr => layers[i].Params())
    }

    lemma ValidChain()
      requires Valid()
      ensures Chained(Params(), layerSizes[..])
    {
    }

    /** NeuralNetwork(layerSizes): one Sigmoid layer per consecutive pair of sizes. Layer i
        draws its weights from Row(draws, i). */
    constructor (layerSizes: array<nat>, draws: (nat, nat) -> real)
      requires layerSizes.Length >= 1
      ensures Valid() && this.layerSizes == layerSizes && fresh(Repr)
      ensures forall i :: 0 <= i < |layers| ==> fresh(layers[i])
      ensures Params() == InitialParams(layerSizes[..], draws)
    {
      var ls, repr := NewLayers(layerSizes[..], draws);
      layers := ls;
      this.layerSizes := layerSizes;
      Repr := repr;
    }

    /** The loop of the constructor: a fresh layer for every consecutive pair of sizes. */
    static method NewLayers(sizes: seq<nat>, draws: (nat, nat) -> real)
      returns (ls: seq<Layer>, ghost repr: set<array<real>>)
      requires |sizes| >= 1
      ensures |ls| == |sizes| - 1 && fresh(repr)
      ensures forall j :: 0 <= j < |ls| ==>
        fresh(ls[j]) && ls[j].weights in repr && ls[j].biases in repr && ls[j].weights != ls[j].biases &&
        ls[j].numInputs == sizes[j] && ls[j].numOutputs == sizes[j + 1] && ls[j].Shaped() &&
        ls[j].Params() == InitialLayer(sizes[j], sizes[j + 1], Row(draws, j))
      ensures forall j, k :: 0 <= j < k < |ls| ==>
        ls[j] != ls[k] &&
        ls[j].weights != ls[k].weights && ls[j].biases != ls[k].biases &&
        ls[j].weights != ls[k].biases && ls[j].biases != ls[k].weights
    {
      ls := [];
      repr := {};
      var i := 0;
      while i < |sizes| - 1
        invariant 0 <= i <= |sizes| - 1 && |ls| == i && fresh(repr)
        invariant forall j :: 0 <= j < i ==>
          fresh(ls[j]) && ls[j].weights in repr && ls[j].biases in repr && ls[j].weights != ls[j].biases &&
          ls[j].numInputs == sizes[j] && ls[j].numOutputs == sizes[j + 1] && ls[j].Shaped() &&
          ls[j].Params() == InitialLayer(sizes[j], sizes[j + 1], Row(draws, j))
        invariant forall j, k :: 0 <= j < k < i ==>
          ls[j] != ls[k] &&
          ls[j].weights != ls[k].weights && ls[j].biases != ls[k].biases &&
          ls[j].weights != ls[k].biases && ls[j].biases != ls[k].weights
      {
        var layer := new Layer(sizes[i], sizes[i + 1], Row(draws, i));
        ghost var previous := ls;
        ls := ls + [layer];
        repr := repr + {layer.weights, layer.biases};
        assert forall j :: 0 <= j < i ==> ls[j] == previous[j];
        i := i + 1;
      }
    }

    /** CalculateOutputs: each layer in turn. With no layers the input array itself comes back. */
    method CalculateOutputs(inputs: array<real>, exp: ExpFn) returns (outputs: array<real>)
      requires Valid() && layerSizes[0] <= inputs.Length
      ensures Feeds(Params(), inputs.Length)
      ensures outputs[..] == Forward(Params(), exp, inputs[..])
      ensures |layers| == 0 ==> outputs == inputs
      ensures |layers| > 0 ==> fresh(outputs) && outputs.Length == layerSizes[layerSizes.Length - 1]
    {
      ghost var ps := Params();
      ValidChain();
      ChainedFeeds(ps, layerSizes[..], inputs.Length);
      ghost var goal := Forward(ps, exp, inputs[..]);
      ghost var cur := inputs[..];
      outputs := inputs;
      var i := 0;
      while i < |layers|
        invariant 0 <= i <= |layers|
        invariant outputs[..] == cur
        invariant Feeds(ps[i..], |cur|) && Forward(ps[i..], exp, cur) == goal
        invariant i == 0 ==> outputs == inputs
        invariant i > 0 ==> fresh(outputs) && outputs.Length == layerSizes[i]
      {
        assert layers[i].Params() == ps[i];
        ForwardStep(ps, i, exp, cur);
        outputs := layers[i].CalculateOutputs(outputs, exp);
        cur := Outputs(ps[i], exp, cur);
        i := i + 1;
      }
      assert ps[|layers|..] == [];
    }

    /** MaxValueIndex: the first index of a largest value; 0 for an empty array. */
    method MaxValueIndex(values: array<real>) returns (index: nat)
      ensures values.Length == 0 ==> index == 0
      ensures values.Length > 0 ==> index < values.Length
      ensures InDoubleRange(values[..]) && values.Length > 0 ==> IsFirstMax(values[..], index)
    {
      var maxValue := DoubleMin;
      index := 0;
      var i := 0;
      while i < values.Length
        invariant 0 <= i <= values.Length
        invariant index < values.Length || index == 0
        invariant i == 0 ==> maxValue == DoubleMin && index == 0
        invariant i > 0 && maxValue != DoubleMin ==> index < i && values[index] == maxValue
        invariant forall j :: 0 <= j < i ==> values[j] <= maxValue
        invariant DoubleMin <= maxValue
        invariant maxValue == DoubleMin ==> index == 0
        invariant i > 0 ==> index < i
        invariant i > 0 && InDoubleRange(values[..]) ==> values[index] == maxValue
        invariant forall j :: 0 <= j < index ==> values[j] < maxValue
      {
        if values[i] > maxValue {
          maxValue := values[i];
          index := i;
        }
        i := i + 1;
      }
    }

    /** Run: the outputs of the forward pass and the index MaxValueIndex picks among them. */
    method Run(inputs: array<real>, exp: ExpFn) returns (predictedClass: nat, outputs: array<real>)
      requires Valid() && layerSizes[0] <= inputs.Length
      ensures Feeds(Params(), inputs.Length)
      ensures outputs[..] == Forward(Params(), exp, inputs[..])
      ensures outputs.Length > 0 ==> predictedClass < outputs.Length
      ensures outputs.Length == 0 ==> predictedClass == 0
      ensures InDoubleRange(outputs[..]) && outputs.Length > 0 ==> IsFirstMax(outputs[..], predictedClass)
    {
      ghost var ps := Params();
      outputs := CalculateOutputs(inputs, exp);
      ghost var out := outputs[..];
      assert Params() == ps;
      predictedClass := MaxValueIndex(outputs);
      assert Params() == ps;
      assert outputs[..] == out;
    }

    /** SaveNetwork: a new save that shares layerSizes and every layer's arrays. */
    method SaveNetwork(ids: NetworkIds) returns (save: NeuralNetworkSave)
      requires Valid()
      modifies ids
      ensures fresh(save) && save.unchanging && save.Valid() && save.Repr == Repr
      ensures save.networkId == old(ids.startID) && ids.startID == old(ids.startID) + 1
      ensures save.layerSizes == layerSizes && |save.connections| == |layers|
      ensures forall i :: 0 <= i < |layers| ==>
        save.connections[i].weights == layers[i].weights &&
        save.connections[i].biases == layers[i].biases &&
        save.connections[i].activationType == GetActivationType(layers[i].activation)
      ensures save.Contents() == SavedOf(Params())
    {
      var connections: seq<ConnectionSaveData> := [];
      var i := 0;
      while i < |layers|
        invariant 0 <= i <= |layers| && |connections| == i
        invariant forall j :: 0 <= j < i ==>
          connections[j] == ConnectionSaveData(layers[j].weights, layers[j].biases, GetActivationType(layers[j].activation))
      {
        connections := connections + [ConnectionSaveData(layers[i].weights, layers[i].biases,
                                                         GetActivationType(layers[i].activation))];
        i := i + 1;
      }
      save := new NeuralNetworkSave(ids, layerSizes, connections, Repr);
    }

    /** LoadNewNetwork(save): a fresh network of the saved sizes whose arrays receive copies of
        the saved values. Nothing of this network is read. */
    method LoadNewNetwork(save: NeuralNetworkSave, draws: (nat, nat) -> real) returns (newNet: NeuralNetwork)
      requires save.Valid() && save.layerSizes.Length >= 1
      requires SavedFits(save.layerSizes[..], save.Contents())
      ensures fresh(newNet) && newNet.Valid() && fresh(newNet.Repr) && newNet.layerSizes == save.layerSizes
      ensures save.Contents() == old(save.Contents())
      ensures Chained(InitialParams(save.layerSizes[..], draws), save.layerSizes[..])
      ensures newNet.Params() == Loaded(InitialParams(save.layerSizes[..], draws), save.layerSizes[..], save.Contents())
    {
      InitialParamsChained(save.layerSizes[..], draws);
      newNet := new NeuralNetwork(save.layerSizes, draws);
      assert newNet.Repr !! save.Repr;
      newNet.LoadFrom(save);
    }

    /** The copying loop of LoadNewNetwork, applied to this network. */
    method LoadFrom(save: NeuralNetworkSave)
      requires Valid() && save.Valid() && Repr !! save.Repr
      requires SavedFits(layerSizes[..], save.Contents())
      modifies layers`activation, Repr
      ensures Valid()
      ensures save.Contents() == old(save.Contents())
      ensures Params() == Loaded(old(Params()), layerSizes[..], save.Contents())
    {
      ghost var saved := save.Contents();
      ghost var sizes := layerSizes[..];
      ghost var init := Params();
      ValidChain();
      var i := 0;
      while i < |layers|
        invariant 0 <= i <= |layers|
        invariant Valid()
        invariant save.Contents() == saved
        invariant Params() == Loaded(init, sizes, saved)[..i] + init[i..]
      {
        ghost var before := Params();
        assert sizes[i] == layerSizes[i] && sizes[i + 1] == layerSizes[i + 1];
        CopyIntoLayerAt(i, save);
        ghost var mid := Params();
        SetActivationAt(i, GetActivationFromType(save.connections[i].activationType));
        LoadedStep(init, sizes, saved, i, before, mid, Params());
        i := i + 1;
      }
      assert init[i..] == [];
    }

    /** The Array.Copy step of LoadNewNetwork: the saved arrays of layer i are copied over
        the front of its arrays; the other layers keep their values. */
    method CopyIntoLayerAt(i: nat, save: NeuralNetworkSave)
      requires Valid() && save.Valid() && Repr !! save.Repr && i < |layers| && i < |save.connections|
      requires save.connections[i].weights.Length <= layerSizes[i] * layerSizes[i + 1]
      requires save.connections[i].biases.Length <= layerSizes[i + 1]
      modifies layers[i].weights, layers[i].biases
      ensures Valid()
      ensures save.Contents() == old(save.Contents())
      ensures Params() == old(Params())[i := CopiedLayer(old(Params())[i], layerSizes[i], layerSizes[i + 1],
        old(save.Contents())[i])]
    {
      var loadedConnections := save.connections[i];
      var layer := layers[i];
      ghost var s := save.Contents()[i];
      assert loadedConnections.weights[..loadedConnections.weights.Length] == s.weights;
      assert loadedConnections.biases[..loadedConnections.biases.Length] == s.biases;
      ArrayCopy(loadedConnections.weights, layer.weights, loadedConnections.weights.Length);
      ArrayCopy(loadedConnections.biases, layer.biases, loadedConnections.biases.Length);
    }

    /** Mutate(amount): Layer.Mutate on each layer in order; ok is false when one of them throws,
        which ends the loop. */
    method Mutate(amount: real, negative: (nat, nat) -> bool, draw: (nat, nat) -> real) returns (ok: bool)
      requires Valid()
      modifies Repr
      ensures Valid()
      ensures ok == (FirstFailing(old(Params())) == |layers|)
      ensures Params() == MutateAll(old(Params()), amount, negative, draw)
    {
      ghost var ps := Params();
      var i := 0;
      while i < |layers|
        invariant 0 <= i <= |layers| && i <= FirstFailing(ps)
        invariant Valid()
        invariant Params() == MutateAll(ps, amount, negative, draw)[..i] + ps[i..]
      {
        ghost var before := Params();
        var layerOk := MutateLayerAt(i, amount, Row(negative, i), Row(draw, i));
        MutateAllStep(ps, amount, negative, draw, i, before);
        FirstFailingStep(ps, i);
        if !layerOk {
          MutateAllStops(ps, amount, negative, draw, i);
          ok := false;
          return;
        }
        i := i + 1;
      }
      assert ps[i..] == [];
      ok := true;
    }

    /** One step of Mutate: layer i mutates and every other layer keeps its values. */
    method MutateLayerAt(i: nat, amount: real, negative: nat -> bool, draw: nat -> real) returns (ok: bool)
      requires Valid() && i < |layers|
      modifies layers[i].weights, layers[i].biases
      ensures Valid()
      ensures ok == (|old(Params())[i].weights| <= |old(Params())[i].biases|)
      ensures Params() == old(Params())[i := MutateLayer(old(Params())[i], amount, negative, draw)]
    {
      ok := layers[i].Mutate(amount, negative, draw);
    }

    /** SetActivationFunction(activation, outputActivation): every layer but the last gets the
        first, the last layer the second. With no layers, layers[-1] throws. */
    method SetActivationFunctions(activation: Activation, outputActivation: Activation)
      requires Valid() && |layers| >= 1
      modifies layers`activation
      ensures Valid()
      ensures Params() == WithActivations(old(Params()), activation, outputActivation)
    {
      ghost var ps := Params();
      var i := 0;
      while i < |layers| - 1
        invariant 0 <= i <= |layers| - 1
        invariant Valid()
        invariant Params() == WithActivations(ps, activation, activation)[..i] + ps[i..]
      {
        ghost var before := Params();
        SetActivationAt(i, activation);
        WithActivationsStep(ps, activation, activation, i, before);
        i := i + 1;
      }
      ghost var before := Params();
      assert |ps| == |layers| && before == WithActivations(ps, activation, activation)[..|ps| - 1] + ps[|ps| - 1..];
      SetActivationAt(|layers| - 1, outputActivation);
      WithActivationsLast(ps, activation, outputActivation, before);
      assert Params() == WithActivations(ps, activation, outputActivation);
    }

    /** One step of SetActivationFunction: layer i takes the activation. */
    method SetActivationAt(i: nat, activation: Activation)
      requires Valid() && i < |layers|
      modifies layers`activation
      ensures Valid()
      ensures Params() == old(Params())[i := old(Params())[i].(activation := activation)]
    {
      layers[i].SetActivationFunction(activation);
    }

    /** SetActivationFunction(activation): the same activation everywhere. */
    method SetActivationFunction(activation: Activation)
      requires Valid() && |layers| >= 1
      modifies layers`activation
      ensures Valid()
      ensures Params() == WithActivations(old(Params()), activation, activation)
    {
      SetActivationFunctions(activation, activation);
    }
  }

  /** Saving a network and loading the save gives a network with the same layer sizes and
      the same values in every layer, held in new arrays: the two do not alias. */
  method SaveLoadRoundTrip(net: NeuralNetwork, ids: NetworkIds, draws: (nat, nat) -> real)
    returns (save: NeuralNetworkSave, copy: NeuralNetwork)
    requires net.Valid()
    modifies ids
    ensures copy.Valid() && copy.layerSizes == net.layerSizes && copy.Params() == net.Params()
    ensures save.Repr == net.Repr && fresh(copy.Repr)
  {
    save := net.SaveNetwork(ids);
    net.ValidChain();
    LoadOfSaveIsIdentity(net.Params(), net.layerSizes[..], draws);
    copy := net.LoadNewNetwork(save, draws);
  }
}
