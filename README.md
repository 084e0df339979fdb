# A verified model of the 2048 neuroevolution engine

This project models the engine that learns to play 2048 by neuroevolution, and proves
properties of that model in Dafny. The model follows what the C# code does, including the
places where it does something other than a reader would expect.

The engine has five parts:

- **Activations** (`activation.dfy`, module `Activations`). The `ActivationType` tags and the
  five stateless activation structures (Sigmoid, TanH, ReLU, SiLU, Softmax), with their
  scalar form, vector form and derivative. `Math.Exp` is an abstract function whose values
  are all positive (`ExpFn`).
- **Layers** (`layer.dfy`, module `Layers`). The `Layer` class holds a row-major weight
  array of `in*out` entries, a bias array of `out` entries and an activation. The file covers
  the forward pass, `GetWeight`, the in-place `Mutate`, `MergeLayers` and the setters.
  `LayerParams` is the value of one layer, and the specification functions are written
  over it.
- **Networks** (`network.dfy`, module `Networks`). `NeuralNetwork` is a chain of layers,
  with its forward pass, its first-maximum argmax, layer-by-layer mutation and activation
  setters. `NeuralNetworkSave` is a snapshot of a network that shares the live arrays with
  it. `ConnectionSaveData` holds array references. The static `startID` counter lives in a
  `NetworkIds` object.
- **Training controller** (`training.dfy`, module `Training`). `NEATNetwork` is the
  per-frame state machine. A frame runs the network on the 17-entry board encoding, applies
  the fallback rank when there are too many illegal moves, picks a move from a sorted copy
  of the outputs and accumulates fitness. At the end of an episode the network is saved and
  the next one is loaded. At the end of a generation the elites are selected and the
  population is refilled. As written, from generation 1 on, the end of an episode saves the
  running network into its slot and reloads that same save, which is marked `unchanging`. So
  the network loaded for the next game always has the parameters of the one that just played,
  and the refilled elites are never loaded (`FinishTick` states this). The board comes in from the game as a `Game`
  value: 16 cells that are empty or hold an exponent, plus the score and the round.
- **Graph genome** (`genome.dfy`, module `Genome`). `NEAT` holds node and connection lists
  and the two id counters. It has:
  - the two constructors;
  - the structural mutations `AddNode` and `AddConnection`;
  - the lookups;
  - `FeedForward`;
  - the alignment walk of `CalculateCompatibilityDistance`;
  - `Breed`.

  `Node` and `Connection` are classes whose fields change in place. Each has a `State()`
  value, and each `NEAT` keeps ghost sequences of those values in step with its lists.

`support.dfy` (module `Support`) holds what several parts share: `IndexOf` (C#
`Array.IndexOf`), a sum over sequences, and the descending sort used for
`Array.Sort` followed by `Array.Reverse`.

Doubles are modelled as `real`. Every call into `System.Random` becomes a parameter: signs,
uniform draws, Gaussian draws and indices are passed in as values or functions. A `requires`
bounds each drawn index by the count it was drawn for. Exceptions the source can throw
become explicit results: an `ok` flag, an `Option`, or a `StartResult` of `Crashed` or `Hung`.

## Model

| member | source | states |
|---|---|---|
| Support.IndexOf | Assets/Scripts/NeuralNetwork/NEATNetwork.cs:336 | Array.IndexOf: -1 exactly when the value is absent, otherwise the first position holding it |
| Support.InsertDesc | Assets/Scripts/NeuralNetwork/NEATNetwork.cs:224-226 | inserting into a descending sequence keeps it descending and adds exactly that element |
| Support.SortDesc | Assets/Scripts/NeuralNetwork/NEATNetwork.cs:224-226 | Array.Sort then Array.Reverse: a descending permutation of its input |
| Support.SortDescMember | Assets/Scripts/NeuralNetwork/NEATNetwork.cs:333-336 | every entry of the sorted copy is a value of the input |
| Support.SortDescHeadIsMax | Assets/Scripts/NeuralNetwork/NEATNetwork.cs:223-235 | the first sorted entry is the maximum of the input and is one of its values |
| Activations.GetActivationFromType | Assets/Scripts/NeuralNetwork/Activation/Activation.cs:14-32 | the structure returned for a tag reports that same tag, so the null default cannot occur |
| Activations.ActivationFromOwnType | Assets/Scripts/NeuralNetwork/Activation/Activation.cs:53-56 | converting a structure to its tag and back gives the same structure |
| Activations.ExpSum | Assets/Scripts/NeuralNetwork/Activation/Activation.cs:149-152 | the Softmax denominator is non-negative, and positive for a non-empty input |
| Activations.ActivateAll | Assets/Scripts/NeuralNetwork/Layer.cs:41-45 | the activation loop yields one value per weighted input: the vector form at that index |
| Activations.VectorFormIsScalarForm | Assets/Scripts/NeuralNetwork/Activation/Activation.cs:37-120 | for every activation other than Softmax, the vector form at an index equals the scalar form of that entry |
| Activations.ReLUIsMax | Assets/Scripts/NeuralNetwork/Activation/Activation.cs:89-97 | ReLU is max(0, x): non-negative, at least x, x when x >= 0 and 0 when x <= 0 |
| Activations.ReLUDerivativeIsStep | Assets/Scripts/NeuralNetwork/Activation/Activation.cs:99-102 | ReLU's derivative is 1 exactly when the input is positive and 0 exactly otherwise |
| Activations.SigmoidInOpenUnitInterval | Assets/Scripts/NeuralNetwork/Activation/Activation.cs:37-40 | Sigmoid lies strictly between 0 and 1 for every positive Exp |
| Activations.SigmoidDerivativeBounds | Assets/Scripts/NeuralNetwork/Activation/Activation.cs:47-51 | Sigmoid's derivative lies in (0, 1/4] |
| Activations.TanHInOpenInterval | Assets/Scripts/NeuralNetwork/Activation/Activation.cs:61-66 | TanH lies strictly between -1 and 1 |
| Activations.ScalarSoftmaxIsOne | Assets/Scripts/NeuralNetwork/Activation/Activation.cs:137-144 | the scalar Softmax is Exp(x)/Exp(x) = 1 for every x |
| Activations.ExpTermAtMostSum | Assets/Scripts/NeuralNetwork/Activation/Activation.cs:149-156 | each Exp term is at most the Softmax denominator |
| Activations.SoftmaxIsProbability | Assets/Scripts/NeuralNetwork/Activation/Activation.cs:146-157 | every vector Softmax value lies in (0, 1] |
| Activations.SumOfShares | Assets/Scripts/NeuralNetwork/Activation/Activation.cs:146-157 | a sequence of Exp terms over a common divisor sums to the Exp sum over that divisor |
| Activations.SoftmaxSumsToOne | Assets/Scripts/NeuralNetwork/Activation/Activation.cs:146-157 | over all indices of a non-empty input the vector Softmax values sum to 1 |
| Activations.SoftmaxDerivativeIsVariance | Assets/Scripts/NeuralNetwork/Activation/Activation.cs:159-170 | the Softmax derivative at an index is p*(1-p), where p is the Softmax value there |
| Activations.VarianceIdentity | Assets/Scripts/NeuralNetwork/Activation/Activation.cs:166-169 | the derivative's closed form (e*s - e*e)/(s*s) equals (e/s)*(1 - e/s) |
| Layers.WeightIndexInBounds | Assets/Scripts/NeuralNetwork/Layer.cs:50-54 | the index nodeOut*in + nodeIn lies inside the in*out weight array whenever nodeIn < in and nodeOut < out |
| Layers.WeightIndexInjective | Assets/Scripts/NeuralNetwork/Layer.cs:50-54 | two (input, output) pairs never share a weight index |
| Layers.WeightIndexCovers | Assets/Scripts/NeuralNetwork/Layer.cs:50-54 | every weight index k is reached by the pair (k mod in, k div in) |
| Layers.PreActivations | Assets/Scripts/NeuralNetwork/Layer.cs:28-39 | there is one weighted input per output node |
| Layers.Outputs | Assets/Scripts/NeuralNetwork/Layer.cs:26-48 | a layer yields out values |
| Layers.WeightedInputIsBiasPlusSum | Assets/Scripts/NeuralNetwork/Layer.cs:30-38 | the weighted input of output o is biases[o] plus the sum over k < in of inputs[k]*GetWeight(k, o) |
| Layers.WeightedInputReadsPrefix | Assets/Scripts/NeuralNetwork/Layer.cs:30-38 | the weighted input depends only on inputs[0..in-1] |
| Layers.OutputsIgnoreExtraInputs | Assets/Scripts/NeuralNetwork/Layer.cs:26-48 | a layer's outputs are the same when the input is cut to its first in entries |
| Layers.SigmoidLayerOutputsInUnitInterval | Assets/Scripts/NeuralNetwork/Layer.cs:41-45 | every output of a Sigmoid layer lies strictly between 0 and 1 |
| Layers.SoftmaxLayerSumsToOne | Assets/Scripts/NeuralNetwork/Layer.cs:41-45 | the outputs of a Softmax layer with at least one output sum to 1 |
| Layers.MutatedWeights | Assets/Scripts/NeuralNetwork/Layer.cs:91-100 | Mutate leaves as many weights as it found |
| Layers.MutatedBiases | Assets/Scripts/NeuralNetwork/Layer.cs:91-100 | Mutate leaves as many biases as it found |
| Layers.Sign | Assets/Scripts/NeuralNetwork/Layer.cs:96 | the random sign is -1 or +1 |
| Layers.WeightsAfterMutate | Assets/Scripts/NeuralNetwork/Layer.cs:94-99 | weights updated up to the point where the loop completes or throws are exactly MutatedWeights |
| Layers.BiasesAfterMutate | Assets/Scripts/NeuralNetwork/Layer.cs:94-99 | biases updated up to the point where the loop completes or throws are exactly MutatedBiases |
| Layers.MutateZeroKeepsWeights | Assets/Scripts/NeuralNetwork/Layer.cs:96-97 | Mutate(0) leaves every weight unchanged |
| Layers.MutatedWeightsMoveByAmount | Assets/Scripts/NeuralNetwork/Layer.cs:96-97 | when the loop completes, each weight moves by exactly +amount or -amount |
| Layers.ShapedMutateFails | Assets/Scripts/NeuralNetwork/Layer.cs:94-98 | a layer of shape in >= 2, out >= 1 has more weights than biases, so its Mutate throws |
| Layers.Average | Assets/Scripts/NeuralNetwork/Layer.cs:106-117 | a merged array has the length of the first argument |
| Layers.AverageSelf | Assets/Scripts/NeuralNetwork/Layer.cs:106-117 | merging an array with itself gives the same values |
| Layers.AverageSymmetric | Assets/Scripts/NeuralNetwork/Layer.cs:106-117 | merging arrays of equal length does not depend on argument order |
| Layers.AverageBetween | Assets/Scripts/NeuralNetwork/Layer.cs:106-117 | each merged entry lies between the two entries it averages |
| Layers.Layer.Params | Assets/Scripts/NeuralNetwork/Layer.cs:9-24 | a layer's value has its sizes and array lengths, and it is well shaped when the arrays are |
| Layers.Layer.constructor | Assets/Scripts/NeuralNetwork/Layer.cs:14-24 | in*out weights taken from the Gaussian draws, out zero biases, the Sigmoid activation and two distinct fresh arrays |
| Layers.Layer.InitializeRandomWeights | Assets/Scripts/NeuralNetwork/Layer.cs:74-89 | weight i becomes draw i, for every weight |
| Layers.Layer.GetWeight | Assets/Scripts/NeuralNetwork/Layer.cs:50-54 | this is the weight at nodeOut*in + nodeIn |
| Layers.Layer.CalculateOutputs | Assets/Scripts/NeuralNetwork/Layer.cs:26-48 | a fresh array holding the layer's outputs for the input array, which needs at least in entries |
| Layers.Layer.WeightedInputOf | Assets/Scripts/NeuralNetwork/Layer.cs:30-38 | the inner loop computes the weighted input of one output node |
| Layers.Layer.ApplyActivation | Assets/Scripts/NeuralNetwork/Layer.cs:41-45 | a fresh array holding the vector-form activation at every index |
| Layers.Layer.SetWeights | Assets/Scripts/NeuralNetwork/Layer.cs:64-67 | the layer now refers to the given weight array |
| Layers.Layer.SetBiases | Assets/Scripts/NeuralNetwork/Layer.cs:68-71 | the layer now refers to the given bias array |
| Layers.Layer.SetActivationFunction | Assets/Scripts/NeuralNetwork/Layer.cs:121-124 | the layer's activation becomes the given one |
| Layers.Layer.Mutate | Assets/Scripts/NeuralNetwork/Layer.cs:91-100 | completes exactly when there are no more weights than biases, and leaves MutatedWeights and MutatedBiases of the old arrays in either case |
| Layers.Layer.MergeLayers | Assets/Scripts/NeuralNetwork/Layer.cs:102-119 | two fresh arrays holding the entry-wise averages, of the lengths of this layer's arrays |
| Networks.NetworkIds.constructor | Assets/Scripts/NeuralNetwork/NeuralNetwork.cs:12 | the static id counter starts at 1 |
| Networks.Forward | Assets/Scripts/NeuralNetwork/NeuralNetwork.cs:36-43 | the forward pass yields the last layer's output count, or the input itself when there are no layers |
| Networks.ForwardStep | Assets/Scripts/NeuralNetwork/NeuralNetwork.cs:38-41 | passing through layer i and then the rest is the forward pass from layer i |
| Networks.ChainedFeeds | Assets/Scripts/NeuralNetwork/NeuralNetwork.cs:17-27 | layers that chain by size accept any input at least as long as the first size |
| Networks.ForwardCompose | Assets/Scripts/NeuralNetwork/NeuralNetwork.cs:36-43 | the forward pass through two layer lists one after the other is the pass through their concatenation |
| Networks.ForwardIgnoresExtraInputs | Assets/Scripts/NeuralNetwork/NeuralNetwork.cs:36-43 | a network reads only the first layerSizes[0] inputs |
| Networks.InitialLayer | Assets/Scripts/NeuralNetwork/Layer.cs:14-24 | a new layer is well shaped, has the given sizes, uses Sigmoid and has zero biases |
| Networks.InitialParams | Assets/Scripts/NeuralNetwork/NeuralNetwork.cs:17-27 | the constructor yields one layer fewer than there are sizes |
| Networks.InitialParamsChained | Assets/Scripts/NeuralNetwork/NeuralNetwork.cs:22-26 | layer i of a new network has in = layerSizes[i] and out = layerSizes[i+1] |
| Networks.SavedOf | Assets/Scripts/NeuralNetwork/NeuralNetwork.cs:62-78 | a save holds one connection record per layer |
| Networks.CopyPrefix | Assets/Scripts/NeuralNetwork/NeuralNetwork.cs:86-87 | Array.Copy keeps the destination's length |
| Networks.CopiedLayer | Assets/Scripts/NeuralNetwork/NeuralNetwork.cs:86-87 | copying saved arrays into a layer keeps its shape |
| Networks.LoadedLayer | Assets/Scripts/NeuralNetwork/NeuralNetwork.cs:85-89 | loading one layer keeps its shape |
| Networks.Loaded | Assets/Scripts/NeuralNetwork/NeuralNetwork.cs:80-92 | loading a save into a new network keeps the layers chained by the saved sizes |
| Networks.LoadOfSaveIsIdentity | Assets/Scripts/NeuralNetwork/NeuralNetwork.cs:62-92 | loading the save of a network reproduces every layer's sizes, weights, biases and activation, whatever the new network's own random weights |
| Networks.SavedOfFits | Assets/Scripts/NeuralNetwork/NeuralNetwork.cs:62-78 | a network's save fits its own layer sizes |
| Networks.FirstFailing | Assets/Scripts/NeuralNetwork/NeuralNetwork.cs:103-110 | the first layer with more weights than biases, or the layer count when no layer has more |
| Networks.MutateAll | Assets/Scripts/NeuralNetwork/NeuralNetwork.cs:103-110 | a network's mutation keeps the layer count |
| Networks.MutateStopsAtFirstLayer | Assets/Scripts/NeuralNetwork/NeuralNetwork.cs:103-110 | with a first layer of shape in >= 2, out >= 1 (such as the controller's 17x17) the very first Layer.Mutate throws |
| Networks.MutateAllStep | Assets/Scripts/NeuralNetwork/NeuralNetwork.cs:105-108 | mutating layer i after the first i layers gives the first i+1 layers of the network's mutation |
| Networks.MutateAllStops | Assets/Scripts/NeuralNetwork/NeuralNetwork.cs:105-108 | once a layer throws, the later layers stay as they were |
| Networks.LoadedStep | Assets/Scripts/NeuralNetwork/NeuralNetwork.cs:85-89 | one pass of the load loop turns the first i loaded layers into the first i+1 |
| Networks.WithActivationsStep | Assets/Scripts/NeuralNetwork/NeuralNetwork.cs:133-136 | one pass of the activation loop sets layer i to the hidden activation |
| Networks.WithActivationsLast | Assets/Scripts/NeuralNetwork/NeuralNetwork.cs:137-138 | the last assignment gives the final layer the output activation |
| Networks.FirstFailingStep | Assets/Scripts/NeuralNetwork/NeuralNetwork.cs:105-108 | layer i throws exactly when it is the first failing layer |
| Networks.MutateAllZeroKeepsWeights | Assets/Scripts/NeuralNetwork/NeuralNetwork.cs:103-110 | Mutate(0) leaves every weight of every layer unchanged |
| Networks.WithActivations | Assets/Scripts/NeuralNetwork/NeuralNetwork.cs:132-139 | setting the activations keeps the layer count |
| Networks.ArrayCopy | Assets/Scripts/NeuralNetwork/NeuralNetwork.cs:86-87 | Array.Copy overwrites the first length entries with the source's and keeps the rest |
| Networks.NeuralNetworkSave.Contents | Assets/Scripts/NeuralNetwork/NeuralNetwork.cs:150-151 | the values behind a save's references, one per connection record |
| Networks.NeuralNetworkSave.constructor | Assets/Scripts/NeuralNetwork/NeuralNetwork.cs:152-153 | a save stores the given arrays, starts unchanging and takes networkId = startID++ |
| Networks.NeuralNetworkSave.MergeNetworks | Assets/Scripts/NeuralNetwork/NeuralNetwork.cs:155-167 | the merged arrays are dropped, so neither save nor any array behind them changes |
| Networks.NeuralNetwork.Params | Assets/Scripts/NeuralNetwork/NeuralNetwork.cs:9-10 | a network's value is the values of its layers, in order |
| Networks.NeuralNetwork.ValidChain | Assets/Scripts/NeuralNetwork/NeuralNetwork.cs:17-27 | the layers of a network chain by its layer sizes |
| Networks.NeuralNetwork.constructor | Assets/Scripts/NeuralNetwork/NeuralNetwork.cs:17-27 | one new Sigmoid layer per consecutive pair of sizes, on fresh arrays that no two layers share |
| Networks.NeuralNetwork.NewLayers | Assets/Scripts/NeuralNetwork/NeuralNetwork.cs:22-26 | the layer loop creates fresh, pairwise distinct layers and arrays of the chained sizes |
| Networks.NeuralNetwork.CalculateOutputs | Assets/Scripts/NeuralNetwork/NeuralNetwork.cs:36-43 | the forward pass of the network, which has layerSizes[last] entries when there is a layer, or the input array itself when there is none |
| Networks.NeuralNetwork.MaxValueIndex | Assets/Scripts/NeuralNetwork/NeuralNetwork.cs:112-126 | 0 for an empty array; otherwise an index in range holding a maximum that is strictly above every earlier entry |
| Networks.NeuralNetwork.Run | Assets/Scripts/NeuralNetwork/NeuralNetwork.cs:29-34 | the forward pass together with its first-maximum index |
| Networks.NeuralNetwork.SaveNetwork | Assets/Scripts/NeuralNetwork/NeuralNetwork.cs:62-78 | a fresh unchanging save that shares layerSizes, shares each layer's weight and bias arrays, takes each layer's tag and advances the id counter |
| Networks.NeuralNetwork.LoadNewNetwork | Assets/Scripts/NeuralNetwork/NeuralNetwork.cs:80-92 | a fresh network on fresh arrays that holds the save's values copied over the new random layers, and leaves the save untouched |
| Networks.NeuralNetwork.LoadFrom | Assets/Scripts/NeuralNetwork/NeuralNetwork.cs:84-90 | the load loop takes every layer to its loaded value |
| Networks.NeuralNetwork.CopyIntoLayerAt | Assets/Scripts/NeuralNetwork/NeuralNetwork.cs:86-87 | the two Array.Copy calls write layer i only |
| Networks.NeuralNetwork.Mutate | Assets/Scripts/NeuralNetwork/NeuralNetwork.cs:103-110 | mutates the layers in index order; completes exactly when no layer throws, otherwise stops after the first throwing layer |
| Networks.NeuralNetwork.MutateLayerAt | Assets/Scripts/NeuralNetwork/NeuralNetwork.cs:106-107 | Layer.Mutate on layer i only; it completes exactly when that layer has no more weights than biases |
| Networks.NeuralNetwork.SetActivationFunctions | Assets/Scripts/NeuralNetwork/NeuralNetwork.cs:132-139 | every layer but the last takes the first activation and the last layer the second |
| Networks.NeuralNetwork.SetActivationAt | Assets/Scripts/NeuralNetwork/NeuralNetwork.cs:135 | only layer i's activation changes |
| Networks.NeuralNetwork.SetActivationFunction | Assets/Scripts/NeuralNetwork/NeuralNetwork.cs:140-143 | every layer takes the given activation; this needs at least one layer |
| Networks.SaveLoadRoundTrip | Assets/Scripts/NeuralNetwork/NeuralNetwork.cs:62-92 | LoadNewNetwork(SaveNetwork()) has the same sizes and values as the original, on fresh arrays, while the save aliases the original's arrays |
| Training.Highest | Assets/Scripts/NeuralNetwork/NEATNetwork.cs:300-308 | the highest cell value: at least every cell, non-negative, and either 0 or held by a cell |
| Training.EmptyCount | Assets/Scripts/NeuralNetwork/NEATNetwork.cs:313-322 | the open-space count never exceeds the cell count |
| Training.EmptyCountIsCardinality | Assets/Scripts/NeuralNetwork/NEATNetwork.cs:313-322 | openSpaces is the number of empty cells |
| Training.Encoding | Assets/Scripts/NeuralNetwork/NEATNetwork.cs:310-328 | the board encoding has 17 entries |
| Training.NeighbourTestLooksForward | Assets/Scripts/NeuralNetwork/NEATNetwork.cs:112-136 | with the first 1 taken as the highest block, the neighbour test succeeds exactly when the cell at +1, or (inside the grid) at +4, holds 1; -1 and -4 never hit, and the row test never excludes a wrap |
| Training.FitnessPositive | Assets/Scripts/NeuralNetwork/NEATNetwork.cs:104-138 | with a non-negative score, round, fail count and block values, a tick's fitness is at least (openSpaces+1)/max(fails,1) > 0, and at least openSpaces+1 with fewer than two fails |
| Training.FormulaAtLeast | Assets/Scripts/NeuralNetwork/NEATNetwork.cs:137 | the return expression, with the +1 outside the product and a non-negative addition, is at least (openSpaces+1)/failedCheck > 0 |
| Training.FitnessExample | Assets/Scripts/NeuralNetwork/NEATNetwork.cs:137 | score 100, board[4] = 2, v = 10, round 5, no fails, six open spaces and no new highest give 70007 |
| Training.SortedCopy | Assets/Scripts/NeuralNetwork/NEATNetwork.cs:332-335 | Decide's sorted copy has as many entries as the output |
| Training.RankIndex | Assets/Scripts/NeuralNetwork/NEATNetwork.cs:336 | Decide's pick is -1 or an index of the output |
| Training.RankIndexMeaning | Assets/Scripts/NeuralNetwork/NEATNetwork.cs:332-342 | the pick is the first output holding the sorted value of that rank; it is -1 exactly when that value is the artificial 0 and no output is 0 |
| Training.RankIndexLast | Assets/Scripts/NeuralNetwork/NEATNetwork.cs:332-336 | the last output can be picked only when it is exactly 0 |
| Training.RankIndexNonzero | Assets/Scripts/NeuralNetwork/NEATNetwork.cs:332-336 | a non-zero sorted value is found at an index below the last |
| Training.SortedCopyHead | Assets/Scripts/NeuralNetwork/NEATNetwork.cs:223-235 | the best fitness is non-negative and at least every fitness except the last slot's |
| Training.DecideExample | Assets/Scripts/NeuralNetwork/NEATNetwork.cs:330-342 | for outputs [0.1, 0.9, 0.4, 0.2], rank 0 picks 1 and rank 1 picks 2 |
| Training.EliteCount | Assets/Scripts/NeuralNetwork/NEATNetwork.cs:215 | the elite count, maxPop*topPct/100 truncated in exact arithmetic, is at most the population size |
| Training.DecideStep | Assets/Scripts/NeuralNetwork/NEATNetwork.cs:330-359 | an active controller chooses one of the four moves; an inactive one fires none |
| Training.TickStep | Assets/Scripts/NeuralNetwork/NEATNetwork.cs:267-280 | a frame keeps the rank in 0..3 |
| Training.TickHaltsOnlyAtLastRank | Assets/Scripts/NeuralNetwork/NEATNetwork.cs:268-276 | a frame ends without a move exactly when the fails are over the limit at rank 3; it then resets the rank and fails the game |
| Training.TickMoveMeaning | Assets/Scripts/NeuralNetwork/NEATNetwork.cs:268-280 | otherwise the move is the first output at the (possibly raised) rank, with fails reset after escalation; or it is the fallback Up with everything reset and the game failed |
| Training.RightNeedsZero | Assets/Scripts/NeuralNetwork/NEATNetwork.cs:332-336 | the Right move is chosen only when output[3] is exactly 0 |
| Training.StepKeepsFailsInLimit | Assets/Scripts/NeuralNetwork/NEATNetwork.cs:268-276 | after a frame that did not halt, fails is within the limit |
| Training.EliteIndices | Assets/Scripts/NeuralNetwork/NEATNetwork.cs:228-233 | one slot index (or -1) per elite |
| Training.Elites | Assets/Scripts/NeuralNetwork/NEATNetwork.cs:228-233 | one network per elite |
| Training.ElitesAreRanked | Assets/Scripts/NeuralNetwork/NEATNetwork.cs:213-236 | elite i is the first slot holding the i-th sorted fitness, and the elites come in non-increasing fitness order |
| Training.Refilled | Assets/Scripts/NeuralNetwork/NEATNetwork.cs:180-201 | the new generation fills every slot |
| Training.ClearedStep | Assets/Scripts/NeuralNetwork/NEATNetwork.cs:199-200 | each even slot past the elites adds its first pick to the saves whose flag is cleared |
| Training.ClearedGrows | Assets/Scripts/NeuralNetwork/NEATNetwork.cs:199-200 | the cleared saves only grow along the refill loop |
| Training.RefilledFromElites | Assets/Scripts/NeuralNetwork/NEATNetwork.cs:180-201 | every network of the new generation is an elite object, and the elites keep their own slots |
| Training.ShapeForward | Assets/Scripts/NeuralNetwork/NEATNetwork.cs:141 | the 17-17-12-53-3-4 network maps the 17-entry board to 4 outputs |
| Training.NewNetwork | Assets/Scripts/NeuralNetwork/NEATNetwork.cs:140-143 | a fresh network of that shape with the configured activation on every layer |
| Training.NEATNetwork.constructor | Assets/Scripts/NeuralNetwork/NEATNetwork.cs:45-92 | the field defaults, a fresh network, empty slots and zero fitness for every member |
| Training.NEATNetwork.GetHighestValueInBoard | Assets/Scripts/NeuralNetwork/NEATNetwork.cs:300-308 | the highest cell value |
| Training.NEATNetwork.BoardToArray | Assets/Scripts/NeuralNetwork/NEATNetwork.cs:310-328 | a fresh 17-entry encoding: the cell exponents (0 when empty), then fails; openSpaces becomes the number of empty cells |
| Training.NEATNetwork.Fitness | Assets/Scripts/NeuralNetwork/NEATNetwork.cs:104-138 | the fitness value against the old prevHighest; prevHighest rises to the new highest and never falls |
| Training.NEATNetwork.Decide | Assets/Scripts/NeuralNetwork/NEATNetwork.cs:330-359 | the move and the new rank, fails and failure flag are those of the decision step |
| Training.NEATNetwork.RunOnBoard | Assets/Scripts/NeuralNetwork/NEATNetwork.cs:267 | the four outputs of the forward pass on the board encoding |
| Training.NEATNetwork.Tick | Assets/Scripts/NeuralNetwork/NEATNetwork.cs:266-280 | runs the network and then the frame step on its outputs |
| Training.NEATNetwork.Respond | Assets/Scripts/NeuralNetwork/NEATNetwork.cs:268-279 | the fallback-rank logic and Decide, as the frame step |
| Training.NEATNetwork.FinishTick | Assets/Scripts/NeuralNetwork/NEATNetwork.cs:278-294 | adds the fitness to slot pop-1; at the end of an episode, divides it by the round, saves the network into the slot and loads the next one, which from generation 1 on has the same parameters as the one that played; otherwise nothing else changes |
| Training.NEATNetwork.EndEpisode | Assets/Scripts/NeuralNetwork/NEATNetwork.cs:281-294 | the episode end: the slot takes a fresh save of the network, its fitness is averaged, and the next network is new in generation 0 or a reload of that same slot |
| Training.NEATNetwork.NextNetwork | Assets/Scripts/NeuralNetwork/NEATNetwork.cs:285-291 | the next network and the running highest value |
| Training.NEATNetwork.SaveAndAverage | Assets/Scripts/NeuralNetwork/NEATNetwork.cs:282-284 | the slot's fitness is divided by the round, and the slot takes a fresh save |
| Training.NEATNetwork.UpdateCurrentHighest | Assets/Scripts/NeuralNetwork/NEATNetwork.cs:291 | currentHighest rises to the board's highest value |
| Training.NEATNetwork.AddFitness | Assets/Scripts/NeuralNetwork/NEATNetwork.cs:280 | only the current slot's fitness grows, by the fitness value |
| Training.NEATNetwork.SaveInto | Assets/Scripts/NeuralNetwork/NEATNetwork.cs:283 | the slot holds a fresh save of the running network, and the counter advances |
| Training.NEATNetwork.Renew | Assets/Scripts/NeuralNetwork/NEATNetwork.cs:285-290 | a fresh network in generation 0, otherwise a reload holding the values just saved, never mutated because the save is unchanging |
| Training.NEATNetwork.OnGameFail | Assets/Scripts/NeuralNetwork/NEATNetwork.cs:94-97 | the game is marked failed |
| Training.NEATNetwork.OnIllegalMove | Assets/Scripts/NeuralNetwork/NEATNetwork.cs:99-101 | fails goes up by one |
| Training.NEATNetwork.OnBoardUpdate | Assets/Scripts/NeuralNetwork/NEATNetwork.cs:145-149 | the rank goes back to 0 |
| Training.NEATNetwork.GetBestNetworks | Assets/Scripts/NeuralNetwork/NEATNetwork.cs:213-236 | the mean of all fitness values, the best sorted value, and, exactly when every elite value is found, the elites in rank order |
| Training.NEATNetwork.OnGameStart | Assets/Scripts/NeuralNetwork/NEATNetwork.cs:151-211 | within a generation, pop goes up by one and no slot's save changes; at its end, gen rises, pop = 1, the outcome is the start outcome and gameStarted stops at the last generation, where currentHighest and every slot's save are left as they were (also when the refill hangs); the refill keeps the elites and clears the flag of every even slot's first pick |
| Training.NEATNetwork.NextGeneration | Assets/Scripts/NeuralNetwork/NEATNetwork.cs:162-201 | the generation advance with its outcome and the refilled population; on stopping, currentHighest and the slots are unchanged, and no save changes when stopping or hanging |
| Training.NEATNetwork.NextCounters | Assets/Scripts/NeuralNetwork/NEATNetwork.cs:163-165 | fails = 0, gen one higher, pop = 1 |
| Training.NEATNetwork.Conclude | Assets/Scripts/NeuralNetwork/NEATNetwork.cs:167-201 | throws on a missing best network, stops at generation stopAtGen+1 leaving currentHighest and the slots as they were, hangs with one elite, throws on a null pick, otherwise refills; no elite's save changes when stopping or hanging |
| Training.NEATNetwork.Refill | Assets/Scripts/NeuralNetwork/NEATNetwork.cs:180-201 | the refill hangs exactly when there are fewer than two elites and free slots, changing no elite's save; otherwise it yields the refilled population unless a null is picked |
| Training.NEATNetwork.NewGeneration | Assets/Scripts/NeuralNetwork/NEATNetwork.cs:180-184 | a fresh population array whose first slots are the elites |
| Training.NEATNetwork.FillRest | Assets/Scripts/NeuralNetwork/NEATNetwork.cs:186-201 | every later slot takes elite r1 on even slots and r2 on odd ones, and exactly the saves picked on even slots lose their unchanging flag |
| Genome.NodeIds | Assets/Scripts/NeuralNetwork/ChatGPT_Neat/NEAT.cs:143-153 | the node id at every position |
| Genome.ConnIds | Assets/Scripts/NeuralNetwork/ChatGPT_Neat/NEAT.cs:155-165 | the connection id at every position |
| Genome.OfTypeMembers | Assets/Scripts/NeuralNetwork/ChatGPT_Neat/NEAT.cs:119-120 | the filtered node list holds exactly the nodes of that type |
| Genome.InitialLayout | Assets/Scripts/NeuralNetwork/ChatGPT_Neat/NEAT.cs:28-48 | nodes 1..in are inputs and in+1..in+out outputs, at position id - 1, at level 0, and GetNode finds exactly those ids |
| Genome.AddConnectionValue | Assets/Scripts/NeuralNetwork/ChatGPT_Neat/NEAT.cs:117-129 | AddConnection throws with no input or no output node, leaves the genome unchanged on a duplicate pair, and otherwise appends one enabled connection with the next id |
| Genome.MutatedConnections | Assets/Scripts/NeuralNetwork/ChatGPT_Neat/NEAT.cs:89-95 | the connection loop keeps the connection count |
| Genome.AddNodeKeepsTypes | Assets/Scripts/NeuralNetwork/ChatGPT_Neat/NEAT.cs:98-115 | AddNode leaves the input and output node lists as they were |
| Genome.InitialConsistent | Assets/Scripts/NeuralNetwork/ChatGPT_Neat/NEAT.cs:28-48 | a new genome has distinct node ids below the counter and no connections |
| Genome.AddNodeConsistent | Assets/Scripts/NeuralNetwork/ChatGPT_Neat/NEAT.cs:98-115 | AddNode keeps ids distinct and below their counters, endpoints known and edges distinct |
| Genome.AddConnectionConsistent | Assets/Scripts/NeuralNetwork/ChatGPT_Neat/NEAT.cs:117-129 | AddConnection keeps the genome consistent; afterwards the picked edge exists, and a connection was added exactly when it was new |
| Genome.MutatedConnectionsKeepEdges | Assets/Scripts/NeuralNetwork/ChatGPT_Neat/NEAT.cs:391-400 | connection mutation changes only weights |
| Genome.MutatedConnectionsConsistent | Assets/Scripts/NeuralNetwork/ChatGPT_Neat/NEAT.cs:89-95 | the connection loop keeps the genome consistent |
| Genome.MutateConsistent | Assets/Scripts/NeuralNetwork/ChatGPT_Neat/NEAT.cs:72-96 | Mutate keeps the genome consistent whenever it does not throw |
| Genome.SetInputs | Assets/Scripts/NeuralNetwork/ChatGPT_Neat/NEAT.cs:171-175 | setting inputs changes only activation levels |
| Genome.ActivateNodes | Assets/Scripts/NeuralNetwork/ChatGPT_Neat/NEAT.cs:178-193 | the node loop changes only activation levels |
| Genome.ActivateOne | Assets/Scripts/NeuralNetwork/ChatGPT_Neat/NEAT.cs:180-192 | one node step changes only activation levels |
| Genome.ReadOutputs | Assets/Scripts/NeuralNetwork/ChatGPT_Neat/NEAT.cs:196-201 | succeeds exactly when the ids in+1..in+count all exist, and then yields their levels in order |
| Genome.OutputMissing | Assets/Scripts/NeuralNetwork/ChatGPT_Neat/NEAT.cs:196-201 | a missing output node makes the output loop throw |
| Genome.ReadOutputsHit | Assets/Scripts/NeuralNetwork/ChatGPT_Neat/NEAT.cs:198-200 | reading one more existing output appends its level |
| Genome.WeightedInputDefined | Assets/Scripts/NeuralNetwork/ChatGPT_Neat/NEAT.cs:182-190 | when every connection starts at a node, the inner sum never throws |
| Genome.ActivateNodesDefined | Assets/Scripts/NeuralNetwork/ChatGPT_Neat/NEAT.cs:178-193 | ... and neither does the node loop |
| Genome.FeedForwardMeaning | Assets/Scripts/NeuralNetwork/ChatGPT_Neat/NEAT.cs:168-203 | for a consistent genome FeedForward throws exactly when an input position or an output id names no node, or the output count is negative; otherwise, it returns outputCount levels of nodes in+1..in+out |
| Genome.SetInputsDefined | Assets/Scripts/NeuralNetwork/ChatGPT_Neat/NEAT.cs:171-175 | the input loop succeeds exactly when nodes 1..|inputs| all exist |
| Genome.WeightedInputHit | Assets/Scripts/NeuralNetwork/ChatGPT_Neat/NEAT.cs:185-188 | an enabled connection into the node adds weight times the source level |
| Genome.WeightedInputSkip | Assets/Scripts/NeuralNetwork/ChatGPT_Neat/NEAT.cs:185 | any other connection leaves the sum unchanged |
| Genome.WeightedInputStaysNone | Assets/Scripts/NeuralNetwork/ChatGPT_Neat/NEAT.cs:182-190 | once the inner sum has thrown, the whole loop has thrown |
| Genome.ActivateNodesStaysNone | Assets/Scripts/NeuralNetwork/ChatGPT_Neat/NEAT.cs:178-193 | once the node loop has thrown, every longer run has thrown |
| Genome.ActivateNodesFailsAt | Assets/Scripts/NeuralNetwork/ChatGPT_Neat/NEAT.cs:178-193 | a node that throws makes the whole node loop throw |
| Genome.AlignCounts | Assets/Scripts/NeuralNetwork/ChatGPT_Neat/NEAT.cs:215-239 | the walk ends with 2*matching + disjoint + excess equal to the total number of genes |
| Genome.AlignSymmetric | Assets/Scripts/NeuralNetwork/ChatGPT_Neat/NEAT.cs:215-239 | the walk gives the same counts and weight difference from either genome |
| Genome.AlignSelf | Assets/Scripts/NeuralNetwork/ChatGPT_Neat/NEAT.cs:215-239 | a genome against itself: all genes match with no weight difference |
| Genome.DistanceProperties | Assets/Scripts/NeuralNetwork/ChatGPT_Neat/NEAT.cs:205-246 | the distance is symmetric, and a non-empty genome is at distance 0 from itself |
| Genome.ChosenGene | Assets/Scripts/NeuralNetwork/ChatGPT_Neat/NEAT.cs:271-279 | the child gene has the fitter gene's id, is that gene or the other parent's gene, and is enabled when the fitter gene is |
| Genome.ChosenGenes | Assets/Scripts/NeuralNetwork/ChatGPT_Neat/NEAT.cs:264-295 | one child gene per gene of the fitter parent |
| Genome.BreedChildShape | Assets/Scripts/NeuralNetwork/ChatGPT_Neat/NEAT.cs:298-301 | the bred child has exactly the initial nodes and at most one connection, enabled, with id 1, from an input to an output |
| Genome.UniqueAppend | Assets/Scripts/NeuralNetwork/ChatGPT_Neat/NEAT.cs:109 | appending an object not yet in a list keeps the list free of repeats |
| Genome.Node.constructor | Assets/Scripts/NeuralNetwork/ChatGPT_Neat/NEAT.cs:318-325 | a node with the given id, type and activation, at level 0 |
| Genome.Node.Mutate | Assets/Scripts/NeuralNetwork/ChatGPT_Neat/NEAT.cs:327-345 | Node.Mutate changes nothing |
| Genome.Node.Clone | Assets/Scripts/NeuralNetwork/ChatGPT_Neat/NEAT.cs:347-354 | a fresh node with the same fields |
| Genome.Connection.constructor | Assets/Scripts/NeuralNetwork/ChatGPT_Neat/NEAT.cs:378-389 | an enabled connection with the given endpoints, weight and id |
| Genome.Connection.Mutate | Assets/Scripts/NeuralNetwork/ChatGPT_Neat/NEAT.cs:391-400 | perturbs or replaces the weight from the draws |
| Genome.Connection.Disable | Assets/Scripts/NeuralNetwork/ChatGPT_Neat/NEAT.cs:408-411 | only the enabled flag is cleared |
| Genome.Connection.Clone | Assets/Scripts/NeuralNetwork/ChatGPT_Neat/NEAT.cs:413-418 | a fresh connection with the same id, endpoints, weight and enabled flag |
| Genome.CreateNodes | Assets/Scripts/NeuralNetwork/ChatGPT_Neat/NEAT.cs:40-47 | distinct fresh nodes with the initial layout |
| Genome.NEAT.constructor | Assets/Scripts/NeuralNetwork/ChatGPT_Neat/NEAT.cs:28-48 | the initial genome: in inputs, out outputs, no connections, counters in+out+1 and 1, fitness 0 |
| Genome.NEAT.FromChildren | Assets/Scripts/NeuralNetwork/ChatGPT_Neat/NEAT.cs:50-70 | the given child nodes and genes are ignored: the result is the initial genome |
| Genome.NEAT.SetFitness | Assets/Scripts/NeuralNetwork/ChatGPT_Neat/NEAT.cs:248-251 | the fitness becomes the given value |
| Genome.NEAT.GetNode | Assets/Scripts/NeuralNetwork/ChatGPT_Neat/NEAT.cs:143-153 | null exactly when no node has the id, otherwise the first node with it |
| Genome.NEAT.GetConnection | Assets/Scripts/NeuralNetwork/ChatGPT_Neat/NEAT.cs:155-165 | null exactly when no connection has the id, otherwise the first connection with it |
| Genome.NEAT.IsDuplicateConnection | Assets/Scripts/NeuralNetwork/ChatGPT_Neat/NEAT.cs:131-141 | true exactly when some connection has both endpoints |
| Genome.NEAT.NodesOfType | Assets/Scripts/NeuralNetwork/ChatGPT_Neat/NEAT.cs:119-120 | the nodes of the type, in list order |
| Genome.NEAT.AddNode | Assets/Scripts/NeuralNetwork/ChatGPT_Neat/NEAT.cs:98-115 | no change without connections; otherwise the picked connection is disabled, one hidden node with the next node id is appended, then in->new (weight 1) and new->out (old weight) under consecutive ids |
| Genome.NEAT.SplitConnection | Assets/Scripts/NeuralNetwork/ChatGPT_Neat/NEAT.cs:104-114 | the split of one connection: the same new state, and the two new connections appended as fresh objects |
| Genome.NEAT.DisableAt | Assets/Scripts/NeuralNetwork/ChatGPT_Neat/NEAT.cs:107 | only the picked connection is disabled |
| Genome.NEAT.AppendHidden | Assets/Scripts/NeuralNetwork/ChatGPT_Neat/NEAT.cs:108-110 | one fresh hidden node with the next node id, and the counter goes up |
| Genome.NEAT.AppendConnection | Assets/Scripts/NeuralNetwork/ChatGPT_Neat/NEAT.cs:111-114 | one fresh enabled connection with the next id, and the counter goes up |
| Genome.NEAT.AddConnection | Assets/Scripts/NeuralNetwork/ChatGPT_Neat/NEAT.cs:117-129 | throws without an input or output node, does nothing on a duplicate, otherwise appends the connection with the next id; the nodes never change |
| Genome.NEAT.MutateConnections | Assets/Scripts/NeuralNetwork/ChatGPT_Neat/NEAT.cs:89-95 | each connection whose flip is below 0.1 is mutated, in place |
| Genome.NEAT.Mutate | Assets/Scripts/NeuralNetwork/ChatGPT_Neat/NEAT.cs:72-96 | AddNode below 0.05, AddConnection below 0.1, then the loops; when AddConnection throws, only AddNode's effect remains |
| Genome.NEAT.MutateStructure | Assets/Scripts/NeuralNetwork/ChatGPT_Neat/NEAT.cs:74-81 | the two structural flips, with their outcome |
| Genome.NEAT.SetInputLevels | Assets/Scripts/NeuralNetwork/ChatGPT_Neat/NEAT.cs:171-175 | node i+1 takes inputs[i] in turn; succeeds exactly when all those nodes exist |
| Genome.NEAT.SetInputLevel | Assets/Scripts/NeuralNetwork/ChatGPT_Neat/NEAT.cs:173-174 | one more input set, or the throw of the whole input loop |
| Genome.NEAT.WeightedSum | Assets/Scripts/NeuralNetwork/ChatGPT_Neat/NEAT.cs:182-190 | the inner sum, or its throw when a connection's source is missing |
| Genome.NEAT.ActivateNode | Assets/Scripts/NeuralNetwork/ChatGPT_Neat/NEAT.cs:180-192 | one node of the node loop |
| Genome.NEAT.ActivateHiddenAndOutputs | Assets/Scripts/NeuralNetwork/ChatGPT_Neat/NEAT.cs:178-193 | the node loop over every non-input node, in list order |
| Genome.NEAT.ActivateStep | Assets/Scripts/NeuralNetwork/ChatGPT_Neat/NEAT.cs:180-192 | one more node activated, or the throw of the whole node loop |
| Genome.NEAT.LevelOf | Assets/Scripts/NeuralNetwork/ChatGPT_Neat/NEAT.cs:199-200 | the level of the first node with the id, when there is one |
| Genome.NEAT.ReadOutputLevels | Assets/Scripts/NeuralNetwork/ChatGPT_Neat/NEAT.cs:196-201 | a fresh array of the output levels, or the throw |
| Genome.NEAT.OutputLevels | Assets/Scripts/NeuralNetwork/ChatGPT_Neat/NEAT.cs:196-201 | outputCount levels of nodes in+1..in+out, or the throw when one is missing or the count is negative |
| Genome.NEAT.NextOutput | Assets/Scripts/NeuralNetwork/ChatGPT_Neat/NEAT.cs:198-200 | one more output level, or the throw |
| Genome.NEAT.FeedForward | Assets/Scripts/NeuralNetwork/ChatGPT_Neat/NEAT.cs:168-203 | the node levels and outputs of the forward pass, or its throw |
| Genome.NEAT.CalculateCompatibilityDistance | Assets/Scripts/NeuralNetwork/ChatGPT_Neat/NEAT.cs:205-246 | the distance from the alignment walk; it is undefined when both lists are empty or nothing matched |
| Genome.NEAT.ChooseGene | Assets/Scripts/NeuralNetwork/ChatGPT_Neat/NEAT.cs:271-279 | the gene chosen for a gene of the fitter parent |
| Genome.NEAT.AddChildNode | Assets/Scripts/NeuralNetwork/ChatGPT_Neat/NEAT.cs:285-294 | a node is added once, as a fresh clone of this genome's node; the lookup throws when the id is unknown |
| Genome.NEAT.CrossGenes | Assets/Scripts/NeuralNetwork/ChatGPT_Neat/NEAT.cs:264-295 | the chosen genes, one per gene of the fitter parent, or the throw when an endpoint is unknown |
| Genome.NEAT.Breed | Assets/Scripts/NeuralNetwork/ChatGPT_Neat/NEAT.cs:253-304 | the fitter parent leads the crossover; the child is a fresh initial genome after one Mutate, and it throws exactly when crossover or Mutate does |

## Left out

- File replay is not modelled: `usingFileSave`, `_loadNetworkFromPath`, `LoadFromFile`, `SaveToFile` and the replay branches of `Update` and `OnGameStart`. This is file I/O.
- JSON serialisation (`SerializeNetwork`, `JsonUtility`) is not modelled. This is file I/O.
- The `Time.time` frame-rate gate of `Update`, the TextMeshPro texts, `Debug.Log`, `ToString` and `doubleArrayPrint` are not modelled. They are Unity plumbing or logging.
- `SetCostFunction` and `ICost` are not modelled, because their definitions are not part of this model.
- The move events (`UpInput` and the others) are not fired. Decide returns the chosen direction instead, and its ignored prediction parameter is dropped.
- `GameManager` and the board are not modelled. The controller reads a `Game` value: 16 cells, the score and the round. `GameManager.StartGame()` raising `OnStartGame` becomes the `restart` result of `FinishTick`, after which the host calls `OnGameStart`.
- Random draws are passed in as parameters: Box–Muller draws, `System.Random` calls, `rng.Next` and `NEAT`'s `Random`. Their distributions are not modelled.
- Doubles are modelled as real numbers. Rounding, NaN and infinities are not modelled. The divisions that can give NaN are:
  - the compatibility distance with nothing matched, which becomes `None`;
  - fitness divided by `_round`, where the model requires a non-zero round.
- `Math.Exp` is any positive function. Its exact values, and the exact values of `Log`, `Cos` and `Sqrt`, are not modelled.
- Training.NEATNetwork.constructor: requires `_maxPopulation >= 2` and `_topPercentile <= 100`, which the Inspector defaults meet. With a smaller population the refill's re-roll loop can never finish.
- Training.NEATNetwork.FinishTick: requires a non-zero round when the game has failed. Otherwise the fitness average would divide by zero.
- The mutation branch at the end of an episode is not modelled: the slot was just saved with `unchanging` set, so that branch can never run.
- Training.EliteCount: computes `_maxPopulation * topPercentile / 100` exactly and truncates, while the source truncates a double product. The two differ: for a population of 100 and a percentile of 29, `100 * 0.29` in double arithmetic is just under 29, so the source keeps 28 elites where the model keeps 29.
- The re-roll `do-while` of the refill, which never ends with fewer than two elites, is modelled as the `Hung` outcome.
- The `Crashed` outcome of `OnGameStart` is named only. The model does not state what the fields hold after that exception.
- Activations.GetActivationFromType: the `default:` branch of the source, which logs a warning and returns null, is not modelled. Every value of the `ActivationType` datatype is one of the five declared tags, so no input reaches it.
- Training.DecideStep: handles exactly the four outputs the network produces.
- Layers.Layer.MergeLayers: requires the other arrays to be at least as long as this layer's. The source logs a warning and then throws on a shorter array.
- Networks.NeuralNetworkSave.MergeNetworks: requires the other save's arrays to be at least as long, for the same reason.
- Genome.NEAT.FeedForward: on a throw, the partial node levels are left unspecified.
- The unused `_nodes.Find` lookups inside `AddNode` are not modelled. Their results are discarded and they cannot throw.
- `Connection.GetCompatibilityDistance` is not modelled. Nothing in the core calls it.
- `Dictionary.Values` in `Breed` is taken to enumerate in insertion order.
- Genome.NEAT.FeedForward: copies the output levels after the loop rather than during it, which cannot be observed from outside.
- A null `inputs` array passed to `FeedForward` is not modelled.
- The ghost node and connection states of `NEAT` mirror the `Node` and `Connection` objects. The model does not cover other code changing those objects through aliases.
