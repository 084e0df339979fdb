/** The graph genome NEAT.cs: nodes and connection genes in lists, id counters, the
    structural mutations, lookups, the gene-alignment distance, the forward pass and breeding.
    Random draws are parameters; a thrown exception is a false ok flag or a None. */
module Genome {
  import opened Support
  import opened Activations

  datatype NodeType = Input | Hidden | Output

  /** The fields of a Node. */
  datatype NodeState = NodeState(id: int, nodeType: NodeType, value: real, activationLevel: real,
                                 activationType: ActivationType, activationFunction: Activation)

  /** The fields of a Connection. */
  datatype ConnState = ConnState(id: int, inputNodeId: int, outputNodeId: int, weight: real, isEnabled: bool,
                                 isRecurrent: bool, perturbChance: real, maxWeightPerturbation: real,
                                 compatibilityThreshold: real)

  /** The lists and counters of a NEAT genome. */
  datatype GenomeState = GenomeState(nodes: seq<NodeState>, conns: seq<ConnState>, nextNodeId: int,
                                     nextConnectionId: int, activationType: ActivationType)

  /** The random draws one call of NEAT.Mutate consumes: the two structural coin flips, the
      Random.Next picks, the new connection's weight draw, and per node and per connection
      the mutation flip and the draws of the mutation itself. */
  datatype MutationDraws = MutationDraws(addNode: real, connectionPick: nat, addConnection: real,
                                         inputPick: nat, outputPick: nat, weightDraw: real,
                                         nodeFlip: nat -> real, nodeDraw: nat -> real,
                                         connectionFlip: nat -> real, perturbFlip: nat -> real,
                                         perturbDraw: nat -> real)

  /** new Node(id, type, activationType): Value 0, ActivationLevel at its default 0. */
  function NewNode(id: int, nodeType: NodeType, a: ActivationType): NodeState
  {
    NodeState(id, nodeType, 0.0, 0.0, a, GetActivationFromType(a))
  }

  /** new Connection(in, out, weight, id): enabled, not recurrent, and the fixed chances. */
  function NewConnection(inputNode: int, outputNode: int, weight: real, id: int): ConnState
  {
    ConnState(id, inputNode, outputNode, weight, true, false, 0.9, 0.1, 0.5)
  }

  /** Connection.Mutate: a perturbation by at most MaxWeightPerturbation with chance
      PerturbChance, otherwise a fresh weight in [-1, 1). */
  function MutatedConnection(c: ConnState, flip: real, draw: real): ConnState
  {
    if flip < c.perturbChance then c.(weight := c.weight + (draw * 2.0 - 1.0) * c.maxWeightPerturbation)
    else c.(weight := draw * 2.0 - 1.0)
  }

  function NodeIds(ns: seq<NodeState>): (r: seq<int>)
    ensures |r| == |ns| && forall j :: 0 <= j < |ns| ==> r[j] == ns[j].id
  {
    seq(|ns|, j requires 0 <= j < |ns| => ns[j].id)
  }

  function ConnIds(cs: seq<ConnState>): (r: seq<int>)
    ensures |r| == |cs| && forall j :: 0 <= j < |cs| ==> r[j] == cs[j].id
  {
    seq(|cs|, j requires 0 <= j < |cs| => cs[j].id)
  }

  /** The nodes of the given type, in list order (the Where(...).ToList() of AddConnection). */
  function OfType(ns: seq<NodeState>, t: NodeType): (r: seq<NodeState>)
    decreases |ns|
  {
    if |ns| == 0 then []
    else OfType(ns[..|ns| - 1], t) + (if ns[|ns| - 1].nodeType == t then [ns[|ns| - 1]] else [])
  }

  /** The filtered list holds exactly the nodes of the type. */
  lemma {:induction false} OfTypeMembers(ns: seq<NodeState>, t: NodeType, x: NodeState)
    ensures x in OfType(ns, t) <==> x in ns && x.nodeType == t
    decreases |ns|
  {
    if |ns| > 0 {
      OfTypeMembers(ns[..|ns| - 1], t, x);
      assert ns == ns[..|ns| - 1] + [ns[|ns| - 1]];
    }
  }

  /** Some connection runs from a to b. */
  predicate HasEdge(cs: seq<ConnState>, a: int, b: int)
  {
    exists j :: 0 <= j < |cs| && cs[j].inputNodeId == a && cs[j].outputNodeId == b
  }

  // ---------------------------------------------------------------------------------------
  // Construction

  /** The nodes both constructors create: ids 1..in as inputs, then in+1..in+out as outputs
      (a negative count makes its loop run zero times). */
  function InitialNodes(inputCount: int, outputCount: int, a: ActivationType): seq<NodeState>
  {
    var ni := if inputCount > 0 then inputCount else 0;
    var no := if outputCount > 0 then outputCount else 0;
    seq(ni, j => NewNode(j + 1, Input, a)) + seq(no, j => NewNode(inputCount + j + 1, Output, a))
  }

  /** A newly built genome: the initial nodes, no connections, the counters at in+out+1 and 1. */
  function InitialGenome(inputCount: int, outputCount: int, a: ActivationType): GenomeState
  {
    GenomeState(InitialNodes(inputCount, outputCount, a), [], inputCount + outputCount + 1, 1, a)
  }

  /** With non-negative counts the node at position j has id j + 1; the first in are inputs
      and the rest outputs, and GetNode(k) finds position k - 1 exactly for 1 <= k <= in+out. */
  lemma InitialLayout(inputCount: int, outputCount: int, a: ActivationType, k: int)
    requires inputCount >= 0 && outputCount >= 0
    ensures var ns := InitialNodes(inputCount, outputCount, a);
      |ns| == inputCount + outputCount &&
      (forall j :: 0 <= j < |ns| ==> ns[j].id == j + 1) &&
      (forall j :: 0 <= j < |ns| ==> (ns[j].nodeType == Input <==> j < inputCount)) &&
      (forall j :: 0 <= j < |ns| ==> ns[j].nodeType != Hidden && ns[j].activationLevel == 0.0) &&
      IndexOf(NodeIds(ns), k) == (if 1 <= k <= inputCount + outputCount then k - 1 else -1)
  {
    var ns := InitialNodes(inputCount, outputCount, a);
    var inputs := seq(inputCount, j => NewNode(j + 1, Input, a));
    var outputs := seq(outputCount, j => NewNode(inputCount + j + 1, Output, a));
    assert ns == inputs + outputs;
    forall j | 0 <= j < |ns|
      ensures ns[j].id == j + 1 && (ns[j].nodeType == Input <==> j < inputCount)
      ensures ns[j].nodeType != Hidden && ns[j].activationLevel == 0.0
    {
      if j < inputCount {
        assert ns[j] == inputs[j] == NewNode(j + 1, Input, a);
      } else {
        assert ns[j] == outputs[j - inputCount] == NewNode(inputCount + (j - inputCount) + 1, Output, a);
      }
    }
    if 1 <= k <= inputCount + outputCount {
      assert NodeIds(ns)[k - 1] == k;
    } else {
      assert k !in NodeIds(ns);
    }
  }

  // ---------------------------------------------------------------------------------------
  // Structural mutations

  /** AddNode: with no connections nothing changes; otherwise connection pick is disabled and a
      hidden node with the next node id is split into it: in -> new with weight 1 and
      new -> out with the old weight, under the next two connection ids. */
  function AddNodeStep(g: GenomeState, pick: nat): GenomeState
    requires |g.conns| > 0 ==> pick < |g.conns|
  {
    if |g.conns| == 0 then g
    else
      var c := g.conns[pick];
      var id := g.nextNodeId;
      GenomeState(g.nodes + [NewNode(id, Hidden, g.activationType)],
                  g.conns[pick := c.(isEnabled := false)] +
                    [NewConnection(c.inputNodeId, id, 1.0, g.nextConnectionId),
                     NewConnection(id, c.outputNodeId, c.weight, g.nextConnectionId + 1)],
                  g.nextNodeId + 1, g.nextConnectionId + 2, g.activationType)
  }

  /** The Random.Next picks lie below the counts they were drawn for. */
  predicate PicksFit(g: GenomeState, connectionPick: nat, inputPick: nat, outputPick: nat)
  {
    (|g.conns| > 0 ==> connectionPick < |g.conns|) &&
    (|OfType(g.nodes, Input)| > 0 ==> inputPick < |OfType(g.nodes, Input)|) &&
    (|OfType(g.nodes, Output)| > 0 ==> outputPick < |OfType(g.nodes, Output)|)
  }

  /** AddConnection: None when there is no input or no output node (Random.Next(0) gives 0
      and the empty list throws); unchanged when the picked pair is already connected;
      otherwise one new enabled connection under the next connection id. */
  function AddConnectionStep(g: GenomeState, inputPick: nat, outputPick: nat, draw: real): Option<GenomeState>
    requires PicksFit(g, 0, inputPick, outputPick)
  {
    var ins := OfType(g.nodes, Input);
    var outs := OfType(g.nodes, Output);
    if |ins| == 0 || |outs| == 0 then None
    else
      var a := ins[inputPick].id;
      var b := outs[outputPick].id;
      if HasEdge(g.conns, a, b) then Some(g)
      else Some(g.(conns := g.conns + [NewConnection(a, b, draw * 2.0 - 1.0, g.nextConnectionId)],
                   nextConnectionId := g.nextConnectionId + 1))
  }

  /** The three outcomes of AddConnectionStep, spelled out. */
  lemma AddConnectionValue(g: GenomeState, inputPick: nat, outputPick: nat, draw: real)
    requires PicksFit(g, 0, inputPick, outputPick)
    ensures var ins := OfType(g.nodes, Input);
      var outs := OfType(g.nodes, Output);
      var r := AddConnectionStep(g, inputPick, outputPick, draw);
      (r.None? <==> |ins| == 0 || |outs| == 0) &&
      (r.Some? && HasEdge(g.conns, ins[inputPick].id, outs[outputPick].id) ==> r.value == g) &&
      (r.Some? && !HasEdge(g.conns, ins[inputPick].id, outs[outputPick].id) ==>
        r.value == g.(conns := g.conns + [NewConnection(ins[inputPick].id, outs[outputPick].id, draw * 2.0 - 1.0, g.nextConnectionId)],
                      nextConnectionId := g.nextConnectionId + 1))
  {
  }

  /** The connection loop of Mutate: each connection whose flip is below 0.1 mutates. */
  function MutatedConnections(cs: seq<ConnState>, d: MutationDraws): (r: seq<ConnState>)
    ensures |r| == |cs|
  {
    seq(|cs|, k requires 0 <= k < |cs| =>
      if d.connectionFlip(k) < 0.1 then MutatedConnection(cs[k], d.perturbFlip(k), d.perturbDraw(k)) else cs[k])
  }

  /** The genome after the AddNode flip of Mutate. */
  function AfterAddNode(g: GenomeState, d: MutationDraws): GenomeState
    requires PicksFit(g, d.connectionPick, d.inputPick, d.outputPick)
  {
    if d.addNode < 0.05 then AddNodeStep(g, d.connectionPick) else g
  }

  /** The genome after the AddNode and AddConnection flips of Mutate; None when
      AddConnection throws. */
  function AfterAddConnection(g: GenomeState, d: MutationDraws): Option<GenomeState>
    requires PicksFit(g, d.connectionPick, d.inputPick, d.outputPick)
  {
    AddNodeKeepsTypes(g, d.connectionPick);
    var g1 := AfterAddNode(g, d);
    if d.addConnection < 0.1 then AddConnectionStep(g1, d.inputPick, d.outputPick, d.weightDraw) else Some(g1)
  }

  /** NEAT.Mutate: AddNode with chance 0.05, AddConnection with chance 0.1, the node loop
      (Node.Mutate changes nothing) and the connection loop; None when AddConnection throws. */
  function MutateStep(g: GenomeState, d: MutationDraws): Option<GenomeState>
    requires PicksFit(g, d.connectionPick, d.inputPick, d.outputPick)
  {
    match AfterAddConnection(g, d)
    case None => None
    case Some(h) => Some(h.(conns := MutatedConnections(h.conns, d)))
  }

  /** AddNode adds only a hidden node, so the input and output lists stay as they are. */
  lemma AddNodeKeepsTypes(g: GenomeState, pick: nat)
    requires |g.conns| > 0 ==> pick < |g.conns|
    ensures OfType(AddNodeStep(g, pick).nodes, Input) == OfType(g.nodes, Input)
    ensures OfType(AddNodeStep(g, pick).nodes, Output) == OfType(g.nodes, Output)
  {
    var ns := AddNodeStep(g, pick).nodes;
    if |g.conns| > 0 {
      assert ns[..|ns| - 1] == g.nodes;
    }
  }

  /** No id occurs twice. */
  predicate Distinct(ids: seq<int>)
  {
    forall i, j :: 0 <= i < j < |ids| ==> ids[i] != ids[j]
  }

  /** Every id lies below the counter that hands out the next one. */
  predicate IdsBelow(ids: seq<int>, next: int)
  {
    forall i :: 0 <= i < |ids| ==> ids[i] < next
  }

  /** Both endpoints of every connection name a node. */
  predicate EndpointsKnown(cs: seq<ConnState>, ids: seq<int>)
  {
    forall i :: 0 <= i < |cs| ==> cs[i].inputNodeId in ids && cs[i].outputNodeId in ids
  }

  /** No two connections share both endpoints. */
  predicate EdgesDistinct(cs: seq<ConnState>)
  {
    forall i, j :: 0 <= i < j < |cs| ==>
      cs[i].inputNodeId != cs[j].inputNodeId || cs[i].outputNodeId != cs[j].outputNodeId
  }

  /** The invariant the structural mutations keep: node ids are distinct and below the next
      node id, connection ids are below the next connection id, every endpoint names a node,
      and no two connections share both endpoints. */
  predicate Consistent(g: GenomeState)
  {
    Distinct(NodeIds(g.nodes)) && IdsBelow(NodeIds(g.nodes), g.nextNodeId) &&
    IdsBelow(ConnIds(g.conns), g.nextConnectionId) &&
    EndpointsKnown(g.conns, NodeIds(g.nodes)) && EdgesDistinct(g.conns)
  }

  /** A genome built with non-negative counts is consistent. */
  lemma InitialConsistent(inputCount: int, outputCount: int, a: ActivationType)
    requires inputCount >= 0 && outputCount >= 0
    ensures Consistent(InitialGenome(inputCount, outputCount, a))
  {
    InitialLayout(inputCount, outputCount, a, 0);
  }

  /** AddNode keeps a genome consistent. */
  lemma AddNodeConsistent(g: GenomeState, pick: nat)
    requires Consistent(g) && (|g.conns| > 0 ==> pick < |g.conns|)
    ensures Consistent(AddNodeStep(g, pick))
  {
    if |g.conns| > 0 {
      var h := AddNodeStep(g, pick);
      var id := g.nextNodeId;
      var c := g.conns[pick];
      var n := |g.conns|;
      assert NodeIds(h.nodes) == NodeIds(g.nodes) + [id];
      assert id !in NodeIds(g.nodes);
      assert c.inputNodeId in NodeIds(g.nodes) && c.outputNodeId in NodeIds(g.nodes);
      assert Distinct(NodeIds(h.nodes));
      assert IdsBelow(ConnIds(h.conns), h.nextConnectionId) by {
        forall i | 0 <= i < |h.conns| ensures ConnIds(h.conns)[i] < h.nextConnectionId {
          if i < n {
            assert h.conns[i].id == g.conns[i].id && ConnIds(g.conns)[i] < g.nextConnectionId;
          }
        }
      }
      forall i | 0 <= i < n
        ensures h.conns[i].inputNodeId == g.conns[i].inputNodeId != id
        ensures h.conns[i].outputNodeId == g.conns[i].outputNodeId != id
      {
      }
      assert EndpointsKnown(h.conns, NodeIds(h.nodes));
      assert EdgesDistinct(h.conns) by {
        forall i, j | 0 <= i < j < |h.conns|
          ensures h.conns[i].inputNodeId != h.conns[j].inputNodeId || h.conns[i].outputNodeId != h.conns[j].outputNodeId
        {
          if j < n {
            assert g.conns[i].inputNodeId != g.conns[j].inputNodeId || g.conns[i].outputNodeId != g.conns[j].outputNodeId;
          }
        }
      }
    }
  }

  /** AddConnection keeps a genome consistent and, when it succeeds, leaves the picked pair
      connected; it adds a connection exactly when the pair was not connected before. */
  lemma AddConnectionConsistent(g: GenomeState, inputPick: nat, outputPick: nat, draw: real)
    requires Consistent(g) && PicksFit(g, 0, inputPick, outputPick)
    ensures var r := AddConnectionStep(g, inputPick, outputPick, draw);
      r.Some? ==> (Consistent(r.value) &&
        var a := OfType(g.nodes, Input)[inputPick].id;
        var b := OfType(g.nodes, Output)[outputPick].id;
        HasEdge(r.value.conns, a, b) &&
        (|r.value.conns| == |g.conns| + 1 <==> !HasEdge(g.conns, a, b)))
  {
    var ins := OfType(g.nodes, Input);
    var outs := OfType(g.nodes, Output);
    if |ins| > 0 && |outs| > 0 {
      var a := ins[inputPick].id;
      var b := outs[outputPick].id;
      OfTypeMembers(g.nodes, Input, ins[inputPick]);
      OfTypeMembers(g.nodes, Output, outs[outputPick]);
      assert ins[inputPick] in g.nodes && outs[outputPick] in g.nodes;
      if !HasEdge(g.conns, a, b) {
        var h := AddConnectionStep(g, inputPick, outputPick, draw).value;
        var n := |g.conns|;
        assert h.nodes == g.nodes && h.conns[..n] == g.conns;
        assert a in NodeIds(g.nodes) by {
          var k :| 0 <= k < |g.nodes| && g.nodes[k] == ins[inputPick];
          assert NodeIds(g.nodes)[k] == a;
        }
        assert b in NodeIds(g.nodes) by {
          var k :| 0 <= k < |g.nodes| && g.nodes[k] == outs[outputPick];
          assert NodeIds(g.nodes)[k] == b;
        }
        assert h.conns[n].inputNodeId == a && h.conns[n].outputNodeId == b;
        assert EndpointsKnown(h.conns, NodeIds(h.nodes)) by {
          forall i | 0 <= i < |h.conns|
            ensures h.conns[i].inputNodeId in NodeIds(h.nodes) && h.conns[i].outputNodeId in NodeIds(h.nodes)
          {
            if i < n {
              assert h.conns[i] == g.conns[i];
            }
          }
        }
        assert IdsBelow(ConnIds(h.conns), h.nextConnectionId) by {
          forall i | 0 <= i < |h.conns| ensures ConnIds(h.conns)[i] < h.nextConnectionId {
            if i < n {
              assert h.conns[i] == g.conns[i] && ConnIds(g.conns)[i] < g.nextConnectionId;
            }
          }
        }
        assert EdgesDistinct(h.conns) by {
          forall i, j | 0 <= i < j < |h.conns|
            ensures h.conns[i].inputNodeId != h.conns[j].inputNodeId || h.conns[i].outputNodeId != h.conns[j].outputNodeId
          {
            assert h.conns[i] == g.conns[i];
            if j == n {
              assert !(g.conns[i].inputNodeId == a && g.conns[i].outputNodeId == b);
            } else {
              assert h.conns[j] == g.conns[j];
            }
          }
        }
      }
    }
  }

  /** The connection loop of Mutate changes only weights. */
  lemma MutatedConnectionsKeepEdges(cs: seq<ConnState>, d: MutationDraws)
    ensures var r := MutatedConnections(cs, d);
      forall k :: 0 <= k < |cs| ==> r[k] == cs[k].(weight := r[k].weight)
  {
    var r := MutatedConnections(cs, d);
    forall k | 0 <= k < |cs| ensures r[k] == cs[k].(weight := r[k].weight) {
      var m := MutatedConnection(cs[k], d.perturbFlip(k), d.perturbDraw(k));
      assert m == cs[k].(weight := m.weight);
    }
  }

  /** The connection loop keeps a genome consistent. */
  lemma MutatedConnectionsConsistent(h: GenomeState, d: MutationDraws)
    requires Consistent(h)
    ensures Consistent(h.(conns := MutatedConnections(h.conns, d)))
  {
    var r := MutatedConnections(h.conns, d);
    MutatedConnectionsKeepEdges(h.conns, d);
    assert ConnIds(r) == ConnIds(h.conns);
    assert EdgesDistinct(r) by {
      forall i, j | 0 <= i < j < |r|
        ensures r[i].inputNodeId != r[j].inputNodeId || r[i].outputNodeId != r[j].outputNodeId
      {
        assert h.conns[i].inputNodeId != h.conns[j].inputNodeId || h.conns[i].outputNodeId != h.conns[j].outputNodeId;
      }
    }
    assert EndpointsKnown(r, NodeIds(h.nodes)) by {
      forall i | 0 <= i < |r| ensures r[i].inputNodeId in NodeIds(h.nodes) && r[i].outputNodeId in NodeIds(h.nodes) {
        assert h.conns[i].inputNodeId in NodeIds(h.nodes) && h.conns[i].outputNodeId in NodeIds(h.nodes);
      }
    }
  }

  /** Mutate keeps a genome consistent. */
  lemma MutateConsistent(g: GenomeState, d: MutationDraws)
    requires Consistent(g) && PicksFit(g, d.connectionPick, d.inputPick, d.outputPick)
    ensures MutateStep(g, d).Some? ==> Consistent(MutateStep(g, d).value)
  {
    var g1 := AfterAddNode(g, d);
    AddNodeConsistent(g, d.connectionPick);
    AddNodeKeepsTypes(g, d.connectionPick);
    var g2 := AfterAddConnection(g, d);
    if d.addConnection < 0.1 {
      AddConnectionConsistent(g1, d.inputPick, d.outputPick, d.weightDraw);
    }
    if g2.Some? {
      MutatedConnectionsConsistent(g2.value, d);
    }
  }

  // ---------------------------------------------------------------------------------------
  // The forward pass

  /** Only the activation levels of ms differ from ns. */
  predicate SameNodes(ms: seq<NodeState>, ns: seq<NodeState>)
  {
    |ms| == |ns| && forall j :: 0 <= j < |ns| ==> ms[j] == ns[j].(activationLevel := ms[j].activationLevel)
  }

  /** The input loop of FeedForward: node i + 1 takes inputs[i], in turn; None when a node
      is missing (GetNode returns null and the assignment throws). */
  function SetInputs(ns: seq<NodeState>, inputs: seq<real>): (r: Option<seq<NodeState>>)
    ensures r.Some? ==> SameNodes(r.value, ns)
    decreases |inputs|
  {
    if |inputs| == 0 then Some(ns)
    else
      match SetInputs(ns, inputs[..|inputs| - 1])
      case None => None
      case Some(ms) =>
        assert NodeIds(ms) == NodeIds(ns);
        var k := IndexOf(NodeIds(ms), |inputs|);
        if k < 0 then None else Some(ms[k := ms[k].(activationLevel := inputs[|inputs| - 1])])
  }

  /** The inner loop: the weighted sum of the enabled connections into node id, each input
      level read through GetNode; None when an input node is missing. */
  function WeightedInput(ns: seq<NodeState>, cs: seq<ConnState>, id: int): Option<real>
    decreases |cs|
  {
    if |cs| == 0 then Some(0.0)
    else
      match WeightedInput(ns, cs[..|cs| - 1], id)
      case None => None
      case Some(s) =>
        var c := cs[|cs| - 1];
        if c.outputNodeId == id && c.isEnabled then
          var k := IndexOf(NodeIds(ns), c.inputNodeId);
          if k < 0 then None else Some(s + c.weight * ns[k].activationLevel)
        else Some(s)
  }

  /** The node loop over the first n nodes: each hidden or output node takes its activation
      of its weighted input, later nodes seeing the levels earlier ones were given. */
  function ActivateNodes(ns: seq<NodeState>, cs: seq<ConnState>, exp: ExpFn, n: nat): (r: Option<seq<NodeState>>)
    requires n <= |ns|
    ensures r.Some? ==> SameNodes(r.value, ns)
  {
    if n == 0 then Some(ns)
    else
      match ActivateNodes(ns, cs, exp, n - 1)
      case None => None
      case Some(ms) => ActivateOne(ms, cs, exp, n - 1)
  }

  /** One step of the node loop, at position n. */
  function ActivateOne(ms: seq<NodeState>, cs: seq<ConnState>, exp: ExpFn, n: nat): (r: Option<seq<NodeState>>)
    requires n < |ms|
    ensures r.Some? ==> SameNodes(r.value, ms)
  {
    var node := ms[n];
    if node.nodeType == Hidden || node.nodeType == Output then
      match WeightedInput(ms, cs, node.id)
      case None => None
      case Some(a) => Some(ms[n := node.(activationLevel := Activate(node.activationFunction, exp, a))])
    else Some(ms)
  }

  /** The output loop over the first count outputs: the level of node in + i + 1. */
  function ReadOutputs(ns: seq<NodeState>, inputCount: int, count: nat): (r: Option<seq<real>>)
    ensures r.Some? <==> forall id :: inputCount < id <= inputCount + count ==> id in NodeIds(ns)
    ensures r.Some? ==> |r.value| == count
    ensures r.Some? ==> forall i :: 0 <= i < count ==>
      inputCount + i + 1 in NodeIds(ns) && r.value[i] == ns[IndexOf(NodeIds(ns), inputCount + i + 1)].activationLevel
  {
    if count == 0 then Some([])
    else
      match ReadOutputs(ns, inputCount, count - 1)
      case None => None
      case Some(out) =>
        var k := IndexOf(NodeIds(ns), inputCount + count);
        if k < 0 then None else Some(out + [ns[k].activationLevel])
  }

  /** The output array: None when new double[outputCount] throws for a negative count. */
  function OutputsStep(ns: seq<NodeState>, inputCount: int, outputCount: int): Option<seq<real>>
  {
    if outputCount < 0 then None else ReadOutputs(ns, inputCount, outputCount)
  }

  /** An output id that names no node makes the output loop throw. */
  lemma OutputMissing(ns: seq<NodeState>, inputCount: int, count: int, id: int)
    requires inputCount < id <= inputCount + count && id !in NodeIds(ns)
    ensures OutputsStep(ns, inputCount, count).None?
  {
  }

  /** One more output read when its node exists. */
  lemma ReadOutputsHit(ns: seq<NodeState>, inputCount: int, i: nat, levels: seq<real>, level: real)
    requires ReadOutputs(ns, inputCount, i) == Some(levels)
    requires inputCount + i + 1 in NodeIds(ns)
    requires level == ns[IndexOf(NodeIds(ns), inputCount + i + 1)].activationLevel
    ensures ReadOutputs(ns, inputCount, i + 1) == Some(levels + [level])
  {
  }

  /** FeedForward: the node levels afterwards and the outputs, or None when it throws
      (a missing node, or new double[outputCount] with a negative count). */
  function FeedForwardStep(g: GenomeState, inputCount: int, outputCount: int, inputs: seq<real>, exp: ExpFn)
    : Option<(seq<NodeState>, seq<real>)>
  {
    match SetInputs(g.nodes, inputs)
    case None => None
    case Some(ms) =>
      match ActivateNodes(ms, g.conns, exp, |ms|)
      case None => None
      case Some(ls) =>
        match OutputsStep(ls, inputCount, outputCount)
        case None => None
        case Some(out) => Some((ls, out))
  }

  /** In a genome whose every connection starts at a node, no connection lookup fails. */
  lemma {:induction false} WeightedInputDefined(ns: seq<NodeState>, cs: seq<ConnState>, id: int)
    requires forall i :: 0 <= i < |cs| ==> cs[i].inputNodeId in NodeIds(ns)
    ensures WeightedInput(ns, cs, id).Some?
    decreases |cs|
  {
    if |cs| > 0 {
      WeightedInputDefined(ns, cs[..|cs| - 1], id);
    }
  }

  /** ... and so the node loop never throws. */
  lemma {:induction false} ActivateNodesDefined(ns: seq<NodeState>, cs: seq<ConnState>, exp: ExpFn, n: nat)
    requires n <= |ns| && forall i :: 0 <= i < |cs| ==> cs[i].inputNodeId in NodeIds(ns)
    ensures ActivateNodes(ns, cs, exp, n).Some?
  {
    if n > 0 {
      ActivateNodesDefined(ns, cs, exp, n - 1);
      var ms := ActivateNodes(ns, cs, exp, n - 1).value;
      assert NodeIds(ms) == NodeIds(ns);
      WeightedInputDefined(ms, cs, ms[n - 1].id);
    }
  }

  /** For a consistent genome FeedForward throws exactly when some input position or some
      output id names no node, or the output count is negative; it returns outputCount values,
      the levels of nodes in+1..in+out. */
  lemma FeedForwardMeaning(g: GenomeState, inputCount: int, outputCount: int, inputs: seq<real>, exp: ExpFn)
    requires Consistent(g)
    ensures var r := FeedForwardStep(g, inputCount, outputCount, inputs, exp);
      (r.Some? <==> SetInputs(g.nodes, inputs).Some? && outputCount >= 0 &&
                    forall id :: inputCount < id <= inputCount + outputCount ==> id in NodeIds(g.nodes)) &&
      (r.Some? ==> (|r.value.1| == outputCount && SameNodes(r.value.0, g.nodes) &&
        forall i :: 0 <= i < outputCount ==> (inputCount + i + 1 in NodeIds(g.nodes) &&
          r.value.1[i] == r.value.0[IndexOf(NodeIds(g.nodes), inputCount + i + 1)].activationLevel)))
  {
    match SetInputs(g.nodes, inputs)
    case None =>
    case Some(ms) =>
      assert NodeIds(ms) == NodeIds(g.nodes);
      ActivateNodesDefined(ms, g.conns, exp, |ms|);
      var ls := ActivateNodes(ms, g.conns, exp, |ms|).value;
      assert NodeIds(ls) == NodeIds(g.nodes);
  }

  /** SetInputs succeeds exactly when nodes 1..|inputs| all exist. */
  lemma {:induction false} SetInputsDefined(ns: seq<NodeState>, inputs: seq<real>)
    ensures SetInputs(ns, inputs).Some? <==> forall i :: 1 <= i <= |inputs| ==> i in NodeIds(ns)
    decreases |inputs|
  {
    if |inputs| > 0 {
      SetInputsDefined(ns, inputs[..|inputs| - 1]);
      var r := SetInputs(ns, inputs[..|inputs| - 1]);
      if r.Some? {
        assert NodeIds(r.value) == NodeIds(ns);
      }
    }
  }

  /** One more connection of the inner loop, into the node: its weight times its input's
      level is added. */
  lemma WeightedInputHit(ns: seq<NodeState>, cs: seq<ConnState>, id: int, n: nat, s: real, w: real, level: real)
    requires n < |cs| && WeightedInput(ns, cs[..n], id) == Some(s)
    requires cs[n].outputNodeId == id && cs[n].isEnabled && cs[n].inputNodeId in NodeIds(ns)
    requires w == cs[n].weight && level == ns[IndexOf(NodeIds(ns), cs[n].inputNodeId)].activationLevel
    ensures WeightedInput(ns, cs[..n + 1], id) == Some(s + w * level)
  {
    assert cs[..n + 1][..n] == cs[..n];
    var k := IndexOf(NodeIds(ns), cs[n].inputNodeId);
    var r := WeightedInput(ns, cs[..n + 1], id);
    assert r.Some?;
    assert r.value == s + cs[n].weight * ns[k].activationLevel;
    assert r.value == s + w * level;
  }

  /** One more connection of the inner loop, not into the node or disabled: nothing is added. */
  lemma WeightedInputSkip(ns: seq<NodeState>, cs: seq<ConnState>, id: int, n: nat, s: real)
    requires n < |cs| && WeightedInput(ns, cs[..n], id) == Some(s)
    requires !(cs[n].outputNodeId == id && cs[n].isEnabled)
    ensures WeightedInput(ns, cs[..n + 1], id) == Some(s)
  {
    assert cs[..n + 1][..n] == cs[..n];
  }

  /** Once a prefix of the connections hits a missing input node, so does the whole list. */
  lemma {:induction false} WeightedInputStaysNone(ns: seq<NodeState>, cs: seq<ConnState>, id: int, n: nat)
    requires n <= |cs| && WeightedInput(ns, cs[..n], id).None?
    ensures WeightedInput(ns, cs, id).None?
    decreases |cs|
  {
    if n < |cs| {
      var front := cs[..|cs| - 1];
      assert front[..n] == cs[..n];
      WeightedInputStaysNone(ns, front, id, n);
    } else {
      assert cs[..n] == cs;
    }
  }

  /** Once the node loop throws at some node, the whole loop throws. */
  lemma {:induction false} ActivateNodesStaysNone(ns: seq<NodeState>, cs: seq<ConnState>, exp: ExpFn, m: nat, n: nat)
    requires m <= n <= |ns| && ActivateNodes(ns, cs, exp, m).None?
    ensures ActivateNodes(ns, cs, exp, n).None?
    decreases n
  {
    if m < n {
      ActivateNodesStaysNone(ns, cs, exp, m, n - 1);
    }
  }

  /** The node loop throws when the step at position m throws. */
  lemma ActivateNodesFailsAt(ns: seq<NodeState>, cs: seq<ConnState>, exp: ExpFn, m: nat, ms: seq<NodeState>)
    requires m < |ns| && ActivateNodes(ns, cs, exp, m) == Some(ms) && ActivateOne(ms, cs, exp, m).None?
    ensures ActivateNodes(ns, cs, exp, |ns|).None?
  {
    ActivateNodesStaysNone(ns, cs, exp, m + 1, |ns|);
  }

  // ---------------------------------------------------------------------------------------
  // Compatibility distance

  /** The counters of the alignment walk. */
  datatype Alignment = Alignment(matching: nat, disjoint: nat, excess: nat, weightDifference: real)

  function Abs(x: real): real
  {
    if x < 0.0 then -x else x
  }

  function Plus(x: Alignment, y: Alignment): Alignment
  {
    Alignment(x.matching + y.matching, x.disjoint + y.disjoint, x.excess + y.excess,
              x.weightDifference + y.weightDifference)
  }

  /** The walk of CalculateCompatibilityDistance from positions i and j: once one list is
      used up every remaining gene is excess; equal ids match and add their weight
      difference; otherwise the smaller id is disjoint and its side advances. */
  function Align(a: seq<ConnState>, b: seq<ConnState>, i: nat, j: nat): Alignment
    requires i <= |a| && j <= |b|
    decreases |a| - i + |b| - j
  {
    if i == |a| && j == |b| then Alignment(0, 0, 0, 0.0)
    else if i == |a| then Plus(Alignment(0, 0, 1, 0.0), Align(a, b, i, j + 1))
    else if j == |b| then Plus(Alignment(0, 0, 1, 0.0), Align(a, b, i + 1, j))
    else if a[i].id == b[j].id then
      Plus(Alignment(1, 0, 0, Abs(a[i].weight - b[j].weight)), Align(a, b, i + 1, j + 1))
    else if a[i].id < b[j].id then Plus(Alignment(0, 1, 0, 0.0), Align(a, b, i + 1, j))
    else Plus(Alignment(0, 1, 0, 0.0), Align(a, b, i, j + 1))
  }

  /** The final formula: NaN (None) when both lists are empty or nothing matched, since the
      factors then divide zero by zero. */
  function Distance(al: Alignment, maxGenes: int, c1: real, c2: real, c3: real): Option<real>
  {
    if maxGenes == 0 || al.matching == 0 then None
    else Some(c1 * al.excess as real / maxGenes as real + c2 * al.disjoint as real / maxGenes as real +
              c3 * al.weightDifference / al.matching as real)
  }

  /** Every gene is counted once, a matching pair twice. */
  lemma {:induction false} AlignCounts(a: seq<ConnState>, b: seq<ConnState>, i: nat, j: nat)
    requires i <= |a| && j <= |b|
    ensures var al := Align(a, b, i, j);
      2 * al.matching + al.disjoint + al.excess == (|a| - i) + (|b| - j)
    decreases |a| - i + |b| - j
  {
    if i == |a| && j == |b| {
    } else if i == |a| {
      AlignCounts(a, b, i, j + 1);
    } else if j == |b| {
      AlignCounts(a, b, i + 1, j);
    } else if a[i].id == b[j].id {
      AlignCounts(a, b, i + 1, j + 1);
    } else if a[i].id < b[j].id {
      AlignCounts(a, b, i + 1, j);
    } else {
      AlignCounts(a, b, i, j + 1);
    }
  }

  /** The walk does not depend on which genome it starts from. */
  lemma {:induction false} AlignSymmetric(a: seq<ConnState>, b: seq<ConnState>, i: nat, j: nat)
    requires i <= |a| && j <= |b|
    ensures Align(a, b, i, j) == Align(b, a, j, i)
    decreases |a| - i + |b| - j
  {
    if i == |a| && j == |b| {
    } else if i == |a| {
      AlignSymmetric(a, b, i, j + 1);
    } else if j == |b| {
      AlignSymmetric(a, b, i + 1, j);
    } else if a[i].id == b[j].id {
      AlignSymmetric(a, b, i + 1, j + 1);
      assert Abs(a[i].weight - b[j].weight) == Abs(b[j].weight - a[i].weight);
    } else if a[i].id < b[j].id {
      AlignSymmetric(a, b, i + 1, j);
    } else {
      AlignSymmetric(a, b, i, j + 1);
    }
  }

  /** A genome against itself: every gene matches with no weight difference. */
  lemma {:induction false} AlignSelf(a: seq<ConnState>, i: nat)
    requires i <= |a|
    ensures Align(a, a, i, i) == Alignment(|a| - i, 0, 0, 0.0)
    decreases |a| - i
  {
    if i < |a| {
      AlignSelf(a, i + 1);
    }
  }

  /** The distance is symmetric, and a non-empty genome is at distance 0 from itself. */
  lemma DistanceProperties(a: seq<ConnState>, b: seq<ConnState>, c1: real, c2: real, c3: real)
    ensures Distance(Align(a, b, 0, 0), if |a| >= |b| then |a| else |b|, c1, c2, c3) ==
            Distance(Align(b, a, 0, 0), if |b| >= |a| then |b| else |a|, c1, c2, c3)
    ensures |a| > 0 ==> Distance(Align(a, a, 0, 0), |a|, c1, c2, c3) == Some(0.0)
  {
    AlignSymmetric(a, b, 0, 0);
    AlignSelf(a, 0);
  }

  // ---------------------------------------------------------------------------------------
  // Breeding

  /** The gene Breed takes for a gene of the fitter parent: the other parent's gene of the
      same id when that one is enabled, by coin flip if both are enabled; otherwise its own. */
  function ChosenGene(gene1: ConnState, other: seq<ConnState>, coin: real): (r: ConnState)
    ensures r.id == gene1.id && (r == gene1 || r in other)
    ensures gene1.isEnabled ==> r.isEnabled
  {
    var k := IndexOf(ConnIds(other), gene1.id);
    if k >= 0 && other[k].isEnabled then
      (if gene1.isEnabled then (if coin < 0.5 then gene1 else other[k]) else other[k])
    else gene1
  }

  function ChosenGenes(fitter: seq<ConnState>, other: seq<ConnState>, coins: nat -> real): (r: seq<ConnState>)
    ensures |r| == |fitter|
  {
    seq(|fitter|, i requires 0 <= i < |fitter| => ChosenGene(fitter[i], other, coins(i)))
  }


  /** The child Breed returns is a fresh genome that went through one Mutate: it has exactly
      the initial nodes, and at most one connection, from an input to an output node. */
  lemma BreedChildShape(inputCount: int, outputCount: int, d: MutationDraws)
    requires PicksFit(InitialGenome(inputCount, outputCount, Sigmoid), d.connectionPick, d.inputPick, d.outputPick)
    ensures var r := MutateStep(InitialGenome(inputCount, outputCount, Sigmoid), d);
      r.Some? ==>
        r.value.nodes == InitialNodes(inputCount, outputCount, Sigmoid) && |r.value.conns| <= 1 &&
        (|r.value.conns| == 1 ==>
          r.value.conns[0].id == 1 && r.value.conns[0].isEnabled &&
          exists x, y :: x in r.value.nodes && y in r.value.nodes && x.nodeType == Input &&
            y.nodeType == Output && r.value.conns[0].inputNodeId == x.id && r.value.conns[0].outputNodeId == y.id)
  {
    var g := InitialGenome(inputCount, outputCount, Sigmoid);
    var ins := OfType(g.nodes, Input);
    var outs := OfType(g.nodes, Output);
    if d.addConnection < 0.1 && |ins| > 0 && |outs| > 0 {
      OfTypeMembers(g.nodes, Input, ins[d.inputPick]);
      OfTypeMembers(g.nodes, Output, outs[d.outputPick]);
      var h := AddConnectionStep(g, d.inputPick, d.outputPick, d.weightDraw).value;
      assert |h.conns| == 1 && h.conns[0].id == 1 && h.conns[0].isEnabled;
      MutatedConnectionsKeepEdges(h.conns, d);
    }
  }


  // ---------------------------------------------------------------------------------------
  // The lists of objects

  /** Positions i and j of s hold different elements (or are not two positions of s). */
  predicate Apart<T(==)>(s: seq<T>, i: int, j: int)
  {
    0 <= i < |s| && 0 <= j < |s| && i != j ==> s[i] != s[j]
  }

  /** No element occurs twice in the list; the trigger keeps the pairs from being
      instantiated unless a proof asks for one. */
  ghost predicate Unique<T>(s: seq<T>)
  {
    forall i, j {:trigger Apart(s, i, j)} :: Apart(s, i, j)
  }

  lemma UniqueAppend<T>(s: seq<T>, x: T)
    requires Unique(s) && x !in s
    ensures Unique(s + [x])
  {
    forall i, j ensures Apart(s + [x], i, j) {
      assert Apart(s, i, j);
    }
  }

  /** The node objects are in the states ss, position by position. */
  ghost predicate NodesMatch(ns: seq<Node>, ss: seq<NodeState>)
    reads ns
  {
    |ns| == |ss| && forall j {:trigger ns[j]} :: 0 <= j < |ns| ==> ns[j].State() == ss[j]
  }

  /** The connection objects are in the states ss, position by position. */
  ghost predicate ConnectionsMatch(cs: seq<Connection>, ss: seq<ConnState>)
    reads cs
  {
    |cs| == |ss| && forall j {:trigger cs[j]} :: 0 <= j < |cs| ==> cs[j].State() == ss[j]
  }

  // ---------------------------------------------------------------------------------------
  // The classes

  class Node {
    const id: int
    const nodeType: NodeType
    var value: real
    var activationLevel: real
    const activationType: ActivationType
    var activationFunction: Activation

    function State(): NodeState
      reads this
    {
      NodeState(id, nodeType, value, activationLevel, activationType, activationFunction)
    }

    /** Node(id, type, activationType). */
    constructor (id: int, nodeType: NodeType, activationType: ActivationType)
      ensures State() == NewNode(id, nodeType, activationType)
      ensures this.id == id && this.nodeType == nodeType && this.activationType == activationType
    {
      this.id := id;
      this.nodeType := nodeType;
      value := 0.0;
      activationLevel := 0.0;
      this.activationType := activationType;
      activationFunction := GetActivationFromType(activationType);
    }

    /** Node.Mutate: a hidden node draws and then leaves its activation as it is; no field
        of any node changes. */
    method Mutate(draw: real)
      ensures State() == old(State())
    {
    }

    /** Node.Clone: a new node with the same id, type, value, activation and level. */
    method Clone() returns (clone: Node)
      ensures fresh(clone) && clone.State() == State()
    {
      clone := new Node(id, nodeType, activationType);
      clone.value := value;
      clone.activationFunction := activationFunction;
      clone.activationLevel := activationLevel;
      assert clone.id == id && clone.nodeType == nodeType && clone.activationType == activationType;
    }
  }

  class Connection {
    const id: int
    const inputNodeId: int
    const outputNodeId: int
    var weight: real
    var isEnabled: bool
    const isRecurrent: bool := false
    const perturbChance: real := 0.9
    const maxWeightPerturbation: real := 0.1
    const compatibilityThreshold: real := 0.5

    function State(): ConnState
      reads this
    {
      ConnState(id, inputNodeId, outputNodeId, weight, isEnabled, isRecurrent, perturbChance,
                maxWeightPerturbation, compatibilityThreshold)
    }

    /** Connection(inputNode, outputNode, weight, connectionId). */
    constructor (inputNode: int, outputNode: int, weight: real, connectionId: int)
      ensures State() == NewConnection(inputNode, outputNode, weight, connectionId)
    {
      id := connectionId;
      inputNodeId := inputNode;
      outputNodeId := outputNode;
      this.weight := weight;
      isEnabled := true;
    }

    /** Connection.Mutate with its two draws. */
    method Mutate(flip: real, draw: real)
      modifies this
      ensures State() == MutatedConnection(old(State()), flip, draw)
    {
      if flip < perturbChance {
        weight := weight + (draw * 2.0 - 1.0) * maxWeightPerturbation;
      } else {
        weight := draw * 2.0 - 1.0;
      }
    }

    /** Connection.Disable: only the enabled flag changes. */
    method Disable()
      modifies this
      ensures State() == old(State()).(isEnabled := false)
    {
      isEnabled := false;
    }

    /** Connection.Clone: a new connection with the same id, endpoints, weight and flag. */
    method Clone() returns (clone: Connection)
      ensures fresh(clone) && clone.State() == State()
    {
      clone := new Connection(inputNodeId, outputNodeId, weight, id);
      clone.isEnabled := isEnabled;
    }
  }

  /** The nodes both constructors create. */
  method CreateNodes(inputCount: int, outputCount: int, a: ActivationType) returns (ns: seq<Node>)
    ensures NodesMatch(ns, InitialNodes(inputCount, outputCount, a))
    ensures Unique(ns) && forall j :: 0 <= j < |ns| ==> fresh(ns[j])
  {
    var ni := if inputCount > 0 then inputCount else 0;
    var no := if outputCount > 0 then outputCount else 0;
    ghost var goal := InitialNodes(inputCount, outputCount, a);
    ns := [];
    var i := 1;
    while i <= inputCount
      invariant 1 <= i <= ni + 1 && |ns| == i - 1
      invariant forall j :: 0 <= j < |ns| ==> ns[j].State() == goal[j]
      invariant Unique(ns) && forall j :: 0 <= j < |ns| ==> fresh(ns[j])
    {
      var node := new Node(i, Input, a);
      UniqueAppend(ns, node);
      ns := ns + [node];
      i := i + 1;
    }
    i := 1;
    while i <= outputCount
      invariant 1 <= i <= no + 1 && |ns| == ni + i - 1
      invariant forall j :: 0 <= j < |ns| ==> ns[j].State() == goal[j]
      invariant Unique(ns) && forall j :: 0 <= j < |ns| ==> fresh(ns[j])
    {
      var node := new Node(inputCount + i, Output, a);
      UniqueAppend(ns, node);
      ns := ns + [node];
      i := i + 1;
    }
  }

  class NEAT {
    var activationFunction: ActivationType
    var nodes: seq<Node>
    var connections: seq<Connection>
    const inputCount: int
    const outputCount: int
    var nextNodeId: int
    var nextConnectionId: int
    const compatibilityThreshold: real := 3.0
    const c1: real := 1.0
    const c2: real := 1.0
    const c3: real := 0.4
    var fitness: real
    /** The states of the node and connection objects, in list order. */
    ghost var nodeStates: seq<NodeState>
    ghost var connStates: seq<ConnState>

    /** The genome as a value. */
    ghost function State(): GenomeState
      reads this
    {
      GenomeState(nodeStates, connStates, nextNodeId, nextConnectionId, activationFunction)
    }

    /** The objects are in the recorded states and each occurs once in its list. */
    ghost predicate Valid()
      reads this, nodes, connections
    {
      NodesMatch(nodes, nodeStates) && ConnectionsMatch(connections, connStates) &&
      Unique(nodes) && Unique(connections)
    }

    /** NEAT(inputCount, outputCount). ActivationFunction is read before anything can set it,
        so every node gets the default, Sigmoid. */
    constructor (inputCount: int, outputCount: int)
      ensures Valid() && State() == InitialGenome(inputCount, outputCount, Sigmoid)
      ensures forall j :: 0 <= j < |nodes| ==> fresh(nodes[j])
      ensures this.inputCount == inputCount && this.outputCount == outputCount && fitness == 0.0
    {
      var ns := CreateNodes(inputCount, outputCount, Sigmoid);
      activationFunction := Sigmoid;
      nodes := ns;
      connections := [];
      this.inputCount := inputCount;
      this.outputCount := outputCount;
      nextNodeId := inputCount + outputCount + 1;
      nextConnectionId := 1;
      fitness := 0.0;
      nodeStates := InitialNodes(inputCount, outputCount, Sigmoid);
      connStates := [];
    }

    /** NEAT(childNodes, childGenes, inputCount, outputCount): the children are ignored, so
        the genome is exactly the one the two-argument constructor builds. */
    constructor FromChildren(childNodes: seq<Node>, childGenes: seq<Connection>, inputCount: int, outputCount: int)
      ensures Valid() && State() == InitialGenome(inputCount, outputCount, Sigmoid)
      ensures forall j :: 0 <= j < |nodes| ==> fresh(nodes[j])
      ensures this.inputCount == inputCount && this.outputCount == outputCount && fitness == 0.0
    {
      var ns := CreateNodes(inputCount, outputCount, Sigmoid);
      activationFunction := Sigmoid;
      nodes := ns;
      connections := [];
      this.inputCount := inputCount;
      this.outputCount := outputCount;
      nextNodeId := inputCount + outputCount + 1;
      nextConnectionId := 1;
      fitness := 0.0;
      nodeStates := InitialNodes(inputCount, outputCount, Sigmoid);
      connStates := [];
    }

    /** setFitness. */
    method SetFitness(newFitness: real)
      modifies this`fitness
      ensures fitness == newFitness
    {
      fitness := newFitness;
    }

    /** GetNode: the first node with the id, or null. */
    method GetNode(id: int) returns (node: Node?)
      requires NodesMatch(nodes, nodeStates)
      ensures node == null <==> id !in NodeIds(nodeStates)
      ensures node != null ==> node == nodes[IndexOf(NodeIds(nodeStates), id)]
    {
      ghost var ids := NodeIds(nodeStates);
      var i := 0;
      while i < |nodes|
        invariant 0 <= i <= |nodes|
        invariant forall j :: 0 <= j < i ==> ids[j] != id
      {
        assert ids[i] == nodes[i].id;
        if nodes[i].id == id {
          return nodes[i];
        }
        i := i + 1;
      }
      return null;
    }

    /** GetConnection: the first connection with the id, or null. */
    method GetConnection(id: int) returns (connection: Connection?)
      requires ConnectionsMatch(connections, connStates)
      ensures connection == null <==> id !in ConnIds(connStates)
      ensures connection != null ==> connection == connections[IndexOf(ConnIds(connStates), id)]
    {
      ghost var ids := ConnIds(connStates);
      var i := 0;
      while i < |connections|
        invariant 0 <= i <= |connections|
        invariant forall j :: 0 <= j < i ==> ids[j] != id
      {
        assert ids[i] == connections[i].id;
        if connections[i].id == id {
          return connections[i];
        }
        i := i + 1;
      }
      return null;
    }

    /** IsDuplicateConnection: some connection already runs from a to b. */
    method IsDuplicateConnection(a: int, b: int) returns (r: bool)
      requires ConnectionsMatch(connections, connStates)
      ensures r == HasEdge(connStates, a, b)
    {
      var i := 0;
      while i < |connections|
        invariant 0 <= i <= |connections|
        invariant forall j :: 0 <= j < i ==> !(connStates[j].inputNodeId == a && connStates[j].outputNodeId == b)
      {
        assert connections[i].State() == connStates[i];
        if connections[i].inputNodeId == a && connections[i].outputNodeId == b {
          return true;
        }
        i := i + 1;
      }
      return false;
    }

    /** _nodes.Where(node => node.Type == t).ToList(). */
    method NodesOfType(t: NodeType) returns (r: seq<Node>)
      requires Valid()
      ensures NodesMatch(r, OfType(nodeStates, t))
    {
      r := [];
      var i := 0;
      while i < |nodes|
        invariant 0 <= i <= |nodes|
        invariant NodesMatch(r, OfType(nodeStates[..i], t))
      {
        assert nodeStates[..i + 1][..i] == nodeStates[..i];
        assert nodes[i].State() == nodeStates[i];
        if nodes[i].nodeType == t {
          r := r + [nodes[i]];
        }
        i := i + 1;
      }
      assert nodeStates[..i] == nodeStates;
    }

    /** AddNode: nothing changes without connections; otherwise the picked connection is
        disabled and a hidden node and two connections are appended. */
    method AddNode(pick: nat)
      requires Valid() && (|connStates| > 0 ==> pick < |connStates|)
      modifies this, connections
      ensures Valid() && State() == AddNodeStep(old(State()), pick)
      ensures forall j :: 0 <= j < |connections| ==> connections[j] in old(connections) || fresh(connections[j])
    {
      if |connections| > 0 {
        ghost var cs0 := connections;
        var first, second := SplitConnection(pick);
        assert forall j :: 0 <= j < |connections| ==> connections[j] in cs0 || connections[j] in {first, second};
      }
    }

    /** The non-empty case of AddNode: the picked connection is replaced by a path through
        a new hidden node. */
    method SplitConnection(pick: nat) returns (first: Connection, second: Connection)
      requires Valid() && pick < |connStates|
      modifies this`nodes, this`nodeStates, this`nextNodeId, this`connections, this`connStates
      modifies this`nextConnectionId, connections[pick]
      ensures Valid() && State() == AddNodeStep(old(State()), pick)
      ensures fresh(first) && fresh(second) && connections == old(connections) + [first, second]
    {
      ghost var g := State();
      var connection := connections[pick];
      var inputNodeId, outputNodeId, weight := connection.inputNodeId, connection.outputNodeId, connection.weight;
      assert inputNodeId == g.conns[pick].inputNodeId && outputNodeId == g.conns[pick].outputNodeId;
      assert weight == g.conns[pick].weight;
      ghost var cs0 := connections;
      DisableAt(pick);
      var newNode := AppendHidden();
      first := AppendConnection(inputNodeId, newNode.id, 1.0);
      second := AppendConnection(newNode.id, outputNodeId, weight);
      assert connections == cs0 + [first, second];
    }

    /** Connection.Disable on the picked connection: no other connection changes. */
    method DisableAt(pick: nat)
      requires Valid() && pick < |connections|
      modifies this`connStates, connections[pick]
      ensures Valid() && connStates == old(connStates)[pick := old(connStates)[pick].(isEnabled := false)]
    {
      connections[pick].Disable();
      connStates := connStates[pick := connStates[pick].(isEnabled := false)];
      forall j | 0 <= j < |connections| ensures connections[j].State() == connStates[j] {
        assert Apart(connections, j, pick);
      }
    }

    /** The hidden node appended under the next node id. */
    method AppendHidden() returns (newNode: Node)
      requires Valid()
      modifies this`nodes, this`nodeStates, this`nextNodeId
      ensures Valid() && fresh(newNode) && nodes == old(nodes) + [newNode]
      ensures nodeStates == old(nodeStates) + [NewNode(old(nextNodeId), Hidden, activationFunction)]
      ensures nextNodeId == old(nextNodeId) + 1 && newNode.id == old(nextNodeId)
    {
      newNode := new Node(nextNodeId, Hidden, activationFunction);
      UniqueAppend(nodes, newNode);
      nodes := nodes + [newNode];
      nodeStates := nodeStates + [newNode.State()];
      nextNodeId := nextNodeId + 1;
    }

    /** The connection appended under the next connection id. */
    method AppendConnection(inputNodeId: int, outputNodeId: int, weight: real) returns (connection: Connection)
      requires Valid()
      modifies this`connections, this`connStates, this`nextConnectionId
      ensures Valid() && fresh(connection) && connections == old(connections) + [connection]
      ensures connStates == old(connStates) + [NewConnection(inputNodeId, outputNodeId, weight, old(nextConnectionId))]
      ensures nextConnectionId == old(nextConnectionId) + 1
    {
      connection := new Connection(inputNodeId, outputNodeId, weight, nextConnectionId);
      nextConnectionId := nextConnectionId + 1;
      UniqueAppend(connections, connection);
      connections := connections + [connection];
      connStates := connStates + [connection.State()];
    }

    /** AddConnection: fails (throws) when one of the node lists is empty, keeps the genome
        when the picked pair is connected, and otherwise appends one new connection. */
    method AddConnection(inputPick: nat, outputPick: nat, draw: real) returns (ok: bool)
      requires Valid() && PicksFit(State(), 0, inputPick, outputPick)
      modifies this
      ensures Valid() && nodes == old(nodes)
      ensures ok == AddConnectionStep(old(State()), inputPick, outputPick, draw).Some?
      ensures ok ==> State() == AddConnectionStep(old(State()), inputPick, outputPick, draw).value
      ensures !ok ==> State() == old(State())
      ensures forall j :: 0 <= j < |connections| ==> connections[j] in old(connections) || fresh(connections[j])
    {
      ghost var g := State();
      var inputNodes := NodesOfType(Input);
      var outputNodes := NodesOfType(Output);
      if |inputNodes| == 0 || |outputNodes| == 0 {
        return false;
      }
      var inputNode := inputNodes[inputPick];
      var outputNode := outputNodes[outputPick];
      AddConnectionValue(g, inputPick, outputPick, draw);
      var duplicate := IsDuplicateConnection(inputNode.id, outputNode.id);
      if duplicate {
        return true;
      }
      var connection := AppendConnection(inputNode.id, outputNode.id, draw * 2.0 - 1.0);
      return true;
    }

    /** The connection loop of Mutate. */
    method MutateConnections(d: MutationDraws)
      requires Valid()
      modifies this`connStates, connections
      ensures Valid() && connStates == MutatedConnections(old(connStates), d)
      ensures State() == old(State()).(conns := MutatedConnections(old(connStates), d))
    {
      ghost var goal := MutatedConnections(connStates, d);
      var k := 0;
      while k < |connections|
        invariant 0 <= k <= |connections| && connStates == old(connStates) && |connStates| == |connections|
        invariant forall j :: 0 <= j < k ==> connections[j].State() == goal[j]
        invariant forall j :: k <= j < |connections| ==> connections[j].State() == connStates[j]
      {
        if d.connectionFlip(k) < 0.1 {
          label before:
          connections[k].Mutate(d.perturbFlip(k), d.perturbDraw(k));
          forall j | 0 <= j < |connections| && j != k
            ensures connections[j].State() == old@before(connections[j].State())
          {
            assert Apart(connections, j, k);
          }
        }
        k := k + 1;
      }
      connStates := goal;
    }

    /** Mutate: the state MutateStep describes, or, when AddConnection throws, the state
        after the AddNode step. */
    method Mutate(d: MutationDraws) returns (ok: bool)
      requires Valid() && PicksFit(State(), d.connectionPick, d.inputPick, d.outputPick)
      modifies this, connections
      ensures Valid()
      ensures ok == MutateStep(old(State()), d).Some?
      ensures ok ==> State() == MutateStep(old(State()), d).value
      ensures !ok ==> State() == AfterAddNode(old(State()), d)
    {
      ok := MutateStructure(d);
      if !ok {
        return;
      }
      var k := 0;
      while k < |nodes|
        invariant 0 <= k <= |nodes|
        modifies {}
      {
        if d.nodeFlip(k) < 0.1 {
          nodes[k].Mutate(d.nodeDraw(k));
        }
        k := k + 1;
      }
      MutateConnections(d);
    }

    /** The AddNode and AddConnection stages of Mutate. */
    method MutateStructure(d: MutationDraws) returns (ok: bool)
      requires Valid() && PicksFit(State(), d.connectionPick, d.inputPick, d.outputPick)
      modifies this, connections
      ensures Valid()
      ensures ok == AfterAddConnection(old(State()), d).Some?
      ensures ok ==> State() == AfterAddConnection(old(State()), d).value
      ensures !ok ==> State() == AfterAddNode(old(State()), d)
      ensures forall j :: 0 <= j < |connections| ==> connections[j] in old(connections) || fresh(connections[j])
    {
      ghost var g := State();
      if d.addNode < 0.05 {
        AddNode(d.connectionPick);
      }
      AddNodeKeepsTypes(g, d.connectionPick);
      ok := true;
      if d.addConnection < 0.1 {
        ok := AddConnection(d.inputPick, d.outputPick, d.weightDraw);
      }
    }

    /** The input loop of FeedForward: node i + 1 takes inputs[i]. */
    method SetInputLevels(inputs: array<real>) returns (ok: bool)
      requires Valid()
      modifies this`nodeStates, nodes
      ensures Valid()
      ensures ok == SetInputs(old(nodeStates), inputs[..]).Some?
      ensures ok ==> nodeStates == SetInputs(old(nodeStates), inputs[..]).value
    {
      ghost var ns0 := nodeStates;
      var i := 0;
      while i < inputs.Length
        invariant 0 <= i <= inputs.Length
        invariant Valid()
        invariant SetInputs(ns0, inputs[..i]) == Some(nodeStates)
      {
        ok := SetInputLevel(inputs, i, ns0);
        if !ok {
          return;
        }
        i := i + 1;
      }
      assert inputs[..] == inputs[..inputs.Length];
      return true;
    }

    /** One step of the input loop: node i + 1 takes inputs[i], or the whole loop fails when
        that node is missing. */
    method SetInputLevel(inputs: array<real>, i: nat, ghost ns0: seq<NodeState>) returns (ok: bool)
      requires Valid() && i < inputs.Length && SetInputs(ns0, inputs[..i]) == Some(nodeStates)
      modifies this`nodeStates, nodes
      ensures Valid()
      ensures ok ==> SetInputs(ns0, inputs[..i + 1]) == Some(nodeStates)
      ensures !ok ==> SetInputs(ns0, inputs[..]).None?
    {
      assert inputs[..i + 1][..i] == inputs[..i];
      assert NodeIds(nodeStates) == NodeIds(ns0);
      var node := GetNode(i + 1);
      if node == null {
        SetInputsDefined(ns0, inputs[..]);
        return false;
      }
      ghost var k := IndexOf(NodeIds(nodeStates), i + 1);
      var level := inputs[i];
      node.activationLevel := level;
      nodeStates := nodeStates[k := nodeStates[k].(activationLevel := level)];
      forall j | 0 <= j < |nodes| && j != k
        ensures nodes[j].State() == nodeStates[j]
      {
        assert Apart(nodes, j, k);
      }
      return true;
    }

    /** The inner loop of FeedForward: the weighted sum of the enabled connections into id. */
    method WeightedSum(id: int) returns (ok: bool, activation: real)
      requires Valid()
      ensures ok == WeightedInput(nodeStates, connStates, id).Some?
      ensures ok ==> activation == WeightedInput(nodeStates, connStates, id).value
    {
      activation := 0.0;
      var j := 0;
      while j < |connections|
        invariant 0 <= j <= |connections|
        invariant WeightedInput(nodeStates, connStates[..j], id) == Some(activation)
      {
        var connection := connections[j];
        assert connection.State() == connStates[j];
        if connection.outputNodeId == id && connection.isEnabled {
          var found, level := LevelOf(connection.inputNodeId);
          if !found {
            WeightedInputStaysNone(nodeStates, connStates, id, j + 1);
            return false, 0.0;
          }
          var weight := connection.weight;
          WeightedInputHit(nodeStates, connStates, id, j, activation, weight, level);
          activation := activation + weight * level;
        } else {
          WeightedInputSkip(nodeStates, connStates, id, j, activation);
        }
        j := j + 1;
      }
      assert connStates[..j] == connStates;
      ok := true;
    }

    /** One pass of the node loop of FeedForward: a hidden or output node takes its
        activation of its weighted input. */
    method ActivateNode(n: nat, exp: ExpFn) returns (ok: bool)
      requires Valid() && n < |nodes|
      modifies this`nodeStates, nodes[n]
      ensures Valid()
      ensures ok == ActivateOne(old(nodeStates), connStates, exp, n).Some?
      ensures ok ==> nodeStates == ActivateOne(old(nodeStates), connStates, exp, n).value
    {
      var node := nodes[n];
      assert node.State() == nodeStates[n];
      if node.nodeType == Hidden || node.nodeType == Output {
        var found, activation := WeightedSum(node.id);
        if !found {
          return false;
        }
        var level := Activate(node.activationFunction, exp, activation);
        node.activationLevel := level;
        nodeStates := nodeStates[n := nodeStates[n].(activationLevel := level)];
        forall j | 0 <= j < |nodes| && j != n
          ensures nodes[j].State() == nodeStates[j]
        {
          assert Apart(nodes, j, n);
        }
      }
      return true;
    }

    /** The node loop of FeedForward over all nodes, in list order. */
    method ActivateHiddenAndOutputs(exp: ExpFn) returns (ok: bool)
      requires Valid()
      modifies this`nodeStates, nodes
      ensures Valid()
      ensures ok == ActivateNodes(old(nodeStates), connStates, exp, |old(nodeStates)|).Some?
      ensures ok ==> nodeStates == ActivateNodes(old(nodeStates), connStates, exp, |old(nodeStates)|).value
    {
      ghost var ms0 := nodeStates;
      var n := 0;
      while n < |nodes|
        invariant 0 <= n <= |nodes| && |ms0| == |nodes|
        invariant Valid()
        invariant ActivateNodes(ms0, connStates, exp, n) == Some(nodeStates)
      {
        ok := ActivateStep(n, exp, ms0);
        if !ok {
          return;
        }
        n := n + 1;
      }
      return true;
    }

    /** One step of the node loop: node n activated, or the whole loop fails. */
    method ActivateStep(n: nat, exp: ExpFn, ghost ms0: seq<NodeState>) returns (ok: bool)
      requires Valid() && n < |nodes| && |ms0| == |nodes|
      requires ActivateNodes(ms0, connStates, exp, n) == Some(nodeStates)
      modifies this`nodeStates, nodes
      ensures Valid()
      ensures ok ==> ActivateNodes(ms0, connStates, exp, n + 1) == Some(nodeStates)
      ensures !ok ==> ActivateNodes(ms0, connStates, exp, |ms0|).None?
    {
      ghost var ms := nodeStates;
      ok := ActivateNode(n, exp);
      if !ok {
        ActivateNodesFailsAt(ms0, connStates, exp, n, ms);
      }
    }

    /** GetNode(id).ActivationLevel, or false when GetNode returns null. */
    method LevelOf(id: int) returns (found: bool, level: real)
      requires NodesMatch(nodes, nodeStates)
      ensures found == (id in NodeIds(nodeStates))
      ensures found ==> level == nodeStates[IndexOf(NodeIds(nodeStates), id)].activationLevel
    {
      var node := GetNode(id);
      if node == null {
        return false, 0.0;
      }
      return true, node.activationLevel;
    }

    /** The output loop of FeedForward: the levels of nodes in + 1 .. in + out. */
    method ReadOutputLevels() returns (ok: bool, outputs: array<real>)
      requires Valid()
      ensures fresh(outputs)
      ensures ok == OutputsStep(nodeStates, inputCount, outputCount).Some?
      ensures ok ==> outputs[..] == OutputsStep(nodeStates, inputCount, outputCount).value
    {
      var levels;
      ok, levels := OutputLevels();
      if !ok {
        outputs := new real[0];
        return;
      }
      outputs := new real[outputCount];
      forall k | 0 <= k < outputCount {
        outputs[k] := levels[k];
      }
      assert outputs[..] == levels;
    }

    /** The output loop of FeedForward: the levels of nodes inputCount + 1 .. inputCount +
        outputCount, in that order. */
    method OutputLevels() returns (ok: bool, levels: seq<real>)
      requires NodesMatch(nodes, nodeStates)
      ensures ok == OutputsStep(nodeStates, inputCount, outputCount).Some?
      ensures ok ==> |levels| == outputCount && levels == OutputsStep(nodeStates, inputCount, outputCount).value
    {
      levels := [];
      if outputCount < 0 {
        return false, levels;
      }
      var i := 0;
      while i < outputCount
        invariant 0 <= i <= outputCount
        invariant ReadOutputs(nodeStates, inputCount, i) == Some(levels)
      {
        var found;
        found, levels := NextOutput(i, levels);
        if !found {
          return false, levels;
        }
        i := i + 1;
      }
      return true, levels;
    }

    /** One step of the output loop: the level of node inputCount + i + 1 appended, or the
        whole read fails when that node is missing. */
    method NextOutput(i: nat, levels: seq<real>) returns (found: bool, next: seq<real>)
      requires NodesMatch(nodes, nodeStates) && 0 <= i < outputCount
      requires ReadOutputs(nodeStates, inputCount, i) == Some(levels)
      ensures found ==> ReadOutputs(nodeStates, inputCount, i + 1) == Some(next)
      ensures !found ==> OutputsStep(nodeStates, inputCount, outputCount).None?
    {
      var level;
      found, level := LevelOf(inputCount + i + 1);
      if !found {
        OutputMissing(nodeStates, inputCount, outputCount, inputCount + i + 1);
        return false, levels;
      }
      ReadOutputsHit(nodeStates, inputCount, i, levels, level);
      return true, levels + [level];
    }

    /** FeedForward: the levels and outputs FeedForwardStep describes. When it throws, the
        levels set so far stay set. */
    method FeedForward(inputs: array<real>, exp: ExpFn) returns (ok: bool, outputs: array<real>)
      requires Valid()
      modifies this`nodeStates, nodes
      ensures Valid() && fresh(outputs)
      ensures var r := FeedForwardStep(old(State()), inputCount, outputCount, inputs[..], exp);
        ok == r.Some? && (ok ==> nodeStates == r.value.0 && outputs[..] == r.value.1)
    {
      outputs := new real[0];
      ok := SetInputLevels(inputs);
      if !ok {
        return;
      }
      ok := ActivateHiddenAndOutputs(exp);
      if !ok {
        return;
      }
      ok, outputs := ReadOutputLevels();
    }

    /** CalculateCompatibilityDistance: the alignment walk over both gene lists and the
        formula; None where the source's division yields NaN. */
    method CalculateCompatibilityDistance(other: NEAT) returns (distance: Option<real>)
      requires Valid() && other.Valid()
      ensures distance == Distance(Align(connStates, other.connStates, 0, 0),
        if |connStates| >= |other.connStates| then |connStates| else |other.connStates|, c1, c2, c3)
    {
      ghost var a, b := connStates, other.connStates;
      var disjointGenes, excessGenes, matchingGenes := 0, 0, 0;
      var weightDifference := 0.0;
      var thisGeneIndex, otherGeneIndex := 0, 0;
      while thisGeneIndex < |connections| || otherGeneIndex < |other.connections|
        invariant 0 <= thisGeneIndex <= |a| && 0 <= otherGeneIndex <= |b|
        invariant Align(a, b, 0, 0) == Plus(Alignment(matchingGenes, disjointGenes, excessGenes, weightDifference),
                                            Align(a, b, thisGeneIndex, otherGeneIndex))
        decreases |a| - thisGeneIndex + |b| - otherGeneIndex
      {
        if thisGeneIndex == |connections| {
          excessGenes := excessGenes + 1;
          otherGeneIndex := otherGeneIndex + 1;
        } else if otherGeneIndex == |other.connections| {
          excessGenes := excessGenes + 1;
          thisGeneIndex := thisGeneIndex + 1;
        } else {
          var thisGene := connections[thisGeneIndex];
          var otherGene := other.connections[otherGeneIndex];
          assert thisGene.State() == a[thisGeneIndex] && otherGene.State() == b[otherGeneIndex];
          if thisGene.id == otherGene.id {
            matchingGenes := matchingGenes + 1;
            weightDifference := weightDifference + Abs(thisGene.weight - otherGene.weight);
            thisGeneIndex := thisGeneIndex + 1;
            otherGeneIndex := otherGeneIndex + 1;
          } else if thisGene.id < otherGene.id {
            disjointGenes := disjointGenes + 1;
            thisGeneIndex := thisGeneIndex + 1;
          } else {
            disjointGenes := disjointGenes + 1;
            otherGeneIndex := otherGeneIndex + 1;
          }
        }
      }
      var maxGenes := if |connections| >= |other.connections| then |connections| else |other.connections|;
      if maxGenes == 0 || matchingGenes == 0 {
        return None;
      }
      var excessFactor := c1 * excessGenes as real / maxGenes as real;
      var disjointFactor := c2 * disjointGenes as real / maxGenes as real;
      var weightFactor := c3 * weightDifference / matchingGenes as real;
      return Some(excessFactor + disjointFactor + weightFactor);
    }

    /** The gene choice of Breed, made on the less fit parent: its enabled gene of the same
        id when there is one, by coin flip if gene1 is enabled too; otherwise gene1. */
    method ChooseGene(gene1: Connection, coin: real) returns (childGene: Connection)
      requires ConnectionsMatch(connections, connStates)
      ensures childGene.State() == ChosenGene(gene1.State(), connStates, coin)
    {
      var gene2 := GetConnection(gene1.id);
      if gene2 != null && gene2.isEnabled {
        childGene := if gene1.isEnabled then (if coin < 0.5 then gene1 else gene2) else gene2;
      } else {
        childGene := gene1;
      }
    }

    /** The node step of Breed: when id is not yet a key, GetNode(id).Clone() is added under
        it, which throws when this genome has no such node. */
    method AddChildNode(id: int, childNodes: map<int, Node>, order: seq<Node>)
      returns (ok: bool, newNodes: map<int, Node>, newOrder: seq<Node>)
      requires NodesMatch(nodes, nodeStates)
      ensures ok == (id in childNodes || id in NodeIds(nodeStates))
      ensures ok ==> newNodes.Keys == childNodes.Keys + {id}
      ensures ok && id !in childNodes ==> (fresh(newNodes[id]) && newOrder == order + [newNodes[id]] &&
        newNodes[id].State() == nodeStates[IndexOf(NodeIds(nodeStates), id)])
      ensures ok && id in childNodes ==> newNodes == childNodes && newOrder == order
    {
      if id in childNodes {
        return true, childNodes, order;
      }
      var node := GetNode(id);
      if node == null {
        return false, childNodes, order;
      }
      var clone := node.Clone();
      assert clone.id == id;
      newNodes := childNodes[clone.id := clone];
      newOrder := order + [clone];
      ok := true;
    }

    /** The gene loop of Breed, with the end nodes looked up in this genome: false when one
        is missing (the null dereference throws), otherwise the chosen genes in order. */
    method CrossGenes(parent1: NEAT, parent2: NEAT, coins: nat -> real)
      returns (ok: bool, childGenes: seq<Connection>, childNodeList: seq<Node>)
      requires NodesMatch(nodes, nodeStates)
      requires ConnectionsMatch(parent1.connections, parent1.connStates)
      requires ConnectionsMatch(parent2.connections, parent2.connStates)
      ensures ok == EndpointsKnown(ChosenGenes(parent1.connStates, parent2.connStates, coins), NodeIds(nodeStates))
      ensures ok ==> |childGenes| == |parent1.connStates| && forall k :: 0 <= k < |childGenes| ==>
        childGenes[k].State() == ChosenGenes(parent1.connStates, parent2.connStates, coins)[k]
    {
      ghost var chosen := ChosenGenes(parent1.connStates, parent2.connStates, coins);
      ghost var ids := NodeIds(nodeStates);
      childGenes := [];
      var childNodes: map<int, Node> := map[];
      childNodeList := [];
      var i := 0;
      while i < |parent1.connections|
        invariant 0 <= i <= |parent1.connections| == |chosen| && |childGenes| == i
        invariant forall k :: 0 <= k < i ==> childGenes[k].State() == chosen[k]
        invariant forall k :: 0 <= k < i ==> chosen[k].inputNodeId in ids && chosen[k].outputNodeId in ids
        invariant forall id :: id in childNodes ==> id in ids
      {
        var gene1 := parent1.connections[i];
        assert gene1.State() == parent1.connStates[i];
        var childGene := parent2.ChooseGene(gene1, coins(i));
        assert childGene.State() == chosen[i];
        childGenes := childGenes + [childGene];
        var found;
        found, childNodes, childNodeList := AddChildNode(childGene.inputNodeId, childNodes, childNodeList);
        if !found {
          assert chosen[i].inputNodeId !in ids;
          return false, childGenes, childNodeList;
        }
        found, childNodes, childNodeList := AddChildNode(childGene.outputNodeId, childNodes, childNodeList);
        if !found {
          assert chosen[i].outputNodeId !in ids;
          return false, childGenes, childNodeList;
        }
        i := i + 1;
      }
      ok := true;
    }

    /** Breed: the genes of the fitter parent crossed with the other's, as ChosenGenes says;
        the child is then built from the counts alone and mutated once. */
    method Breed(other: NEAT, coins: nat -> real, d: MutationDraws) returns (ok: bool, child: NEAT?)
      requires Valid() && other.Valid()
      requires PicksFit(InitialGenome(inputCount, outputCount, Sigmoid), d.connectionPick, d.inputPick, d.outputPick)
      ensures var fitter := if fitness >= other.fitness then connStates else other.connStates;
        var weaker := if fitness >= other.fitness then other.connStates else connStates;
        ok <==> EndpointsKnown(ChosenGenes(fitter, weaker, coins), NodeIds(nodeStates)) &&
                MutateStep(InitialGenome(inputCount, outputCount, Sigmoid), d).Some?
      ensures ok ==> (child != null && fresh(child) && child.Valid() &&
        child.State() == MutateStep(InitialGenome(inputCount, outputCount, Sigmoid), d).value &&
        child.inputCount == inputCount && child.outputCount == outputCount)
    {
      var parent1 := if fitness >= other.fitness then this else other;
      var parent2 := if fitness < other.fitness then this else other;
      var crossed, childGenes, childNodeList := CrossGenes(parent1, parent2, coins);
      if !crossed {
        return false, null;
      }
      child := new NEAT.FromChildren(childNodeList, childGenes, inputCount, outputCount);
      ok := child.Mutate(d);
      if !ok {
        child := null;
      }
    }
  }
}
