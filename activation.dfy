/** The activation functions a layer applies to its weighted inputs, the tags that
    name them, and the conversions between the two. */
module Activations {
  import opened Support

  /** Math.Exp, kept abstract: any function whose values are all positive. */
  type ExpFn = f: real -> real | forall x :: f(x) > 0.0 witness ConstantOne

  function ConstantOne(x: real): real { 1.0 }

  /** Activation.ActivationType. */
  datatype ActivationType = Sigmoid | TanH | ReLU | SiLU | Softmax

  /** The five stateless activation structures behind the IActivation interface. */
  datatype Activation = SigmoidFn | TanHFn | ReLUFn | SiLUFn | SoftmaxFn

  /** Activation.GetActivationFromType: the structure for a tag. Every declared tag has
      one, so the source's null default branch cannot be taken. */
  function GetActivationFromType(t: ActivationType): (a: Activation)
    ensures GetActivationType(a) == t
  {
    match t
    case Sigmoid => SigmoidFn
    case TanH => TanHFn
    case ReLU => ReLUFn
    case SiLU => SiLUFn
    case Softmax => SoftmaxFn
  }

  /** GetActivationType of each structure. */
  function GetActivationType(a: Activation): ActivationType
  {
    match a
    case SigmoidFn => Sigmoid
    case TanHFn => TanH
    case ReLUFn => ReLU
    case SiLUFn => SiLU
    case SoftmaxFn => Softmax
  }

  /** The other direction of the round trip: a structure is recovered from its tag. */
  lemma ActivationFromOwnType(a: Activation)
    ensures GetActivationFromType(GetActivationType(a)) == a
  {
  }

  /** Activate(double input): the scalar form. */
  function Activate(a: Activation, exp: ExpFn, input: real): real
  {
    match a
    case SigmoidFn => 1.0 / (1.0 + exp(-input))
    case TanHFn =>
      var e2 := exp(2.0 * input);
      (e2 - 1.0) / (e2 + 1.0)
    case ReLUFn => if input > 0.0 then input else 0.0
    case SiLUFn => input / (1.0 + exp(-input))
    case SoftmaxFn =>
      var expSum := exp(input);
      exp(input) / expSum
  }

  /** The sum of Exp over all inputs, as Softmax's expSum loop accumulates it. */
  function ExpSum(exp: ExpFn, inputs: seq<real>): (s: real)
    ensures s >= 0.0
    ensures |inputs| > 0 ==> s > 0.0
  {
    if |inputs| == 0 then 0.0
    else ExpSum(exp, inputs[..|inputs| - 1]) + exp(inputs[|inputs| - 1])
  }

  /** Activate(double[] inputs, int index): the vector form, which Layer uses. */
  function ActivateAt(a: Activation, exp: ExpFn, inputs: seq<real>, index: nat): real
    requires index < |inputs|
  {
    match a
    case SigmoidFn => 1.0 / (1.0 + exp(-inputs[index]))
    case TanHFn =>
      var e2 := exp(2.0 * inputs[index]);
      (e2 - 1.0) / (e2 + 1.0)
    case ReLUFn => if inputs[index] > 0.0 then inputs[index] else 0.0
    case SiLUFn => inputs[index] / (1.0 + exp(-inputs[index]))
    case SoftmaxFn => exp(inputs[index]) / ExpSum(exp, inputs)
  }

  /** Derivative(double[] inputs, int index). */
  function Derivative(a: Activation, exp: ExpFn, inputs: seq<real>, index: nat): real
    requires index < |inputs|
  {
    match a
    case SigmoidFn =>
      var s := ActivateAt(SigmoidFn, exp, inputs, index);
      s * (1.0 - s)
    case TanHFn =>
      var e2 := exp(2.0 * inputs[index]);
      var t := (e2 - 1.0) / (e2 + 1.0);
      1.0 - t * t
    case ReLUFn => if inputs[index] > 0.0 then 1.0 else 0.0
    case SiLUFn =>
      var sig := 1.0 / (1.0 + exp(-inputs[index]));
      inputs[index] * sig * (1.0 - sig) + sig
    case SoftmaxFn => SoftmaxSlope(exp(inputs[index]), ExpSum(exp, inputs))
  }

  /** Softmax's derivative as the source writes it, from Exp(x) and expSum. */
  function SoftmaxSlope(ex: real, expSum: real): real
    requires expSum > 0.0
  {
    ProductOfPositives(expSum, expSum, expSum * expSum);
    (ex * expSum - ex * ex) / (expSum * expSum)
  }

  /** The vector form applied at every index, as Layer.CalculateOutputs does. */
  function ActivateAll(a: Activation, exp: ExpFn, inputs: seq<real>): (r: seq<real>)
    ensures |r| == |inputs|
    ensures forall i :: 0 <= i < |inputs| ==> r[i] == ActivateAt(a, exp, inputs, i)
  {
    seq(|inputs|, i requires 0 <= i < |inputs| => ActivateAt(a, exp, inputs, i))
  }

  /** For every function but Softmax the vector form only looks at its own entry. */
  lemma VectorFormIsScalarForm(a: Activation, exp: ExpFn, inputs: seq<real>, index: nat)
    requires a != SoftmaxFn && index < |inputs|
    ensures ActivateAt(a, exp, inputs, index) == Activate(a, exp, inputs[index])
  {
  }

  /** ReLU is max(0, x). */
  lemma ReLUIsMax(exp: ExpFn, x: real)
    ensures Activate(ReLUFn, exp, x) >= 0.0
    ensures Activate(ReLUFn, exp, x) >= x
    ensures x >= 0.0 ==> Activate(ReLUFn, exp, x) == x
    ensures x <= 0.0 ==> Activate(ReLUFn, exp, x) == 0.0
  {
  }

  /** ReLU's derivative is the step function: 1 exactly on positive inputs, 0 elsewhere. */
  lemma ReLUDerivativeIsStep(exp: ExpFn, inputs: seq<real>, index: nat)
    requires index < |inputs|
    ensures Derivative(ReLUFn, exp, inputs, index) == 1.0 <==> inputs[index] > 0.0
    ensures Derivative(ReLUFn, exp, inputs, index) == 0.0 <==> inputs[index] <= 0.0
  {
  }

  /** 1/(1+d) lies strictly between 0 and 1 for every positive d. */
  lemma ReciprocalOfOnePlus(d: real)
    requires d > 0.0
    ensures 0.0 < 1.0 / (1.0 + d) < 1.0
  {
    var q := 1.0 / (1.0 + d);
    assert q * (1.0 + d) == 1.0;
  }

  /** Division by a positive divisor undoes multiplication. */
  lemma DivideThenMultiply(a: real, s: real)
    requires s > 0.0
    ensures (a / s) * s == a
  {
  }

  /** A positive part of a positive whole is a fraction in (0, 1]. */
  lemma PartOfWhole(a: real, s: real)
    requires 0.0 < a <= s
    ensures 0.0 < a / s <= 1.0
  {
    DivideThenMultiply(a, s);
  }

  /** Fractions over one positive divisor add up as their numerators do. */
  lemma AddFractions(x: real, y: real, a: real, b: real, c: real, s: real)
    requires s > 0.0 && c == a + b && x == a / s && y == b / s
    ensures x + y == c / s
  {
    DivideThenMultiply(a, s);
    DivideThenMultiply(b, s);
    DivideThenMultiply(c, s);
  }

  /** The logistic function maps every input into the open interval (0, 1). */
  lemma SigmoidInOpenUnitInterval(exp: ExpFn, x: real)
    ensures 0.0 < Activate(SigmoidFn, exp, x) < 1.0
  {
    ReciprocalOfOnePlus(exp(-x));
  }

  /** Sigmoid's derivative s(1-s) lies in (0, 1/4]. */
  lemma SigmoidDerivativeBounds(exp: ExpFn, inputs: seq<real>, index: nat)
    requires index < |inputs|
    ensures 0.0 < Derivative(SigmoidFn, exp, inputs, index) <= 0.25
  {
    var s := ActivateAt(SigmoidFn, exp, inputs, index);
    ReciprocalOfOnePlus(exp(-inputs[index]));
    assert 0.0 < s < 1.0;
    assert s * (1.0 - s) > 0.0;
    assert 0.25 - s * (1.0 - s) == (s - 0.5) * (s - 0.5);
  }

  /** TanH maps every input into the open interval (-1, 1). */
  lemma TanHInOpenInterval(exp: ExpFn, x: real)
    ensures -1.0 < Activate(TanHFn, exp, x) < 1.0
  {
    var e2 := exp(2.0 * x);
    var t := (e2 - 1.0) / (e2 + 1.0);
    assert t * (e2 + 1.0) == e2 - 1.0;
    assert t == 1.0 - 2.0 / (e2 + 1.0);
    ReciprocalOfOnePlus(e2);
  }

  /** The scalar Softmax is degenerate: Exp(x)/Exp(x) is 1 for every input. */
  lemma ScalarSoftmaxIsOne(exp: ExpFn, x: real)
    ensures Activate(SoftmaxFn, exp, x) == 1.0
  {
    var e := exp(x);
    DivideThenMultiply(e, e);
  }

  /** A single term never exceeds the whole sum. */
  lemma ExpTermAtMostSum(exp: ExpFn, inputs: seq<real>, index: nat)
    requires index < |inputs|
    ensures exp(inputs[index]) <= ExpSum(exp, inputs)
    decreases |inputs|
  {
    var n := |inputs|;
    if index < n - 1 {
      ExpTermAtMostSum(exp, inputs[..n - 1], index);
    }
  }

  /** Each Softmax value is a probability: positive and at most 1. */
  lemma SoftmaxIsProbability(exp: ExpFn, inputs: seq<real>, index: nat)
    requires index < |inputs|
    ensures 0.0 < ActivateAt(SoftmaxFn, exp, inputs, index) <= 1.0
  {
    ExpTermAtMostSum(exp, inputs, index);
    PartOfWhole(exp(inputs[index]), ExpSum(exp, inputs));
  }

  /** Terms Exp(x_i)/s add up to the whole ExpSum over s. */
  lemma {:induction false} SumOfShares(shares: seq<real>, exp: ExpFn, inputs: seq<real>, s: real)
    requires s > 0.0 && |shares| == |inputs|
    requires forall i :: 0 <= i < |shares| ==> shares[i] == exp(inputs[i]) / s
    ensures Sum(shares) == ExpSum(exp, inputs) / s
    decreases |shares|
  {
    var n := |shares|;
    if n > 0 {
      var front, rest := shares[..n - 1], inputs[..n - 1];
      SharesOfPrefix(shares, exp, inputs, s, front, rest);
      SumOfShares(front, exp, rest, s);
      AddFractions(Sum(front), shares[n - 1], ExpSum(exp, rest), exp(inputs[n - 1]), ExpSum(exp, inputs), s);
    }
  }

  /** Dropping the last entry of both sequences keeps every share in place. */
  lemma SharesOfPrefix(shares: seq<real>, exp: ExpFn, inputs: seq<real>, s: real,
                       front: seq<real>, rest: seq<real>)
    requires s > 0.0 && |shares| == |inputs| > 0
    requires forall i :: 0 <= i < |shares| ==> shares[i] == exp(inputs[i]) / s
    requires front == shares[..|shares| - 1] && rest == inputs[..|shares| - 1]
    ensures forall i :: 0 <= i < |front| ==> front[i] == exp(rest[i]) / s
  {
  }

  /** Vector Softmax is a probability distribution: its values add up to 1. */
  lemma SoftmaxSumsToOne(exp: ExpFn, inputs: seq<real>)
    requires |inputs| > 0
    ensures Sum(ActivateAll(SoftmaxFn, exp, inputs)) == 1.0
  {
    var s := ExpSum(exp, inputs);
    SumOfShares(ActivateAll(SoftmaxFn, exp, inputs), exp, inputs, s);
    DivideThenMultiply(s, s);
  }

  /** Softmax's derivative is p(1-p) for the Softmax value p at that index. */
  lemma SoftmaxDerivativeIsVariance(exp: ExpFn, inputs: seq<real>, index: nat)
    requires index < |inputs|
    ensures var p := ActivateAt(SoftmaxFn, exp, inputs, index);
            Derivative(SoftmaxFn, exp, inputs, index) == p * (1.0 - p)
  {
    var s := ExpSum(exp, inputs);
    var ex := exp(inputs[index]);
    VarianceIdentity(ex, s);
  }

  /** (e s - e e) / (s s) equals p (1 - p) for p = e / s. */
  lemma VarianceIdentity(e: real, s: real)
    requires s > 0.0
    ensures SoftmaxSlope(e, s) == (e / s) * (1.0 - e / s)
  {
    var p := e / s;
    DivideThenMultiply(e, s);
    assert e * s - e * e == (p * (1.0 - p)) * (s * s);
    ProductOfPositives(s, s, s * s);
    QuotientOfMultiple(p * (1.0 - p), s * s);
  }

  /** A product of two positive factors is positive. */
  lemma ProductOfPositives(a: real, b: real, d: real)
    requires a > 0.0 && b > 0.0 && d == a * b
    ensures d > 0.0
  {
  }

  /** Dividing a multiple of a positive divisor by it gives back the factor. */
  lemma QuotientOfMultiple(q: real, d: real)
    requires d > 0.0
    ensures (q * d) / d == q
  {
  }
}
