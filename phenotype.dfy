/**
 * The phenotype: the neural network a genome describes (`UNeuralNet`), and
 * its update.  Neurons and links are created once and then only the neurons'
 * outputs change, so a net holds its neurons as values (type, ID, split
 * position and links) and their outputs in one array.  A link refers to its
 * two neurons by their positions in the net.
 *
 * The activation function (`Sigmoid`, 1 / (1 + e^(-4.9 x)) in single
 * precision) is a parameter of `Update`.
 */
module Phenotype {
  import opened Globals

  /** `ULink`: input and output neuron positions, weight, recurrent flag. */
  datatype Link = Link(input: nat, output: nat, weight: real, recurrent: bool)

  /** `UNeuron` without its output: type, ID, split position, incoming and outgoing links. */
  datatype Neuron = Neuron(
    neuronType: NeuronType,
    id: int,
    splitX: real,
    splitY: real,
    linksIn: seq<Link>,
    linksOut: seq<Link>)

  /** Every incoming link reads a neuron of the net. */
  ghost predicate LinksWithin(ns: seq<Neuron>)
  {
    forall i, k :: 0 <= i < |ns| && 0 <= k < |ns[i].linksIn| ==> ns[i].linksIn[k].input < |ns|
  }

  /** Input and bias neurons are set from outside rather than computed. */
  predicate IsFront(n: Neuron)
  {
    n.neuronType == Input || n.neuronType == Bias
  }

  /** The number of input and bias neurons among the first `i`. */
  function FrontCount(ns: seq<Neuron>, i: nat): (c: nat)
    requires i <= |ns|
    ensures c <= i
  {
    if i == 0 then 0 else FrontCount(ns, i - 1) + (if IsFront(ns[i - 1]) then 1 else 0)
  }

  /** The input list has a value for every input neuron (the counter also counts the bias). */
  ghost predicate InputsCover(ns: seq<Neuron>, inputs: seq<real>)
  {
    forall i :: 0 <= i < |ns| && ns[i].neuronType == Input ==> FrontCount(ns, i) < |inputs|
  }

  /**
   * The first phase of a pass: every input neuron takes the next value of the
   * input list, every bias neuron 1; the counter into the input list advances
   * on both.  All other outputs stay as they were.
   */
  function SetInputs(ns: seq<Neuron>, inputs: seq<real>, s: seq<real>): (r: seq<real>)
    requires |s| == |ns| && InputsCover(ns, inputs)
    ensures |r| == |s|
  {
    seq(|s|, i requires 0 <= i < |s| =>
      if ns[i].neuronType == Input then inputs[FrontCount(ns, i)]
      else if ns[i].neuronType == Bias then 1.0
      else s[i])
  }

  /** The weighted sum over the first `k` incoming links, in order. */
  function InSum(links: seq<Link>, s: seq<real>, k: nat): real
    requires k <= |links| && forall j :: 0 <= j < |links| ==> links[j].input < |s|
  {
    if k == 0 then 0.0 else InSum(links, s, k - 1) + links[k - 1].weight * s[links[k - 1].input]
  }

  /**
   * The second phase of a pass, from position `j` on: each neuron in turn
   * takes the activation of the weighted sum of its incoming links, reading the
   * outputs as they are at that moment; output neurons report their new value.
   */
  function ComputeFrom(ns: seq<Neuron>, s: seq<real>, j: nat, sigmoid: real -> real): (r: (seq<real>, seq<real>))
    requires |s| == |ns| && LinksWithin(ns) && j <= |ns|
    ensures |r.0| == |s|
    decreases |ns| - j
  {
    if j == |ns| then (s, [])
    else
      var v := sigmoid(InSum(ns[j].linksIn, s, |ns[j].linksIn|));
      var rest := ComputeFrom(ns, s[j := v], j + 1, sigmoid);
      (rest.0, (if ns[j].neuronType == Output then [v] else []) + rest.1)
  }

  /**
   * One pass: the inputs are set, then every neuron from the position given by
   * the number of input and bias neurons on is computed.  That position is
   * the first non-input neuron only when the inputs and the bias come first.
   */
  function Pass(ns: seq<Neuron>, inputs: seq<real>, s: seq<real>, sigmoid: real -> real): (r: (seq<real>, seq<real>))
    requires |s| == |ns| && LinksWithin(ns) && InputsCover(ns, inputs)
    ensures |r.0| == |s|
  {
    ComputeFrom(ns, SetInputs(ns, inputs, s), FrontCount(ns, |ns|), sigmoid)
  }

  /** `n` more passes from outputs `s`; the outputs reported are those of the last pass. */
  function RunFrom(ns: seq<Neuron>, inputs: seq<real>, s: seq<real>, outs: seq<real>, n: int, sigmoid: real -> real): (r: (seq<real>, seq<real>))
    requires |s| == |ns| && LinksWithin(ns) && InputsCover(ns, inputs)
    ensures |r.0| == |s|
    decreases n
  {
    if n <= 0 then (s, outs)
    else
      var p := Pass(ns, inputs, s, sigmoid);
      RunFrom(ns, inputs, p.0, p.1, n - 1, sigmoid)
  }

  /** The number of passes: the depth for a snapshot, one for an active update. */
  function Iterations(runType: RunType, depth: int): int
  {
    if runType == Snapshot then depth else 1
  }

  /** The positions from `j` on that hold output neurons, in order. */
  function OutputPositions(ns: seq<Neuron>, j: nat): (ps: seq<nat>)
    requires j <= |ns|
    ensures forall t :: 0 <= t < |ps| ==> j <= ps[t] < |ns| && ns[ps[t]].neuronType == Output
    decreases |ns| - j
  {
    if j == |ns| then []
    else (if ns[j].neuronType == Output then [j] else []) + OutputPositions(ns, j + 1)
  }

  /** Computing from `j` on leaves the outputs before `j` untouched. */
  lemma {:induction false} ComputeKeepsEarlier(ns: seq<Neuron>, s: seq<real>, j: nat, sigmoid: real -> real)
    requires |s| == |ns| && LinksWithin(ns) && j <= |ns|
    ensures forall q :: 0 <= q < j ==> ComputeFrom(ns, s, j, sigmoid).0[q] == s[q]
    decreases |ns| - j
  {
    if j < |ns| {
      var v := sigmoid(InSum(ns[j].linksIn, s, |ns[j].linksIn|));
      ComputeKeepsEarlier(ns, s[j := v], j + 1, sigmoid);
    }
  }

  /**
   * The values a pass reports are the final outputs of the output neurons
   * it computed, one per such neuron, in net order.
   */
  lemma {:induction false} ReportedAreOutputNeurons(ns: seq<Neuron>, s: seq<real>, j: nat, sigmoid: real -> real)
    requires |s| == |ns| && LinksWithin(ns) && j <= |ns|
    ensures var r, ps := ComputeFrom(ns, s, j, sigmoid), OutputPositions(ns, j);
      |r.1| == |ps| && forall t :: 0 <= t < |ps| ==> r.1[t] == r.0[ps[t]]
    decreases |ns| - j
  {
    if j < |ns| {
      var v := sigmoid(InSum(ns[j].linksIn, s, |ns[j].linksIn|));
      var s' := s[j := v];
      ReportedAreOutputNeurons(ns, s', j + 1, sigmoid);
      ComputeKeepsEarlier(ns, s', j + 1, sigmoid);
      var r, ps := ComputeFrom(ns, s, j, sigmoid), OutputPositions(ns, j);
      var rest, ps' := ComputeFrom(ns, s', j + 1, sigmoid), OutputPositions(ns, j + 1);
      if ns[j].neuronType == Output {
        assert r.1 == [v] + rest.1 && ps == [j] + ps';
        assert r.0[j] == s'[j] == v;
        forall t | 0 <= t < |ps|
          ensures r.1[t] == r.0[ps[t]]
        {
          if t > 0 {
            assert r.1[t] == rest.1[t - 1] && ps[t] == ps'[t - 1];
          }
        }
      } else {
        assert r.1 == rest.1 && ps == ps';
      }
    }
  }

  /**
   * When every input and bias neuron comes before every other neuron, a pass
   * leaves input neuron `i` at the `i`-th input value and the bias at 1.
   */
  lemma FrontLoadedKeepsInputs(ns: seq<Neuron>, inputs: seq<real>, s: seq<real>, sigmoid: real -> real, i: nat)
    requires |s| == |ns| && LinksWithin(ns) && InputsCover(ns, inputs)
    requires forall q :: 0 <= q < |ns| ==> (IsFront(ns[q]) <==> q < FrontCount(ns, |ns|))
    requires i < |ns| && IsFront(ns[i])
    ensures ns[i].neuronType == Input ==>
      FrontCount(ns, i) == i && Pass(ns, inputs, s, sigmoid).0[i] == inputs[i]
    ensures ns[i].neuronType == Bias ==> Pass(ns, inputs, s, sigmoid).0[i] == 1.0
  {
    FrontCountOfPrefix(ns, i);
    ComputeKeepsEarlier(ns, SetInputs(ns, inputs, s), FrontCount(ns, |ns|), sigmoid);
  }

  /** In a front-loaded list, every neuron before position `i` of the front is a front neuron. */
  lemma {:induction false} FrontCountOfPrefix(ns: seq<Neuron>, i: nat)
    requires forall q :: 0 <= q < |ns| ==> (IsFront(ns[q]) <==> q < FrontCount(ns, |ns|))
    requires i < FrontCount(ns, |ns|)
    ensures FrontCount(ns, i) == i
    decreases i
  {
    if i > 0 {
      FrontCountOfPrefix(ns, i - 1);
    }
  }

  /** `UNeuralNet`: the neurons, the depth and the current output of every neuron. */
  class NeuralNet {
    var neurons: seq<Neuron>
    var depth: int
    var outputs: array<real>

    ghost predicate Valid()
      reads this
    {
      outputs.Length == |neurons| && LinksWithin(neurons)
    }

    /** An empty net of depth 0. */
    constructor ()
      ensures Valid() && neurons == [] && depth == 0 && fresh(outputs)
    {
      neurons := [];
      depth := 0;
      outputs := new real[0];
    }

    /** `Initialize`: takes the neurons, every output at 0, and the depth. */
    method Initialize(ns: seq<Neuron>, d: int)
      requires LinksWithin(ns)
      modifies this
      ensures Valid() && neurons == ns && depth == d && fresh(outputs)
      ensures forall i :: 0 <= i < outputs.Length ==> outputs[i] == 0.0
    {
      neurons := ns;
      depth := d;
      outputs := new real[|ns|](_ => 0.0);
    }

    /**
     * `Update`: `Iterations(runType, depth)` passes; the result is what the
     * last pass reported (empty when there was none).  An active update keeps
     * the new outputs for the next call; a snapshot resets them all to 0.
     */
    method Update(inputs: seq<real>, runType: RunType, sigmoid: real -> real) returns (outs: seq<real>)
      requires Valid() && InputsCover(neurons, inputs)
      modifies outputs
      ensures Valid()
      ensures var r := RunFrom(neurons, inputs, old(outputs[..]), [], Iterations(runType, depth), sigmoid);
        outs == r.1 &&
        (runType == Active ==> outputs[..] == r.0) &&
        (runType == Snapshot ==> forall i :: 0 <= i < outputs.Length ==> outputs[i] == 0.0)
    {
      var iterations := if runType == Snapshot then depth else 1;
      ghost var start := outputs[..];
      outs := [];
      var it := 0;
      while it < iterations
        invariant 0 <= it || iterations <= 0
        invariant RunFrom(neurons, inputs, outputs[..], outs, iterations - it, sigmoid) ==
          RunFrom(neurons, inputs, start, [], iterations, sigmoid)
        decreases iterations - it
      {
        outs := PassInPlace(inputs, sigmoid);
        it := it + 1;
      }
      if runType == Snapshot {
        var k := 0;
        while k < outputs.Length
          invariant 0 <= k <= outputs.Length
          invariant forall i :: 0 <= i < k ==> outputs[i] == 0.0
        {
          outputs[k] := 0.0;
          k := k + 1;
        }
      }
    }

    /** One pass over the outputs array. */
    method PassInPlace(inputs: seq<real>, sigmoid: real -> real) returns (outs: seq<real>)
      requires Valid() && InputsCover(neurons, inputs)
      modifies outputs
      ensures var r := Pass(neurons, inputs, old(outputs[..]), sigmoid);
        outputs[..] == r.0 && outs == r.1
    {
      var current := SetInputsInPlace(inputs);
      outs := ComputeInPlace(current, sigmoid);
    }

    /**
     * The first phase of a pass; the result is the position the second phase
     * starts from.
     */
    method SetInputsInPlace(inputs: seq<real>) returns (current: nat)
      requires Valid() && InputsCover(neurons, inputs)
      modifies outputs
      ensures outputs[..] == SetInputs(neurons, inputs, old(outputs[..]))
      ensures current == FrontCount(neurons, |neurons|)
    {
      ghost var s := outputs[..];
      current := 0;
      var i := 0;
      while i < |neurons|
        invariant 0 <= i <= |neurons| && current == FrontCount(neurons, i)
        invariant forall q :: 0 <= q < i ==> outputs[q] == SetInputs(neurons, inputs, s)[q]
        invariant forall q :: i <= q < |neurons| ==> outputs[q] == s[q]
      {
        if neurons[i].neuronType == Input {
          outputs[i] := inputs[current];
          current := current + 1;
        }
        if neurons[i].neuronType == Bias {
          outputs[i] := 1.0;
          current := current + 1;
        }
        i := i + 1;
      }
    }

    /** The weighted sum of a neuron's incoming links over the current outputs. */
    method SumIn(links: seq<Link>) returns (sum: real)
      requires forall j :: 0 <= j < |links| ==> links[j].input < outputs.Length
      ensures sum == InSum(links, outputs[..], |links|)
    {
      sum := 0.0;
      var k := 0;
      while k < |links|
        invariant 0 <= k <= |links| && sum == InSum(links, outputs[..], k)
      {
        sum := sum + links[k].weight * outputs[links[k].input];
        k := k + 1;
      }
    }

    /** The second phase of a pass, from position `start` on. */
    method ComputeInPlace(start: nat, sigmoid: real -> real) returns (outs: seq<real>)
      requires Valid() && start <= |neurons|
      modifies outputs
      ensures var r := ComputeFrom(neurons, old(outputs[..]), start, sigmoid);
        outputs[..] == r.0 && outs == r.1
    {
      ghost var s := outputs[..];
      outs := [];
      var current := start;
      while current < |neurons|
        invariant start <= current <= |neurons|
        invariant ComputeFrom(neurons, outputs[..], current, sigmoid).0 == ComputeFrom(neurons, s, start, sigmoid).0
        invariant outs + ComputeFrom(neurons, outputs[..], current, sigmoid).1 == ComputeFrom(neurons, s, start, sigmoid).1
        decreases |neurons| - current
      {
        ghost var before, outsBefore := outputs[..], outs;
        var n := neurons[current];
        var sum := SumIn(n.linksIn);
        var v := sigmoid(sum);
        outputs[current] := v;
        assert outputs[..] == before[current := v];
        if n.neuronType == Output {
          outs := outs + [v];
        }
        var reported := if n.neuronType == Output then [v] else [];
        assert outs == outsBefore + reported;
        ghost var next := ComputeFrom(neurons, outputs[..], current + 1, sigmoid);
        assert ComputeFrom(neurons, before, current, sigmoid) == (next.0, reported + next.1);
        AppendAssoc(outsBefore, reported, next.1);
        current := current + 1;
      }
    }
  }

  /** Concatenation is associative. */
  lemma AppendAssoc<T>(a: seq<T>, b: seq<T>, c: seq<T>)
    ensures (a + b) + c == a + (b + c)
  {
  }

  /** A snapshot of a net of depth 0 reports nothing. */
  lemma ZeroDepthSnapshotReportsNothing(ns: seq<Neuron>, inputs: seq<real>, s: seq<real>, sigmoid: real -> real)
    requires |s| == |ns| && LinksWithin(ns) && InputsCover(ns, inputs)
    ensures RunFrom(ns, inputs, s, [], Iterations(Snapshot, 0), sigmoid).1 == []
  {
  }

  /**
   * The smallest start network: two inputs and the bias, each linked to the
   * one output, with weights `w0`, `w1` and `wb`.
   */
  function TwoInputNet(w0: real, w1: real, wb: real): seq<Neuron>
  {
    [Neuron(Input, 0, 0.1, 0.0, [], [Link(0, 3, w0, false)]),
     Neuron(Input, 1, 0.5, 0.0, [], [Link(1, 3, w1, false)]),
     Neuron(Bias, 2, 1.0, 0.0, [], [Link(2, 3, wb, false)]),
     Neuron(Output, 3, 0.5, 1.0, [Link(0, 3, w0, false), Link(1, 3, w1, false), Link(2, 3, wb, false)], [])]
  }

  /** An active update of that network reports the activation of `w0 * x0 + w1 * x1 + wb`. */
  lemma TwoInputExample(x0: real, x1: real, w0: real, w1: real, wb: real, s: seq<real>, sigmoid: real -> real)
    requires |s| == 4
    ensures LinksWithin(TwoInputNet(w0, w1, wb)) && InputsCover(TwoInputNet(w0, w1, wb), [x0, x1])
    ensures RunFrom(TwoInputNet(w0, w1, wb), [x0, x1], s, [], Iterations(Active, 3), sigmoid).1 ==
      [sigmoid(w0 * x0 + w1 * x1 + wb)]
  {
    var ns := TwoInputNet(w0, w1, wb);
    var inputs := [x0, x1];
    TwoInputPass(x0, x1, w0, w1, wb, s, sigmoid);
    var p := Pass(ns, inputs, s, sigmoid);
    assert RunFrom(ns, inputs, s, [], 1, sigmoid) == RunFrom(ns, inputs, p.0, p.1, 0, sigmoid);
    assert Iterations(Active, 3) == 1;
  }

  /** One pass over that network computes the output from the clamped inputs. */
  lemma TwoInputPass(x0: real, x1: real, w0: real, w1: real, wb: real, s: seq<real>, sigmoid: real -> real)
    requires |s| == 4
    ensures LinksWithin(TwoInputNet(w0, w1, wb)) && InputsCover(TwoInputNet(w0, w1, wb), [x0, x1])
    ensures Pass(TwoInputNet(w0, w1, wb), [x0, x1], s, sigmoid).1 == [sigmoid(w0 * x0 + w1 * x1 + wb)]
  {
    var ns := TwoInputNet(w0, w1, wb);
    var inputs := [x0, x1];
    assert FrontCount(ns, 1) == 1 && FrontCount(ns, 2) == 2;
    assert FrontCount(ns, 3) == 3 && FrontCount(ns, 4) == 3;
    assert InputsCover(ns, inputs);
    var clamped := SetInputs(ns, inputs, s);
    assert clamped[0] == x0 && clamped[1] == x1 && clamped[2] == 1.0;
    TwoInputSum(x0, x1, w0, w1, wb, clamped);
    var v := sigmoid(w0 * x0 + w1 * x1 + wb);
    assert ComputeFrom(ns, clamped[3 := v], 4, sigmoid).1 == [];
    assert ComputeFrom(ns, clamped, 3, sigmoid).1 == [v];
  }

  /** The weighted input of the output neuron: `w0 * x0 + w1 * x1 + wb`. */
  lemma TwoInputSum(x0: real, x1: real, w0: real, w1: real, wb: real, clamped: seq<real>)
    requires |clamped| == 4 && clamped[0] == x0 && clamped[1] == x1 && clamped[2] == 1.0
    ensures InSum(TwoInputNet(w0, w1, wb)[3].linksIn, clamped, 3) == w0 * x0 + w1 * x1 + wb
  {
    var links := TwoInputNet(w0, w1, wb)[3].linksIn;
    assert InSum(links, clamped, 1) == w0 * x0;
    assert InSum(links, clamped, 2) == w0 * x0 + w1 * x1;
  }

  /**
   * When the list does not start with the inputs and the bias (a neuron of
   * another type comes first), the input counter still stops at the number of
   * input and bias neurons, so the last of them is computed like a hidden
   * neuron: here the bias reports the activation of 0 instead of 1, and the
   * neuron in front is never computed.
   */
  lemma MisplacedFrontExample(x0: real, s: seq<real>, sigmoid: real -> real)
    requires |s| == 3
    ensures var ns := [Neuron(NoType, -1, -1.0, -1.0, [], []),
                       Neuron(Input, 0, 0.1, 0.0, [], []),
                       Neuron(Bias, 1, 1.0, 0.0, [], [])];
      LinksWithin(ns) && InputsCover(ns, [x0]) &&
      Pass(ns, [x0], s, sigmoid).0 == [s[0], x0, sigmoid(0.0)]
  {
    var ns := [Neuron(NoType, -1, -1.0, -1.0, [], []),
               Neuron(Input, 0, 0.1, 0.0, [], []),
               Neuron(Bias, 1, 1.0, 0.0, [], [])];
    assert FrontCount(ns, 1) == 0 && FrontCount(ns, 3) == 2;
    var clamped := SetInputs(ns, [x0], s);
    assert clamped == [s[0], x0, 1.0];
  }
}
