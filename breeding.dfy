/**
 * The mutations a bred child goes through in `UGeneticAlgorithm::Epoch`
 * (add a node, add a link, weights, toggling, re-enabling), composed as one
 * function of the child's genes, the ledger and the stream, and the proof
 * that they keep a sound child sound.
 */
module Breeding {
  import opened Globals
  import opened Parameters
  import opened Sorting
  import opened Genes
  import opened Innovation
  import opened StructuralMutation
  import opened LinkMutation

  /** The outcome of a step the source can run into undefined behaviour. */
  datatype Result<T> = Success(value: T) | Failure

  /** Links that keep their endpoints keep resolving. */
  lemma SameEndpointsResolve(ns: seq<NeuronGene>, a: seq<LinkGene>, b: seq<LinkGene>)
    requires LinksResolve(ns, a) && |a| == |b|
    requires forall k :: 0 <= k < |a| ==> b[k].from == a[k].from && b[k].to == a[k].to
    ensures LinksResolve(ns, b)
  {
    forall k | 0 <= k < |b|
      ensures HasNeuron(ns, b[k].from) && HasNeuron(ns, b[k].to)
    {
      assert b[k].from == a[k].from && b[k].to == a[k].to;
    }
  }

  /** A permutation of resolving links resolves. */
  lemma PermutedLinksResolve(ns: seq<NeuronGene>, a: seq<LinkGene>, b: seq<LinkGene>)
    requires LinksResolve(ns, a) && multiset(b) == multiset(a)
    ensures LinksResolve(ns, b)
  {
    forall k | 0 <= k < |b|
      ensures HasNeuron(ns, b[k].from) && HasNeuron(ns, b[k].to)
    {
      assert b[k] in multiset(a);
      var q :| 0 <= q < |a| && a[q] == b[k];
    }
  }

  /** A neuron list whose IDs are below a bound stays below any larger bound. */
  lemma IDsBelowGrows(ns: seq<NeuronGene>, bound: int, bound': int)
    requires IDsBelow(ns, bound) && bound <= bound'
    ensures IDsBelow(ns, bound')
  {
  }

  /**
   * The mutations of a bred child before its links are sorted: the
   * structural mutations, then the tuning of the links.
   */
  function Mutated(ns: seq<NeuronGene>, ls: seq<LinkGene>, nI: int, l: Ledger, p: Params, src: nat -> Draw, pos: nat): Result<Grown>
    requires LinksResolve(ns, ls) && l.Indexed()
  {
    match Grow(ns, ls, nI, l, p, src, pos)
    case Failure => Failure
    case Success(g) =>
      match Tune(g.links, p, src, g.pos)
      case Failure => Failure
      case Success((links, pos')) => Success(Grown(g.neurons, links, g.ledger, pos'))
  }

  /**
   * The structural mutations: a node is added only while the child has
   * fewer neurons than permitted, then a link.  `Failure` where either would
   * index an empty list: a split drawn with no links, a link drawn with
   * fewer neurons than the inputs, the bias and two more.
   */
  function Grow(ns: seq<NeuronGene>, ls: seq<LinkGene>, nI: int, l: Ledger, p: Params, src: nat -> Draw, pos: nat): Result<Grown>
    requires LinksResolve(ns, ls) && l.Indexed()
  {
    var addNode := |ns| < p.maxPermittedNeurons;
    if addNode && !(UnitOf(src(pos)) > p.chanceAddNode || p.numTriesAddNode <= 0 || 1 <= |ls|) then Failure
    else
      var g1 := if addNode then AddNode(ns, ls, l, p.chanceAddNode, p.numTriesAddNode, src, pos) else Grown(ns, ls, l, pos);
      if !(UnitOf(src(g1.pos)) > p.chanceAddLink || p.numTriesAddLink <= 0 || (0 <= nI && nI + 2 <= |g1.neurons|)) then Failure
      else Success(AddLink(g1.neurons, g1.links, nI, g1.ledger, p.chanceAddLink, p.numTriesAddLink, src, g1.pos))
  }

  /**
   * The tuning of the links: the weights, the toggling and the re-enabling.
   * `Failure` where a toggle try fires on an empty link list and would
   * pick a link from it.
   */
  function Tune(ls: seq<LinkGene>, p: Params, src: nat -> Draw, pos: nat): Result<(seq<LinkGene>, nat)>
  {
    var weighed := MutateWeightsFrom(ls, 0, p.maxWeightMutationPower, p.weightMutationRate, p.newWeightChance, src, pos);
    if !ToggleDefined(weighed.0, p.toggleLinkRate, p.numTriesToggle, src, weighed.1) then Failure
    else
      var toggled := ToggleTries(weighed.0, 0, p.toggleLinkRate, p.numTriesToggle, src, weighed.1);
      Success(ReenableFrom(toggled.links, 0, p.enableLinkRate, src, toggled.pos))
  }

  /** Two link lists of the same length with the same endpoints at every position. */
  ghost predicate SameEndpoints(a: seq<LinkGene>, b: seq<LinkGene>)
  {
    |a| == |b| && forall k :: 0 <= k < |a| ==> b[k].from == a[k].from && b[k].to == a[k].to
  }

  /** Tuning changes weights and flags only: the endpoints stay, position by position. */
  lemma TuneKeepsEndpoints(ls: seq<LinkGene>, p: Params, src: nat -> Draw, pos: nat)
    ensures Tune(ls, p, src, pos).Success? ==> SameEndpoints(ls, Tune(ls, p, src, pos).value.0)
  {
    var weighed := MutateWeightsFrom(ls, 0, p.maxWeightMutationPower, p.weightMutationRate, p.newWeightChance, src, pos);
    MutateWeightsOutcome(ls, 0, p.maxWeightMutationPower, p.weightMutationRate, p.newWeightChance, src, pos);
    if ToggleDefined(weighed.0, p.toggleLinkRate, p.numTriesToggle, src, weighed.1) {
      var toggled := ToggleTries(weighed.0, 0, p.toggleLinkRate, p.numTriesToggle, src, weighed.1);
      ToggleKeepsGenes(weighed.0, 0, p.toggleLinkRate, p.numTriesToggle, src, weighed.1);
      ReenableOutcome(toggled.links, 0, p.enableLinkRate, src, toggled.pos);
    }
  }

  /**
   * The structural mutations keep a sound child sound: against a valid
   * ledger, the ledger stays valid and only grows, every link still
   * resolves and every neuron ID stays registered.
   */
  lemma GrowSound(ns: seq<NeuronGene>, ls: seq<LinkGene>, nI: int, l: Ledger, p: Params, src: nat -> Draw, pos: nat)
    requires l.Valid() && LinksResolve(ns, ls) && IDsBelow(ns, l.nextNeuronID)
    ensures var r := Grow(ns, ls, nI, l, p, src, pos);
      r.Success? ==>
        r.value.ledger.Valid() && Extends(r.value.ledger, l) &&
        LinksResolve(r.value.neurons, r.value.links) && IDsBelow(r.value.neurons, r.value.ledger.nextNeuronID)
  {
    var r := Grow(ns, ls, nI, l, p, src, pos);
    if r.Success? {
      var addNode := |ns| < p.maxPermittedNeurons;
      var g1 := if addNode then AddNode(ns, ls, l, p.chanceAddNode, p.numTriesAddNode, src, pos) else Grown(ns, ls, l, pos);
      if addNode {
        AddNodeKeepsInvariants(ns, ls, l, p.chanceAddNode, p.numTriesAddNode, src, pos);
      } else {
        assert Extends(l, l);
      }
      var g2 := AddLink(g1.neurons, g1.links, nI, g1.ledger, p.chanceAddLink, p.numTriesAddLink, src, g1.pos);
      AddLinkOutcome(g1.neurons, g1.links, nI, g1.ledger, p.chanceAddLink, p.numTriesAddLink, src, g1.pos);
      AddLinkKeepsInvariants(g1.neurons, g1.links, nI, g1.ledger, p.chanceAddLink, p.numTriesAddLink, src, g1.pos);
      ExtendsTrans(l, g1.ledger, g2.ledger);
      IDsBelowGrows(g2.neurons, g1.ledger.nextNeuronID, g2.ledger.nextNeuronID);
    }
  }

  /**
   * All the mutations keep a sound child sound: against a valid ledger, the
   * ledger stays valid and only grows, every link still resolves and every
   * neuron ID stays registered.
   */
  lemma MutatedSound(ns: seq<NeuronGene>, ls: seq<LinkGene>, nI: int, l: Ledger, p: Params, src: nat -> Draw, pos: nat)
    requires l.Valid() && LinksResolve(ns, ls) && IDsBelow(ns, l.nextNeuronID)
    ensures var r := Mutated(ns, ls, nI, l, p, src, pos);
      r.Success? ==>
        r.value.ledger.Valid() && Extends(r.value.ledger, l) &&
        LinksResolve(r.value.neurons, r.value.links) && IDsBelow(r.value.neurons, r.value.ledger.nextNeuronID)
  {
    GrowSound(ns, ls, nI, l, p, src, pos);
    var g := Grow(ns, ls, nI, l, p, src, pos);
    if g.Success? {
      TuneKeepsEndpoints(g.value.links, p, src, g.value.pos);
      var t := Tune(g.value.links, p, src, g.value.pos);
      if t.Success? {
        SameEndpointsResolve(g.value.neurons, g.value.links, t.value.0);
      }
    }
  }
}
