/**
 * The two gene records of a genome: neuron genes and link genes, with
 * their default values and the link ordering by innovation number.
 */
module Genes {
  import opened Globals
  import opened Sorting

  /** `FSNeuronGene`: a neuron's ID, type and position in the network plane. */
  datatype NeuronGene = NeuronGene(id: int, neuronType: NeuronType, splitX: real, splitY: real)

  /** `FSLinkGene`: a directed, weighted connection between two neuron IDs. */
  datatype LinkGene = LinkGene(
    from: int,
    to: int,
    weight: real,
    enabled: bool,
    innovationID: int,
    recurrent: bool)

  /** The default neuron gene, used when a lookup finds nothing. */
  function DefaultNeuronGene(): (g: NeuronGene)
    ensures g.id == -1 && g.neuronType == NoType && g.splitX == -1.0 && g.splitY == -1.0
  {
    NeuronGene(-1, NoType, -1.0, -1.0)
  }

  /**
   * The neuron-gene constructor.  It accepts an activation response but
   * does not store it: the gene depends only on the other four arguments.
   */
  function MakeNeuronGene(t: NeuronType, id: int, splitX: real, splitY: real, activation: real := 1.0): (g: NeuronGene)
    ensures g.neuronType == t && g.id == id && g.splitX == splitX && g.splitY == splitY
  {
    NeuronGene(id, t, splitX, splitY)
  }

  /** The default link gene: unconnected, disabled, weight -1, no innovation. */
  function DefaultLinkGene(): (g: LinkGene)
    ensures g.from == -1 && g.to == -1 && g.weight == -1.0
    ensures !g.enabled && g.innovationID == -1 && !g.recurrent
  {
    LinkGene(-1, -1, -1.0, false, -1, false)
  }

  /** The sort key of link genes (their `operator<`). */
  function InnovationKey(g: LinkGene): int
  {
    g.innovationID
  }

  /** The innovation numbers of a link list, in order. */
  function InnovationIDs(links: seq<LinkGene>): (ids: seq<int>)
    ensures |ids| == |links|
    ensures forall k :: 0 <= k < |links| ==> ids[k] == links[k].innovationID
  {
    if links == [] then [] else [links[0].innovationID] + InnovationIDs(links[1..])
  }

  /** Two link lists differ at most in the `enabled` flags. */
  ghost predicate SameExceptEnabled(a: seq<LinkGene>, b: seq<LinkGene>)
  {
    |a| == |b| && forall k :: 0 <= k < |a| ==> b[k] == a[k].(enabled := b[k].enabled)
  }

  /** Two link lists differ at most in the weights. */
  ghost predicate SameExceptWeights(a: seq<LinkGene>, b: seq<LinkGene>)
  {
    |a| == |b| && forall k :: 0 <= k < |a| ==> b[k] == a[k].(weight := b[k].weight)
  }

  /** Sorting link genes by innovation number. */
  function SortLinks(links: seq<LinkGene>): (r: seq<LinkGene>)
    ensures SortedBy(r, InnovationKey)
    ensures multiset(r) == multiset(links)
  {
    SortBySortsAndPermutes(links, InnovationKey);
    SortBy(links, InnovationKey)
  }

  /** Some neuron gene carries the given ID (`GenomeAlreadyHasNeuronID`). */
  predicate HasNeuron(neurons: seq<NeuronGene>, id: int)
  {
    exists p :: 0 <= p < |neurons| && neurons[p].id == id
  }

  /** Some link gene runs from `from` to `to` (`DuplicateLink`). */
  predicate HasLink(links: seq<LinkGene>, from: int, to: int)
  {
    exists k :: 0 <= k < |links| && links[k].from == from && links[k].to == to
  }

  /** The position of the first neuron gene at or after `i` with the given ID, or -1. */
  function NeuronPosFrom(neurons: seq<NeuronGene>, id: int, i: nat): (p: int)
    requires i <= |neurons|
    ensures p == -1 || i <= p < |neurons|
    ensures p >= 0 ==> neurons[p].id == id
    ensures p == -1 ==> forall q :: i <= q < |neurons| ==> neurons[q].id != id
    ensures p >= 0 ==> forall q :: i <= q < p ==> neurons[q].id != id
    decreases |neurons| - i
  {
    if i == |neurons| then -1
    else if neurons[i].id == id then i
    else NeuronPosFrom(neurons, id, i + 1)
  }

  /** `GetNeuronPosFromID`: the position of the first neuron gene with that ID, or -1. */
  function NeuronPos(neurons: seq<NeuronGene>, id: int): (p: int)
    ensures -1 <= p < |neurons|
    ensures p == -1 <==> !HasNeuron(neurons, id)
    ensures p >= 0 ==> neurons[p].id == id && forall q :: 0 <= q < p ==> neurons[q].id != id
  {
    NeuronPosFrom(neurons, id, 0)
  }

  /** Every link's endpoints are neurons of the list. */
  ghost predicate LinksResolve(neurons: seq<NeuronGene>, links: seq<LinkGene>)
  {
    forall k :: 0 <= k < |links| ==> HasNeuron(neurons, links[k].from) && HasNeuron(neurons, links[k].to)
  }

  /** Every neuron ID is -1 or below `bound`. */
  ghost predicate IDsBelow(neurons: seq<NeuronGene>, bound: int)
  {
    forall p :: 0 <= p < |neurons| ==> neurons[p].id == -1 || 0 <= neurons[p].id < bound
  }

  /** No two links share both endpoints. */
  ghost predicate DistinctEndpoints(ls: seq<LinkGene>)
  {
    forall k1, k2 :: 0 <= k1 < k2 < |ls| ==> ls[k1].from != ls[k2].from || ls[k1].to != ls[k2].to
  }

  /** No two neuron genes carry the same ID. */
  ghost predicate DistinctNeuronIDs(neurons: seq<NeuronGene>)
  {
    forall p1, p2 :: 0 <= p1 < p2 < |neurons| ==> neurons[p1].id != neurons[p2].id
  }
}
