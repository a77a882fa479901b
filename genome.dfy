/**
 * `UGenome`: a genome's neuron and link genes together with its bookkeeping
 * (ID, fitness, species, spawn amount, depth) and the phenotype built from
 * it.  Every operation that changes the genome is a method proved against
 * the function that describes it in the modules of the mutations, the start
 * layout and the compatibility score; the phenotype construction and the
 * depth calculation are described here.
 */
module Genotype {
  import opened Globals
  import opened Sorting
  import opened Genes
  import opened Innovation
  import opened GenomeLayout
  import opened LinkMutation
  import opened StructuralMutation
  import opened Compatibility
  import opened Phenotype

  // -------------------------------------------------- building the phenotype

  /** The phenotype link for a link gene: its endpoints as neuron positions. */
  function NetLink(ns: seq<NeuronGene>, g: LinkGene): (l: Link)
    requires HasNeuron(ns, g.from) && HasNeuron(ns, g.to)
    ensures l.input < |ns| && l.output < |ns|
  {
    Link(NeuronPos(ns, g.from), NeuronPos(ns, g.to), g.weight, g.recurrent)
  }

  /** Every link of a prefix of a resolving link list resolves. */
  lemma ResolvePrefix(ns: seq<NeuronGene>, ls: seq<LinkGene>, k: nat)
    requires LinksResolve(ns, ls) && k <= |ls|
    ensures LinksResolve(ns, ls[..k])
  {
    forall j | 0 <= j < k
      ensures HasNeuron(ns, ls[..k][j].from) && HasNeuron(ns, ls[..k][j].to)
    {
      assert ls[..k][j] == ls[j];
    }
  }

  /** The phenotype links entering the neuron at position `p`, in gene order. */
  function LinksInto(ns: seq<NeuronGene>, ls: seq<LinkGene>, p: nat): (r: seq<Link>)
    requires LinksResolve(ns, ls)
    ensures forall k :: 0 <= k < |r| ==> r[k].input < |ns|
    decreases |ls|
  {
    if ls == [] then []
    else
      var g := ls[|ls| - 1];
      ResolvePrefix(ns, ls, |ls| - 1);
      LinksInto(ns, ls[..|ls| - 1], p) +
        (if g.enabled && NeuronPos(ns, g.to) == p then [NetLink(ns, g)] else [])
  }

  /** The phenotype links leaving the neuron at position `p`, in gene order. */
  function LinksOutOf(ns: seq<NeuronGene>, ls: seq<LinkGene>, p: nat): (r: seq<Link>)
    requires LinksResolve(ns, ls)
    decreases |ls|
  {
    if ls == [] then []
    else
      var g := ls[|ls| - 1];
      ResolvePrefix(ns, ls, |ls| - 1);
      LinksOutOf(ns, ls[..|ls| - 1], p) +
        (if g.enabled && NeuronPos(ns, g.from) == p then [NetLink(ns, g)] else [])
  }

  /** The neurons of the phenotype: one per neuron gene, in order, with their links. */
  function NetNeurons(ns: seq<NeuronGene>, ls: seq<LinkGene>): (r: seq<Neuron>)
    requires LinksResolve(ns, ls)
    ensures |r| == |ns|
  {
    seq(|ns|, p requires 0 <= p < |ns| =>
      Neuron(ns[p].neuronType, ns[p].id, ns[p].splitX, ns[p].splitY, LinksInto(ns, ls, p), LinksOutOf(ns, ls, p)))
  }

  /** The gene `g` gives rise to the link `l` entering the neuron at position `p`. */
  predicate Enters(ns: seq<NeuronGene>, g: LinkGene, p: nat, l: Link)
  {
    g.enabled && HasNeuron(ns, g.from) && HasNeuron(ns, g.to) && NeuronPos(ns, g.to) == p && NetLink(ns, g) == l
  }

  /** The gene `g` gives rise to the link `l` leaving the neuron at position `p`. */
  predicate Leaves(ns: seq<NeuronGene>, g: LinkGene, p: nat, l: Link)
  {
    g.enabled && HasNeuron(ns, g.from) && HasNeuron(ns, g.to) && NeuronPos(ns, g.from) == p && NetLink(ns, g) == l
  }

  /**
   * A link enters the neuron at `p` exactly when some enabled link gene
   * ending at the neuron gene at `p` gives rise to it.
   */
  lemma {:induction false} LinksIntoExactly(ns: seq<NeuronGene>, ls: seq<LinkGene>, p: nat, l: Link)
    requires LinksResolve(ns, ls)
    ensures l in LinksInto(ns, ls, p) <==> exists k :: 0 <= k < |ls| && Enters(ns, ls[k], p, l)
    decreases |ls|
  {
    if ls != [] {
      var front, g := ls[..|ls| - 1], ls[|ls| - 1];
      ResolvePrefix(ns, ls, |ls| - 1);
      assert LinksInto(ns, ls, p) == LinksInto(ns, front, p) +
        (if g.enabled && NeuronPos(ns, g.to) == p then [NetLink(ns, g)] else []);
      LinksIntoExactly(ns, front, p, l);
      assert HasNeuron(ns, ls[|ls| - 1].from) && HasNeuron(ns, ls[|ls| - 1].to);
      EntersLast(ns, g, p, l);
      assert forall k :: 0 <= k < |front| ==> front[k] == ls[k];
    }
  }

  /** The last gene's contribution to `LinksInto`: the link `l` exactly when it enters. */
  lemma EntersLast(ns: seq<NeuronGene>, g: LinkGene, p: nat, l: Link)
    requires HasNeuron(ns, g.from) && HasNeuron(ns, g.to)
    ensures Enters(ns, g, p, l) <==> l in (if g.enabled && NeuronPos(ns, g.to) == p then [NetLink(ns, g)] else [])
  {
  }

  /**
   * A link leaves the neuron at `p` exactly when some enabled link gene
   * starting at the neuron gene at `p` gives rise to it.
   */
  lemma {:induction false} LinksOutOfExactly(ns: seq<NeuronGene>, ls: seq<LinkGene>, p: nat, l: Link)
    requires LinksResolve(ns, ls)
    ensures l in LinksOutOf(ns, ls, p) <==> exists k :: 0 <= k < |ls| && Leaves(ns, ls[k], p, l)
    decreases |ls|
  {
    if ls != [] {
      var front, g := ls[..|ls| - 1], ls[|ls| - 1];
      ResolvePrefix(ns, ls, |ls| - 1);
      assert LinksOutOf(ns, ls, p) == LinksOutOf(ns, front, p) +
        (if g.enabled && NeuronPos(ns, g.from) == p then [NetLink(ns, g)] else []);
      LinksOutOfExactly(ns, front, p, l);
      assert HasNeuron(ns, ls[|ls| - 1].from) && HasNeuron(ns, ls[|ls| - 1].to);
      LeavesLast(ns, g, p, l);
      assert forall k :: 0 <= k < |front| ==> front[k] == ls[k];
    }
  }

  /** The last gene's contribution to `LinksOutOf`: the link `l` exactly when it leaves. */
  lemma LeavesLast(ns: seq<NeuronGene>, g: LinkGene, p: nat, l: Link)
    requires HasNeuron(ns, g.from) && HasNeuron(ns, g.to)
    ensures Leaves(ns, g, p, l) <==> l in (if g.enabled && NeuronPos(ns, g.from) == p then [NetLink(ns, g)] else [])
  {
  }

  /**
   * The phenotype of a genome whose links resolve is a well-formed net: every
   * incoming link reads a neuron of the net, and each enabled link gene
   * appears among the incoming links of its target and the outgoing links of
   * its source, while disabled genes contribute nothing.
   */
  lemma NetNeuronsWellFormed(ns: seq<NeuronGene>, ls: seq<LinkGene>)
    requires LinksResolve(ns, ls)
    ensures LinksWithin(NetNeurons(ns, ls))
    ensures forall k :: 0 <= k < |ls| && ls[k].enabled ==>
      NetLink(ns, ls[k]) in NetNeurons(ns, ls)[NeuronPos(ns, ls[k].to)].linksIn &&
      NetLink(ns, ls[k]) in NetNeurons(ns, ls)[NeuronPos(ns, ls[k].from)].linksOut
  {
    var net := NetNeurons(ns, ls);
    forall k | 0 <= k < |ls| && ls[k].enabled
      ensures NetLink(ns, ls[k]) in net[NeuronPos(ns, ls[k].to)].linksIn &&
        NetLink(ns, ls[k]) in net[NeuronPos(ns, ls[k].from)].linksOut
    {
      LinksIntoExactly(ns, ls, NeuronPos(ns, ls[k].to), NetLink(ns, ls[k]));
      LinksOutOfExactly(ns, ls, NeuronPos(ns, ls[k].from), NetLink(ns, ls[k]));
    }
  }

  /** The links at `p` of the first `k + 1` genes: those of the first `k`, then gene `k`'s. */
  lemma LinksAtStep(ns: seq<NeuronGene>, ls: seq<LinkGene>, k: nat, p: nat)
    requires LinksResolve(ns, ls) && k < |ls|
    ensures LinksResolve(ns, ls[..k]) && LinksResolve(ns, ls[..k + 1])
    ensures LinksInto(ns, ls[..k + 1], p) == LinksInto(ns, ls[..k], p) +
      (if ls[k].enabled && NeuronPos(ns, ls[k].to) == p then [NetLink(ns, ls[k])] else [])
    ensures LinksOutOf(ns, ls[..k + 1], p) == LinksOutOf(ns, ls[..k], p) +
      (if ls[k].enabled && NeuronPos(ns, ls[k].from) == p then [NetLink(ns, ls[k])] else [])
  {
    ResolvePrefix(ns, ls, k);
    ResolvePrefix(ns, ls, k + 1);
    assert ls[..k + 1][..k] == ls[..k];
    assert ls[..k + 1][k] == ls[k];
  }

  /** Adding the gene at `k` to the phenotype of the first `k` genes, as `CreatePhenotype` does. */
  lemma NetNeuronsStep(ns: seq<NeuronGene>, ls: seq<LinkGene>, k: nat)
    requires LinksResolve(ns, ls) && k < |ls|
    ensures LinksResolve(ns, ls[..k]) && LinksResolve(ns, ls[..k + 1])
    ensures var g, before, after := ls[k], NetNeurons(ns, ls[..k]), NetNeurons(ns, ls[..k + 1]);
      (!g.enabled ==> after == before) &&
      (g.enabled ==>
        var a, b := NeuronPos(ns, g.from), NeuronPos(ns, g.to);
        var mid := before[a := before[a].(linksOut := before[a].linksOut + [NetLink(ns, g)])];
        after == mid[b := mid[b].(linksIn := mid[b].linksIn + [NetLink(ns, g)])])
  {
    ResolvePrefix(ns, ls, k);
    ResolvePrefix(ns, ls, k + 1);
    var g, before, after := ls[k], NetNeurons(ns, ls[..k]), NetNeurons(ns, ls[..k + 1]);
    forall p | 0 <= p < |ns|
      ensures after[p] == before[p].(
        linksIn := before[p].linksIn + (if g.enabled && NeuronPos(ns, g.to) == p then [NetLink(ns, g)] else []),
        linksOut := before[p].linksOut + (if g.enabled && NeuronPos(ns, g.from) == p then [NetLink(ns, g)] else []))
    {
      LinksAtStep(ns, ls, k, p);
    }
    if g.enabled {
      var a, b := NeuronPos(ns, g.from), NeuronPos(ns, g.to);
      var mid := before[a := before[a].(linksOut := before[a].linksOut + [NetLink(ns, g)])];
      var last := mid[b := mid[b].(linksIn := mid[b].linksIn + [NetLink(ns, g)])];
      forall p | 0 <= p < |ns| ensures after[p] == last[p] {
      }
    } else {
      forall p | 0 <= p < |ns| ensures after[p] == before[p] {
      }
    }
  }

  // ----------------------------------------------------- the depth of the net

  /**
   * The inner loop of `CalculateNetDepth` for one neuron, from entry `j` of
   * the depth table on: the largest depth above `m` among the entries whose
   * split value equals `y`.
   */
  function RowMax(y: real, table: seq<SplitDepth>, j: nat, m: int): int
    requires j <= |table|
    decreases |table| - j
  {
    if j == |table| then m
    else RowMax(y, table, j + 1, if table[j].value == y && table[j].depth > m then table[j].depth else m)
  }

  /** The outer loop of `CalculateNetDepth`, from neuron `i` on. */
  function NetMax(ns: seq<NeuronGene>, table: seq<SplitDepth>, i: nat, m: int): int
    requires i <= |ns|
    decreases |ns| - i
  {
    if i == |ns| then m else NetMax(ns, table, i + 1, RowMax(ns[i].splitY, table, 0, m))
  }

  /** A neuron's split value appears in the table with that depth. */
  ghost predicate DepthOf(ns: seq<NeuronGene>, table: seq<SplitDepth>, d: int)
  {
    exists i, j :: 0 <= i < |ns| && 0 <= j < |table| && ns[i].splitY == table[j].value && table[j].depth == d
  }

  lemma {:induction false} RowMaxBounds(y: real, table: seq<SplitDepth>, j: nat, m: int)
    requires j <= |table|
    ensures m <= RowMax(y, table, j, m)
    ensures forall q :: j <= q < |table| && table[q].value == y ==> table[q].depth <= RowMax(y, table, j, m)
    ensures RowMax(y, table, j, m) == m ||
      exists q :: j <= q < |table| && table[q].value == y && table[q].depth == RowMax(y, table, j, m)
    decreases |table| - j
  {
    if j < |table| {
      RowMaxBounds(y, table, j + 1, if table[j].value == y && table[j].depth > m then table[j].depth else m);
    }
  }

  lemma {:induction false} NetMaxBounds(ns: seq<NeuronGene>, table: seq<SplitDepth>, i: nat, m: int)
    requires i <= |ns|
    ensures m <= NetMax(ns, table, i, m)
    ensures forall p, q :: i <= p < |ns| && 0 <= q < |table| && ns[p].splitY == table[q].value ==>
      table[q].depth <= NetMax(ns, table, i, m)
    ensures NetMax(ns, table, i, m) == m || DepthOf(ns, table, NetMax(ns, table, i, m))
    decreases |ns| - i
  {
    if i < |ns| {
      var m' := RowMax(ns[i].splitY, table, 0, m);
      RowMaxBounds(ns[i].splitY, table, 0, m);
      NetMaxBounds(ns, table, i + 1, m');
      if NetMax(ns, table, i, m) != m && NetMax(ns, table, i, m) == m' {
        var q :| 0 <= q < |table| && table[q].value == ns[i].splitY && table[q].depth == m';
        assert DepthOf(ns, table, m');
      }
    }
  }

  /**
   * The depth `CalculateNetDepth` sets: two more than the largest table depth
   * of any neuron's split value, and two when none is positive.
   */
  lemma NetDepthMeaning(ns: seq<NeuronGene>, table: seq<SplitDepth>)
    ensures var d := NetMax(ns, table, 0, 0) + 2;
      2 <= d &&
      (forall p, q :: 0 <= p < |ns| && 0 <= q < |table| && ns[p].splitY == table[q].value ==> table[q].depth + 2 <= d) &&
      (d == 2 || DepthOf(ns, table, d - 2))
  {
    NetMaxBounds(ns, table, 0, 0);
  }

  // ------------------------------------------------------ the start genome

  /** One more link of a start-link row, as `InitializeStandard` appends it. */
  lemma RowStep(ns: seq<NeuronGene>, nI: int, nO: int, i: nat, t0: nat, j: nat, src: nat -> Draw, p: nat,
                front: seq<LinkGene>, gene: LinkGene)
    requires i <= nI && j < Count(nO) && nI + Count(nO) < |ns|
    requires gene == StartLink(ns, nI, nO, i, j, t0 + j, src, p)
    ensures front + StandardRow(ns, nI, nO, i, t0, j, src, p) + [gene] == front + StandardRow(ns, nI, nO, i, t0, j + 1, src, p)
  {
    AppendAssoc(front, StandardRow(ns, nI, nO, i, t0, j, src, p), [gene]);
  }

  /** One more row of start links. */
  lemma LinksStep(ns: seq<NeuronGene>, nI: int, nO: int, i: nat, src: nat -> Draw, p: nat, start: seq<LinkGene>)
    requires i < Count(nI + 1) && nI + Count(nO) < |ns|
    ensures start + StandardLinks(ns, nI, nO, i, src, p) + StandardRow(ns, nI, nO, i, i * Count(nO), Count(nO), src, p) ==
      start + StandardLinks(ns, nI, nO, i + 1, src, p)
    ensures (i + 1) * Count(nO) == i * Count(nO) + Count(nO)
  {
    AppendAssoc(start, StandardLinks(ns, nI, nO, i, src, p), StandardRow(ns, nI, nO, i, i * Count(nO), Count(nO), src, p));
  }

  // ---------------------------------------------------------------- the genome

  /** `UGenome`. */
  class Genome {
    var id: int
    var neurons: seq<NeuronGene>
    var links: seq<LinkGene>
    var phenotype: NeuralNet?
    var depth: int
    var fitness: real
    var speciesFitness: real
    var numInputs: int
    var numOutputs: int
    var species: int
    var spawnAmount: real

    /**
     * The genome invariant every genome of a population keeps: links resolve,
     * neuron IDs are distinct and below the ledger's neuron counter (or -1),
     * no two links share both endpoints, and there is at least one link.
     */
    ghost predicate Ok(l: Ledger)
      reads this
    {
      LinksResolve(neurons, links) && IDsBelow(neurons, l.nextNeuronID) &&
      DistinctNeuronIDs(neurons) && DistinctEndpoints(links) && 1 <= |links|
    }

    /** An empty genome: no genes, no phenotype, every number 0. */
    constructor ()
      ensures id == 0 && neurons == [] && links == [] && phenotype == null && depth == 0
      ensures fitness == 0.0 && speciesFitness == 0.0 && numInputs == 0 && numOutputs == 0
      ensures species == 0 && spawnAmount == 0.0
    {
      id, neurons, links, phenotype, depth := 0, [], [], null, 0;
      fitness, speciesFitness, numInputs, numOutputs := 0.0, 0.0, 0, 0;
      species, spawnAmount := 0, 0.0;
    }

    /** A new genome created from `template`: a copy of every field, the phenotype reference included. */
    constructor Copy(template: Genome)
      ensures id == template.id && neurons == template.neurons && links == template.links
      ensures phenotype == template.phenotype && depth == template.depth
      ensures fitness == template.fitness && speciesFitness == template.speciesFitness
      ensures numInputs == template.numInputs && numOutputs == template.numOutputs
      ensures species == template.species && spawnAmount == template.spawnAmount
    {
      id, neurons, links, phenotype, depth := template.id, template.neurons, template.links, template.phenotype, template.depth;
      fitness, speciesFitness := template.fitness, template.speciesFitness;
      numInputs, numOutputs := template.numInputs, template.numOutputs;
      species, spawnAmount := template.species, template.spawnAmount;
    }

    /**
     * `InitializeStandard`: resets the bookkeeping and appends the standard
     * neurons and the fully connected start links to the genes already there.
     * Each start link draws its weight with `RandomClamped()`.
     */
    method InitializeStandard(newID: int, nI: int, nO: int, rng: Rng)
      modifies this, rng`pos
      ensures phenotype == null && id == newID && fitness == 0.0 && speciesFitness == 0.0
      ensures numInputs == nI && numOutputs == nO && spawnAmount == 0.0
      ensures depth == old(depth) && species == old(species)
      ensures neurons == old(neurons) + StandardNeurons(nI, nO)
      ensures nI + Count(nO) < |neurons|
      ensures links == old(links) + StandardLinks(neurons, nI, nO, Count(nI + 1), rng.source, old(rng.pos))
      ensures rng.pos == old(rng.pos) + 2 * (Count(nI + 1) * Count(nO))
    {
      phenotype, id, fitness, speciesFitness := null, newID, 0.0, 0.0;
      numInputs, numOutputs, spawnAmount := nI, nO, 0.0;
      AddStandardNeurons(nI, nO);
      AddStandardLinks(nI, nO, rng);
    }

    /** The neuron half of `InitializeStandard`. */
    method AddStandardNeurons(nI: int, nO: int)
      modifies this`neurons
      ensures neurons == old(neurons) + StandardNeurons(nI, nO)
    {
      AddInputNeurons(nI);
      neurons := neurons + [NeuronGene(nI, Bias, 1.0, 0.0)];
      ghost var mid := neurons;
      AddOutputNeurons(nI, nO);
      assert mid == old(neurons) + (InputGenes(nI, Count(nI)) + [NeuronGene(nI, Bias, 1.0, 0.0)]);
      AppendAssoc(old(neurons), InputGenes(nI, Count(nI)) + [NeuronGene(nI, Bias, 1.0, 0.0)], OutputGenes(nI, nO, Count(nO)));
    }

    /** The input neurons, spread along the bottom row. */
    method AddInputNeurons(nI: int)
      modifies this`neurons
      ensures neurons == old(neurons) + InputGenes(nI, Count(nI))
    {
      var inputRowSlice := if nI != 0 then 0.8 / nI as real else 0.0;
      var i := 0;
      while i < nI
        invariant 0 <= i <= Count(nI)
        invariant neurons == old(neurons) + InputGenes(nI, i)
      {
        assert inputRowSlice == 0.8 / nI as real;
        var gene := NeuronGene(i, Input, 0.1 + i as real * inputRowSlice, 0.0);
        assert gene == InputGene(nI, i);
        assert InputGenes(nI, i + 1) == InputGenes(nI, i) + [gene];
        AppendAssoc(old(neurons), InputGenes(nI, i), [gene]);
        neurons := neurons + [gene];
        i := i + 1;
      }
    }

    /** The output neurons, spread along the top row. */
    method AddOutputNeurons(nI: int, nO: int)
      modifies this`neurons
      ensures neurons == old(neurons) + OutputGenes(nI, nO, Count(nO))
    {
      var outputRowSlice := if nO + 1 != 0 then 1.0 / (nO + 1) as real else 0.0;
      var i := 0;
      while i < nO
        invariant 0 <= i <= Count(nO)
        invariant neurons == old(neurons) + OutputGenes(nI, nO, i)
      {
        assert outputRowSlice == 1.0 / (nO + 1) as real;
        var gene := NeuronGene(i + nI + 1, Output, (i + 1) as real * outputRowSlice, 1.0);
        assert gene == OutputGene(nI, nO, i);
        assert OutputGenes(nI, nO, i + 1) == OutputGenes(nI, nO, i) + [gene];
        AppendAssoc(old(neurons), OutputGenes(nI, nO, i), [gene]);
        neurons := neurons + [gene];
        i := i + 1;
      }
    }

    /** The link half of `InitializeStandard`: row by row, one link per output. */
    method AddStandardLinks(nI: int, nO: int, rng: Rng)
      requires nI + Count(nO) < |neurons|
      modifies this`links, rng`pos
      ensures links == old(links) + StandardLinks(neurons, nI, nO, Count(nI + 1), rng.source, old(rng.pos))
      ensures rng.pos == old(rng.pos) + 2 * (Count(nI + 1) * Count(nO))
    {
      ghost var p0, start := rng.pos, links;
      var nextLinkNumber := 1;
      var i := 0;
      while i < nI + 1
        invariant 0 <= i <= Count(nI + 1)
        invariant links == start + StandardLinks(neurons, nI, nO, i, rng.source, p0)
        invariant rng.pos == p0 + 2 * (i * Count(nO)) && nextLinkNumber == i * Count(nO) + 1
      {
        nextLinkNumber := AddStartRow(nI, nO, i, nextLinkNumber, rng, p0);
        LinksStep(neurons, nI, nO, i, rng.source, p0, start);
        i := i + 1;
      }
    }

    /** Row `i` of the start links: from the neuron at position `i` to every output. */
    method AddStartRow(nI: int, nO: int, i: nat, nextLinkNumber: int, rng: Rng, ghost p0: nat) returns (next: int)
      requires i <= nI && nI + Count(nO) < |neurons|
      requires nextLinkNumber == i * Count(nO) + 1 && rng.pos == p0 + 2 * (i * Count(nO))
      modifies this`links, rng`pos
      ensures links == old(links) + StandardRow(neurons, nI, nO, i, i * Count(nO), Count(nO), rng.source, p0)
      ensures next == nextLinkNumber + Count(nO) && rng.pos == old(rng.pos) + 2 * Count(nO)
    {
      ghost var t0: nat := i * Count(nO);
      ghost var t: nat := t0;
      next := nextLinkNumber;
      var j := 0;
      while j < nO
        invariant 0 <= j <= Count(nO) && t == t0 + j
        invariant links == old(links) + StandardRow(neurons, nI, nO, i, t0, j, rng.source, p0)
        invariant rng.pos == p0 + 2 * t && next == t + 1
      {
        var w := rng.RandomClamped();
        var gene := LinkGene(neurons[i].id, neurons[nI + j + 1].id, w, true, nI + nO + 1 + next, false);
        RowStep(neurons, nI, nO, i, t0, j, rng.source, p0, old(links), gene);
        links := links + [gene];
        next := next + 1;
        j, t := j + 1, t + 1;
      }
    }

    /** `InitializeCustom`: takes the given genes and resets the bookkeeping. */
    method InitializeCustom(newID: int, ns: seq<NeuronGene>, ls: seq<LinkGene>, nI: int, nO: int)
      modifies this
      ensures id == newID && phenotype == null && links == ls && neurons == ns
      ensures spawnAmount == 0.0 && fitness == 0.0 && speciesFitness == 0.0
      ensures numInputs == nI && numOutputs == nO
      ensures depth == old(depth) && species == old(species)
    {
      id, phenotype, links, neurons := newID, null, ls, ns;
      spawnAmount, fitness, speciesFitness := 0.0, 0.0, 0.0;
      numInputs, numOutputs := nI, nO;
    }

    /**
     * `InitializeWeights`: draws one random value per link but assigns it to
     * a copy of the gene, so the weights stay as they were.
     */
    method InitializeWeights(rng: Rng)
      modifies rng`pos
      ensures rng.pos == old(rng.pos) + |links|
    {
      var k := 0;
      while k < |links|
        invariant 0 <= k <= |links|
        invariant rng.pos == old(rng.pos) + k
      {
        var curLink := links[k];
        var w := rng.RandFloat(-1.0, 1.0);
        curLink := curLink.(weight := w);
        k := k + 1;
      }
    }

    // ------------------------------------------------------------ queries

    /** `GenomeAlreadyHasNeuronID`. */
    method GenomeAlreadyHasNeuronID(neuronID: int) returns (b: bool)
      ensures b == HasNeuron(neurons, neuronID)
    {
      var k := 0;
      while k < |neurons|
        invariant 0 <= k <= |neurons|
        invariant forall q :: 0 <= q < k ==> neurons[q].id != neuronID
      {
        if neurons[k].id == neuronID {
          return true;
        }
        k := k + 1;
      }
      return false;
    }

    /** `DuplicateLink`. */
    method DuplicateLink(neuronIn: int, neuronOut: int) returns (b: bool)
      ensures b == HasLink(links, neuronIn, neuronOut)
    {
      var k := 0;
      while k < |links|
        invariant 0 <= k <= |links|
        invariant forall q :: 0 <= q < k ==> !(links[q].from == neuronIn && links[q].to == neuronOut)
      {
        if links[k].from == neuronIn && links[k].to == neuronOut {
          return true;
        }
        k := k + 1;
      }
      return false;
    }

    /** `GetNeuronPosFromID`: the first position holding that ID, or -1. */
    method GetNeuronPosFromID(neuronID: int) returns (p: int)
      ensures p == NeuronPos(neurons, neuronID)
    {
      var i := 0;
      while i < |neurons|
        invariant 0 <= i <= |neurons|
        invariant NeuronPosFrom(neurons, neuronID, i) == NeuronPos(neurons, neuronID)
      {
        if neurons[i].id == neuronID {
          return i;
        }
        i := i + 1;
      }
      return -1;
    }

    /** `GetSplitY`: the split-y value of the neuron gene at a position. */
    function GetSplitY(p: int): real
      requires 0 <= p < |neurons|
      reads this
    {
      neurons[p].splitY
    }

    /** `GetCompatibilityScore`: the walk along both link lists, then the weighted score. */
    method GetCompatibilityScore(other: Genome, c: Coefficients) returns (s: Score)
      ensures s == CompatibilityScore(links, other.links, c)
    {
      var a, b := links, other.links;
      var excess, disjoint, matching: nat := 0, 0, 0;
      var weightDifference := 0.0;
      var big := BiggerInt(|a|, |b|);
      var i, j := 0, 0;
      while i < |a| || j < |b|
        invariant i <= |a| && j <= |b|
        invariant var t := TallyFrom(a, b, i, j);
          TallyFrom(a, b, 0, 0) ==
            Tally(excess + t.excess, disjoint + t.disjoint, matching + t.matching, weightDifference + t.weightDifference)
        decreases |a| - i + |b| - j
      {
        if i == |a| {
          j, excess := j + 1, excess + 1;
        } else if j == |b| {
          i, excess := i + 1, excess + 1;
        } else if a[i].innovationID == b[j].innovationID {
          weightDifference := weightDifference + Abs(a[i].weight - b[j].weight);
          i, j, matching := i + 1, j + 1, matching + 1;
        } else if a[i].innovationID < b[j].innovationID {
          disjoint, i := disjoint + 1, i + 1;
        } else {
          disjoint, j := disjoint + 1, j + 1;
        }
      }
      if matching == 0 {
        return NaN;
      }
      TallyCounts(a, b, 0, 0);
      s := Finite(c.excess * (excess as real / big as real) +
                  c.disjoint * (disjoint as real / big as real) +
                  c.matching * (weightDifference / matching as real));
    }

    // ------------------------------------------------------- link mutations

    /**
     * `ToggleLinkGenes`: `tries` tries sharing one iterator over the links,
     * as `ToggleTries` describes.
     */
    method ToggleLinkGenes(chance: real, tries: int, rng: Rng)
      requires ToggleDefined(links, chance, tries, rng.source, rng.pos)
      modifies this`links, rng`pos
      ensures var s := ToggleTries(old(links), 0, chance, tries, rng.source, old(rng.pos));
        links == s.links && rng.pos == s.pos
    {
      var check := 0;
      var n := tries;
      while n > 0
        invariant check <= |links| && |links| == |old(links)|
        invariant ToggleDefined(links, chance, n, rng.source, rng.pos)
        invariant ToggleTries(links, check, chance, n, rng.source, rng.pos) ==
          ToggleTries(old(links), 0, chance, tries, rng.source, old(rng.pos))
        decreases n
      {
        ghost var before, check0, p := links, check, rng.pos;
        var u := rng.RandUnit();
        if u < chance {
          var x := rng.RandFloat(0.0, |links| as real);
          var r := Trunc(x);
          assert r == PickIndex(rng.source(p + 1), |links|);
          if links[r].enabled {
            ghost var c0 := check;
            while check < |links| &&
                (links[check].from != links[r].from || !links[check].enabled ||
                 links[check].innovationID == links[r].innovationID)
              invariant c0 <= check <= |links|
              invariant AdvanceCheck(links, check, r) == AdvanceCheck(links, c0, r)
            {
              check := check + 1;
            }
            if check == |links| {
              links := links[r := links[r].(enabled := false)];
            }
          } else {
            links := links[r := links[r].(enabled := true)];
          }
        }
        assert ToggleTry(before, check0, chance, rng.source, p) == ToggleState(links, check, rng.pos);
        n := n - 1;
      }
    }

    /**
     * `ReenableLinkGenes`: every disabled link consumes one draw and is
     * enabled when it is below the chance, as `ReenableFrom` describes.
     */
    method ReenableLinkGenes(chance: real, rng: Rng)
      modifies this`links, rng`pos
      ensures var r := ReenableFrom(old(links), 0, chance, rng.source, old(rng.pos));
        links == r.0 && rng.pos == r.1
    {
      var k := 0;
      while k < |links|
        invariant k <= |links| == |old(links)|
        invariant ReenableFrom(links, k, chance, rng.source, rng.pos) ==
          ReenableFrom(old(links), 0, chance, rng.source, old(rng.pos))
      {
        if !links[k].enabled {
          var u := rng.RandUnit();
          if u < chance {
            links := links[k := links[k].(enabled := true)];
          }
        }
        k := k + 1;
      }
    }

    /**
     * `MutateWeights`: per link, one draw against the mutation rate, then
     * one against the new-weight chance, then the new or perturbed weight, as
     * `MutateWeightsFrom` describes.
     */
    method MutateWeights(power: real, rate: real, newChance: real, rng: Rng)
      modifies this`links, rng`pos
      ensures var r := MutateWeightsFrom(old(links), 0, power, rate, newChance, rng.source, old(rng.pos));
        links == r.0 && rng.pos == r.1
    {
      var k := 0;
      while k < |links|
        invariant k <= |links| == |old(links)|
        invariant MutateWeightsFrom(links, k, power, rate, newChance, rng.source, rng.pos) ==
          MutateWeightsFrom(old(links), 0, power, rate, newChance, rng.source, old(rng.pos))
      {
        MutateWeight(k, power, rate, newChance, rng);
        k := k + 1;
      }
    }

    /** One round of `MutateWeights`: the link at `k`, as `WeightStep` describes. */
    method MutateWeight(k: nat, power: real, rate: real, newChance: real, rng: Rng)
      requires k < |links|
      modifies this`links, rng`pos
      ensures var r := WeightStep(old(links)[k], power, rate, newChance, rng.source, old(rng.pos));
        links == old(links)[k := r.0] && rng.pos == r.1
    {
      var u := rng.RandUnit();
      if u < rate {
        var v := rng.RandUnit();
        if v < newChance {
          ReplaceWeight(k, rng);
        } else {
          PerturbWeight(k, power, rng);
        }
      }
    }

    /** A fresh `RandomClamped()` weight for the link at `k`. */
    method ReplaceWeight(k: nat, rng: Rng)
      requires k < |links|
      modifies this`links, rng`pos
      ensures links == old(links)[k := old(links)[k].(weight := RandomClampedOf(rng.source(old(rng.pos)), rng.source(old(rng.pos) + 1)))]
      ensures rng.pos == old(rng.pos) + 2
    {
      var w := rng.RandomClamped();
      links := links[k := links[k].(weight := w)];
    }

    /** The weight of the link at `k` moved by a value drawn in `[-power, power)`. */
    method PerturbWeight(k: nat, power: real, rng: Rng)
      requires k < |links|
      modifies this`links, rng`pos
      ensures links == old(links)[k := old(links)[k].(weight := old(links)[k].weight + RandFloatOf(rng.source(old(rng.pos)), -power, power))]
      ensures rng.pos == old(rng.pos) + 1
    {
      var weight := links[k].weight;
      var d := rng.RandFloat(-power, power);
      weight := weight + d;
      links := links[k := links[k].(weight := weight)];
    }

    // ------------------------------------------------- structural mutations

    /**
     * `MutateAddNode`: one draw against the chance, the search for a
     * splittable link, then the split, as `AddNode` describes.
     */
    method MutateAddNode(innovationList: InnovationList, chance: real, tries: int, rng: Rng)
      requires LinksResolve(neurons, links) && innovationList.State().Indexed()
      requires UnitOf(rng.source(rng.pos)) > chance || tries <= 0 || 1 <= |links|
      modifies this`neurons, this`links, innovationList, rng`pos
      ensures Grown(neurons, links, innovationList.State(), rng.pos) ==
        AddNode(old(neurons), old(links), old(innovationList.State()), chance, tries, rng.source, old(rng.pos))
    {
      ghost var p0 := rng.pos;
      var u := rng.RandUnit();
      if u > chance {
        return;
      }
      var foundLink, k, selectedLink := FindLinkToSplit(tries, rng);
      if !foundLink {
        return;
      }
      SplitLinkAt(innovationList, k, selectedLink);
    }

    /**
     * The search loop of `MutateAddNode`: up to `tries` draws of a link
     * position, stopping at the first splittable link, as `FindSplitLink`
     * describes.  The link found is returned with a copy of its gene.
     */
    method FindLinkToSplit(tries: int, rng: Rng) returns (foundLink: bool, ghost k: int, selectedLink: LinkGene)
      requires LinksResolve(neurons, links) && (tries <= 0 || 1 <= |links|)
      modifies rng`pos
      ensures foundLink ==> 0 <= k < |links| && selectedLink == links[k]
      ensures FindSplitLink(neurons, links, tries, rng.source, old(rng.pos)) == (if foundLink then k else -1, rng.pos)
    {
      foundLink := false;
      selectedLink := DefaultLinkGene();
      k := -1;
      var n := tries;
      while n > 0
        invariant n <= tries
        invariant foundLink ==> n == 0 && 0 <= k < |links| && selectedLink == links[k]
        invariant FindSplitLink(neurons, links, tries, rng.source, old(rng.pos)) ==
          if foundLink then (k, rng.pos) else FindSplitLink(neurons, links, n, rng.source, rng.pos)
        decreases n
      {
        ghost var p := rng.pos;
        var randLinkID := rng.RandInt(0, |links| - 1);
        assert randLinkID == RandIntOf(rng.source(p), 0, |links| - 1);
        selectedLink := links[randLinkID];
        var fromPos := GetNeuronPosFromID(selectedLink.from);
        if !selectedLink.enabled || neurons[fromPos].neuronType == Bias {
          n := n - 1;
          continue;
        }
        n := 0;
        foundLink := true;
        k := randLinkID;
      }
    }

    /** The split of the link gene at `k` (a copy of which is `selectedLink`), as `SplitLink` describes. */
    method SplitLinkAt(innovationList: InnovationList, ghost k: int, selectedLink: LinkGene)
      requires LinksResolve(neurons, links) && innovationList.State().Indexed()
      requires 0 <= k < |links| && selectedLink == links[k]
      modifies this`neurons, this`links, innovationList
      ensures var g := SplitLink(old(neurons), old(links), old(innovationList.State()), k, 0);
        neurons == g.neurons && links == g.links && innovationList.State() == g.ledger
    {
      ghost var l := innovationList.State();
      var newLinkWeight := selectedLink.weight;
      var fromNeuronID, toNeuronID := selectedLink.from, selectedLink.to;
      var fromPos := GetNeuronPosFromID(fromNeuronID);
      var toPos := GetNeuronPosFromID(toNeuronID);
      var newDepth := (neurons[fromPos].splitY + neurons[toPos].splitY) / 2.0;
      var newWidth := (neurons[fromPos].splitX + neurons[toPos].splitX) / 2.0;
      var innovationID := innovationList.CheckForInnovation(fromNeuronID, toNeuronID, NewNeuron);
      FindInnovationIsPosition(l, fromNeuronID, toNeuronID, NewNeuron);
      if innovationID >= 0 {
        var neuronID := innovationList.GetNeuronID(innovationID);
        var has := GenomeAlreadyHasNeuronID(neuronID);
        if has {
          innovationID := -1;
        }
      }
      if innovationID < 0 {
        assert !Reuses(neurons, l, fromNeuronID, toNeuronID);
        AddFreshSplit(innovationList, fromNeuronID, toNeuronID, newLinkWeight, newWidth, newDepth);
      } else {
        assert Reuses(neurons, l, fromNeuronID, toNeuronID);
        AddReusedSplit(innovationList, innovationID, fromNeuronID, toNeuronID, newLinkWeight, newWidth, newDepth);
      }
    }

    /**
     * A split never seen before: a new hidden neuron with the next neuron ID,
     * recorded in the ledger, and two new links through it, each recorded
     * with the next innovation number, the first with weight 1.
     */
    method AddFreshSplit(innovationList: InnovationList, fromNeuronID: int, toNeuronID: int,
                         newLinkWeight: real, newWidth: real, newDepth: real)
      modifies this`neurons, this`links, innovationList
      ensures var l := old(innovationList.State());
        var gene := NeuronGene(l.nextNeuronID, Hidden, newWidth, newDepth);
        var l1 := l.AddNeuron(gene, fromNeuronID, toNeuronID);
        var l2 := l1.AddLink(fromNeuronID, gene.id);
        neurons == old(neurons) + [gene] &&
        links == old(links) + [LinkGene(fromNeuronID, gene.id, 1.0, true, l1.nextInnovationID, false),
                               LinkGene(gene.id, toNeuronID, newLinkWeight, true, l2.nextInnovationID, false)] &&
        innovationList.State() == l2.AddLink(gene.id, toNeuronID)
    {
      var newNeuronID := innovationList.GetNextNeuronID();
      var newNeuronGene := NeuronGene(newNeuronID, Hidden, newWidth, newDepth);
      neurons := neurons + [newNeuronGene];
      var _ := innovationList.CreateNewNeuronInnovation(newNeuronGene, fromNeuronID, toNeuronID);
      var linkOneID := innovationList.GetNextInnovationID();
      links := links + [LinkGene(fromNeuronID, newNeuronID, 1.0, true, linkOneID, false)];
      var _ := innovationList.CreateNewLinkInnovation(fromNeuronID, newNeuronID);
      var linkTwoID := innovationList.GetNextInnovationID();
      links := links + [LinkGene(newNeuronID, toNeuronID, newLinkWeight, true, linkTwoID, false)];
      var _ := innovationList.CreateNewLinkInnovation(newNeuronID, toNeuronID);
    }

    /**
     * A split already in the ledger whose neuron the genome lacks: that
     * neuron ID again, and the two links with the numbers the ledger holds for
     * them (-1 when missing), the second with weight 1; the ledger is not touched.
     */
    method AddReusedSplit(innovationList: InnovationList, innovationID: int, fromNeuronID: int, toNeuronID: int,
                          newLinkWeight: real, newWidth: real, newDepth: real)
      requires 0 <= innovationID < |innovationList.innovations|
      modifies this`neurons, this`links
      ensures var id := innovationList.innovations[innovationID].neuronID;
        var rs := innovationList.innovations;
        neurons == old(neurons) + [NeuronGene(id, Hidden, newWidth, newDepth)] &&
        links == old(links) + [LinkGene(fromNeuronID, id, newLinkWeight, true, FindInnovation(rs, fromNeuronID, id, NewLink), false),
                               LinkGene(id, toNeuronID, 1.0, true, FindInnovation(rs, id, toNeuronID, NewLink), false)]
    {
      var newNeuronID := innovationList.GetNeuronID(innovationID);
      neurons := neurons + [NeuronGene(newNeuronID, Hidden, newWidth, newDepth)];
      var linkOneID := innovationList.CheckForInnovation(fromNeuronID, newNeuronID, NewLink);
      var linkTwoID := innovationList.CheckForInnovation(newNeuronID, toNeuronID, NewLink);
      links := links + [LinkGene(fromNeuronID, newNeuronID, newLinkWeight, true, linkOneID, false)];
      links := links + [LinkGene(newNeuronID, toNeuronID, 1.0, true, linkTwoID, false)];
    }

    /**
     * `MutateAddLink`: one draw against the chance, the search for two
     * unlinked neurons, then the new link, as `AddLink` describes.
     */
    method MutateAddLink(innovationList: InnovationList, chance: real, tries: int, rng: Rng)
      requires UnitOf(rng.source(rng.pos)) > chance || tries <= 0 || (0 <= numInputs && numInputs + 2 <= |neurons|)
      modifies this`links, innovationList, rng`pos
      ensures var g := AddLink(old(neurons), old(links), numInputs, old(innovationList.State()), chance, tries, rng.source, old(rng.pos));
        neurons == g.neurons && links == g.links && innovationList.State() == g.ledger && rng.pos == g.pos
    {
      var u := rng.RandUnit();
      if u > chance {
        return;
      }
      var neuron1ID, neuron2ID := FindNeuronPair(tries, rng);
      if neuron1ID < 0 || neuron2ID < 0 {
        return;
      }
      assert HasNeuron(neurons, neuron2ID);
      ConnectNeurons(innovationList, neuron1ID, neuron2ID, rng);
    }

    /** The end of `MutateAddLink` once a pair is found, as `Connect` describes. */
    method ConnectNeurons(innovationList: InnovationList, neuron1ID: int, neuron2ID: int, rng: Rng)
      requires HasNeuron(neurons, neuron1ID) && HasNeuron(neurons, neuron2ID)
      modifies this`links, innovationList, rng`pos
      ensures Grown(neurons, links, innovationList.State(), rng.pos) ==
        Connect(neurons, old(links), old(innovationList.State()), neuron1ID, neuron2ID, rng.source, old(rng.pos))
    {
      var recurrent := false;
      var innovationID := innovationList.CheckForInnovation(neuron1ID, neuron2ID, NewLink);
      var pos1 := GetNeuronPosFromID(neuron1ID);
      var pos2 := GetNeuronPosFromID(neuron2ID);
      if neurons[pos1].splitY > neurons[pos2].splitY {
        recurrent := true;
      }
      AppendLink(innovationList, innovationID, neuron1ID, neuron2ID, recurrent, rng);
    }

    /**
     * The new link of `MutateAddLink`, its weight drawn with
     * `RandomClamped()`: under the ledger's number for it, or under the next
     * number, which is then recorded.
     */
    method AppendLink(innovationList: InnovationList, innovationID: int, neuron1ID: int, neuron2ID: int,
                      recurrent: bool, rng: Rng)
      modifies this`links, innovationList, rng`pos
      ensures var l, w := old(innovationList.State()), RandomClampedOf(rng.source(old(rng.pos)), rng.source(old(rng.pos) + 1));
        rng.pos == old(rng.pos) + 2 &&
        (innovationID < 0 ==>
          links == old(links) + [LinkGene(neuron1ID, neuron2ID, w, true, l.nextInnovationID, recurrent)] &&
          innovationList.State() == l.AddLink(neuron1ID, neuron2ID)) &&
        (innovationID >= 0 ==>
          links == old(links) + [LinkGene(neuron1ID, neuron2ID, w, true, innovationID, recurrent)] &&
          innovationList.State() == l)
    {
      if innovationID < 0 {
        var newInnovID := innovationList.GetNextInnovationID();
        var w := rng.RandomClamped();
        links := links + [LinkGene(neuron1ID, neuron2ID, w, true, newInnovID, recurrent)];
        var _ := innovationList.CreateNewLinkInnovation(neuron1ID, neuron2ID);
      } else {
        var w := rng.RandomClamped();
        links := links + [LinkGene(neuron1ID, neuron2ID, w, true, innovationID, recurrent)];
      }
    }

    /**
     * The search loop of `MutateAddLink`: up to `tries` draws of a pair of
     * neurons, the second past the inputs and the bias, stopping at the first
     * pair of distinct, unlinked neurons, as `FindLinkPair` describes.
     */
    method FindNeuronPair(tries: int, rng: Rng) returns (neuron1ID: int, neuron2ID: int)
      requires tries <= 0 || (0 <= numInputs && numInputs + 2 <= |neurons|)
      modifies rng`pos
      ensures FindLinkPair(neurons, links, numInputs, tries, rng.source, old(rng.pos)) == (neuron1ID, neuron2ID, rng.pos)
    {
      neuron1ID, neuron2ID := -1, -1;
      ghost var found := false;
      var n := tries;
      while n > 0
        invariant n <= tries
        invariant found ==> n == 0
        invariant !found ==> neuron1ID == -1 && neuron2ID == -1
        invariant FindLinkPair(neurons, links, numInputs, tries, rng.source, old(rng.pos)) ==
          if found then (neuron1ID, neuron2ID, rng.pos) else FindLinkPair(neurons, links, numInputs, n, rng.source, rng.pos)
        decreases n
      {
        var hit;
        neuron1ID, neuron2ID, hit := TryNeuronPair(n, rng);
        if !hit {
          neuron1ID, neuron2ID := -1, -1;
          n := n - 1;
          continue;
        }
        n := 0;
        found := true;
      }
    }

    /**
     * One try of `FindNeuronPair` with `n` tries left: two draws, and whether
     * the pair is distinct and unlinked, which ends the search.
     */
    method TryNeuronPair(n: int, rng: Rng) returns (neuron1ID: int, neuron2ID: int, hit: bool)
      requires 0 < n && 0 <= numInputs && numInputs + 2 <= |neurons|
      modifies rng`pos
      ensures hit ==> FindLinkPair(neurons, links, numInputs, n, rng.source, old(rng.pos)) == (neuron1ID, neuron2ID, rng.pos)
      ensures !hit ==>
                FindLinkPair(neurons, links, numInputs, n, rng.source, old(rng.pos)) ==
                FindLinkPair(neurons, links, numInputs, n - 1, rng.source, rng.pos)
    {
      var r1 := rng.RandInt(0, |neurons| - 1);
      var r2 := rng.RandInt(numInputs + 1, |neurons| - 1);
      neuron1ID, neuron2ID := neurons[r1].id, neurons[r2].id;
      if neuron1ID == neuron2ID {
        return neuron1ID, neuron2ID, false;
      }
      var duplicate := DuplicateLink(neuron1ID, neuron2ID);
      hit := !duplicate;
    }

    // ------------------------------------------------------- the phenotype

    /**
     * `CreatePhenotype`: one phenotype neuron per neuron gene, then one link
     * per enabled link gene, added to the outgoing links of its source and
     * the incoming links of its target; the net gets the genome's depth.
     */
    method CreatePhenotype() returns (net: NeuralNet)
      requires LinksResolve(neurons, links)
      modifies this`phenotype
      ensures fresh(net) && phenotype == net && net.Valid()
      ensures net.neurons == NetNeurons(neurons, links) && net.depth == depth
    {
      DeletePhenotype();
      var vNeurons: seq<Neuron> := [];
      var i := 0;
      while i < |neurons|
        invariant i <= |neurons| && |vNeurons| == i
        invariant forall p :: 0 <= p < i ==>
          vNeurons[p] == Neuron(neurons[p].neuronType, neurons[p].id, neurons[p].splitX, neurons[p].splitY, [], [])
      {
        var cur := neurons[i];
        vNeurons := vNeurons + [Neuron(cur.neuronType, cur.id, cur.splitX, cur.splitY, [], [])];
        i := i + 1;
      }
      ResolvePrefix(neurons, links, 0);
      assert vNeurons == NetNeurons(neurons, links[..0]);
      var k := 0;
      while k < |links|
        invariant k <= |links| && LinksResolve(neurons, links[..k])
        invariant vNeurons == NetNeurons(neurons, links[..k])
      {
        NetNeuronsStep(neurons, links, k);
        var curLink := links[k];
        if curLink.enabled {
          var from := GetNeuronPosFromID(curLink.from);
          var to := GetNeuronPosFromID(curLink.to);
          var newLink := Link(from, to, curLink.weight, curLink.recurrent);
          vNeurons := vNeurons[from := vNeurons[from].(linksOut := vNeurons[from].linksOut + [newLink])];
          vNeurons := vNeurons[to := vNeurons[to].(linksIn := vNeurons[to].linksIn + [newLink])];
        }
        k := k + 1;
      }
      assert links[..|links|] == links;
      NetNeuronsWellFormed(neurons, links);
      net := new NeuralNet();
      net.Initialize(vNeurons, depth);
      phenotype := net;
    }

    /** `DeletePhenotype`: drops the reference to the phenotype. */
    method DeletePhenotype()
      modifies this`phenotype
      ensures phenotype == null
    {
      phenotype := null;
    }

    // ------------------------------------------------------------ the rest

    /** `SortGenes`: the links ordered by innovation number, the same genes as before. */
    method SortGenes()
      modifies this`links
      ensures SortedBy(links, InnovationKey) && multiset(links) == multiset(old(links))
    {
      links := SortLinks(links);
    }

    /**
     * `CalculateNetDepth`: for every neuron, the largest depth in the table
     * among the entries with the neuron's split-y value; the depth is two
     * more than the largest of those (at least 0).
     */
    method CalculateNetDepth(splitDepths: seq<SplitDepth>)
      modifies this`depth
      ensures depth == NetMax(neurons, splitDepths, 0, 0) + 2
    {
      var maxSoFar := 0;
      var i := 0;
      while i < |neurons|
        invariant i <= |neurons|
        invariant NetMax(neurons, splitDepths, i, maxSoFar) == NetMax(neurons, splitDepths, 0, 0)
      {
        var curNeuron := neurons[i];
        ghost var m0 := maxSoFar;
        var j := 0;
        while j < |splitDepths|
          invariant j <= |splitDepths|
          invariant RowMax(curNeuron.splitY, splitDepths, j, maxSoFar) == RowMax(curNeuron.splitY, splitDepths, 0, m0)
        {
          if curNeuron.splitY == splitDepths[j].value && splitDepths[j].depth > maxSoFar {
            maxSoFar := splitDepths[j].depth;
          }
          j := j + 1;
        }
        i := i + 1;
      }
      depth := maxSoFar + 2;
    }
  }
}
