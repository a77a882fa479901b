/**
 * `UGeneticAlgorithm`: the population of genomes, its species, the ledger
 * of innovations, the split-depth table and the records of the best
 * genomes.  `Epoch` takes one fitness score per genome and breeds the next
 * generation: it culls stagnant species, ranks the genomes, sorts them into
 * species, shares out the offspring, breeds, mutates and builds the
 * networks.  Each step is a method proved against the functions of
 * `Selection`, `Speciation` and `Mating`; together they keep the
 * population sound (every link resolves, every neuron ID is registered).
 */
module Evolution {
  import opened Globals
  import opened Parameters
  import opened Sorting
  import opened Genes
  import opened Innovation
  import opened StructuralMutation
  import opened LinkMutation
  import opened Compatibility
  import opened Phenotype
  import opened Genotype
  import opened Ranking
  import opened Speciation
  import opened Mating
  import opened Selection
  import opened Breeding
  import opened GenomeLayout
  import opened Reproduction

  // ---------------------------------------------------------------------
  // Soundness of genomes
  // ---------------------------------------------------------------------

  /** Every link of `g` joins two of its neurons, and every neuron ID is -1 or below `bound`. */
  ghost predicate Sound(g: Genome, bound: int)
    reads g`neurons, g`links
  {
    LinksResolve(g.neurons, g.links) && IDsBelow(g.neurons, bound)
  }

  /** No species object occurs twice. */
  ghost predicate DistinctSpecies(ss: seq<Species>)
  {
    forall i, j :: 0 <= i < j < |ss| ==> ss[i] != ss[j]
  }

  /** The members of the species of `ss`. */
  ghost function Enrolled(ss: seq<Species>): set<Genome>
    reads ss`members
  {
    set a, g | 0 <= a < |ss| && g in ss[a].members :: g
  }

  /** The species has a leader, and its leader and members come from `allowed`. */
  ghost predicate SpeciesDrawn(s: Species, allowed: set<Genome>)
    reads s`leader, s`members
  {
    s.leader != null && s.leader in allowed && forall j :: 0 <= j < |s.members| ==> s.members[j] in allowed
  }

  /** Every species of `ss` is drawn from `allowed`. */
  ghost predicate DrawnFrom(ss: seq<Species>, allowed: set<Genome>)
    reads ss`leader, ss`members
  {
    forall i :: 0 <= i < |ss| ==> SpeciesDrawn(ss[i], allowed)
  }

  /** Species drawn from `allowed` have their members in `allowed`. */
  lemma EnrolledWithin(ss: seq<Species>, allowed: set<Genome>)
    requires DrawnFrom(ss, allowed)
    ensures Enrolled(ss) <= allowed
  {
    forall g | g in Enrolled(ss)
      ensures g in allowed
    {
      var i :| 0 <= i < |ss| && g in ss[i].members;
      assert SpeciesDrawn(ss[i], allowed);
    }
  }

  /** Every genome of `gs` is sound. */
  ghost predicate SetSound(gs: set<Genome>, bound: int)
    reads gs`neurons, gs`links
  {
    forall g :: g in gs ==> Sound(g, bound)
  }

  /** The genomes of a sequence, as a set. */
  ghost function ElementsOf(gs: seq<Genome>): set<Genome>
  {
    set g | g in gs
  }

  /** Every genome of the sequence is sound against the bound. */
  ghost predicate AllSound(gs: seq<Genome>, bound: int)
    reads gs`neurons, gs`links
  {
    forall k :: 0 <= k < |gs| ==> Sound(gs[k], bound)
  }

  /** Soundness of a sequence carries over to a larger bound. */
  lemma AllSoundGrows(gs: seq<Genome>, bound: int, bound': int)
    requires AllSound(gs, bound) && bound <= bound'
    ensures AllSound(gs, bound')
  {
    forall k | 0 <= k < |gs|
      ensures Sound(gs[k], bound')
    {
      SoundGrows(gs[k], bound, bound');
    }
  }

  /** Two sound sequences join into one. */
  lemma AllSoundJoin(a: seq<Genome>, b: seq<Genome>, bound: int)
    requires AllSound(a, bound) && AllSound(b, bound)
    ensures AllSound(a + b, bound)
  {
    forall k | 0 <= k < |a + b|
      ensures Sound((a + b)[k], bound)
    {
      if k >= |a| {
        assert (a + b)[k] == b[k - |a|];
      }
    }
  }

  /** Soundness of a set carries over to a larger bound. */
  lemma SetSoundGrows(gs: set<Genome>, bound: int, bound': int)
    requires SetSound(gs, bound) && bound <= bound'
    ensures SetSound(gs, bound')
  {
    forall g | g in gs
      ensures Sound(g, bound')
    {
      SoundGrows(g, bound, bound');
    }
  }

  /** A sound genome stays sound against a larger bound. */
  lemma SoundGrows(g: Genome, bound: int, bound': int)
    requires Sound(g, bound) && bound <= bound'
    ensures Sound(g, bound')
  {
    IDsBelowGrows(g.neurons, bound, bound');
  }

  /** An endpoint of a link of a sound genome is -1 or a neuron ID below the bound. */
  lemma EndpointBelow(x: int, ns: seq<NeuronGene>, ls: seq<LinkGene>, bound: int)
    requires LinksResolve(ns, ls) && IDsBelow(ns, bound)
    requires exists k :: 0 <= k < |ls| && (ls[k].from == x || ls[k].to == x)
    ensures x == -1 || 0 <= x < bound
  {
    var k :| 0 <= k < |ls| && (ls[k].from == x || ls[k].to == x);
    assert HasNeuron(ns, x);
    var q :| 0 <= q < |ns| && ns[q].id == x;
  }

  /** An endpoint of a gene of two sound parents is -1 or a neuron ID below the bound. */
  lemma ParentEndpointBelow(x: int, mn: seq<NeuronGene>, ml: seq<LinkGene>, fn: seq<NeuronGene>, fl: seq<LinkGene>, bound: int)
    requires LinksResolve(mn, ml) && IDsBelow(mn, bound) && LinksResolve(fn, fl) && IDsBelow(fn, bound)
    requires Endpoint(x, ml, fl)
    ensures x == -1 || 0 <= x < bound
  {
    if x != -1 {
      if exists k :: 0 <= k < |ml| && (ml[k].from == x || ml[k].to == x) {
        EndpointBelow(x, mn, ml, bound);
      } else {
        EndpointBelow(x, fn, fl, bound);
      }
    }
  }

  /**
   * The offspring of two sound parents is sound against a valid ledger:
   * its links resolve, its neuron IDs are distinct and registered.
   */
  lemma MateSound(l: Ledger, mf: real, ff: real, mn: seq<NeuronGene>, ml: seq<LinkGene>,
                  fn: seq<NeuronGene>, fl: seq<LinkGene>, src: nat -> Draw, pos: nat)
    requires l.Valid()
    requires LinksResolve(mn, ml) && IDsBelow(mn, l.nextNeuronID) && LinksResolve(fn, fl) && IDsBelow(fn, l.nextNeuronID)
    ensures var r := Mate(mf, ff, ml, fl, l.records, src, pos);
      LinksResolve(r.neurons, r.links) && IDsBelow(r.neurons, l.nextNeuronID) && DistinctNeuronIDs(r.neurons)
  {
    forall x | Endpoint(x, ml, fl)
      ensures x == -1 || Registers(l.records, x)
    {
      ParentEndpointBelow(x, mn, ml, fn, fl, l.nextNeuronID);
    }
    MateMeaning(mf, ff, ml, fl, l.records, src, pos);
    var r := Mate(mf, ff, ml, fl, l.records, src, pos);
    forall p | 0 <= p < |r.neurons|
      ensures r.neurons[p].id == -1 || 0 <= r.neurons[p].id < l.nextNeuronID
    {
      ParentEndpointBelow(r.neurons[p].id, mn, ml, fn, fl, l.nextNeuronID);
    }
  }

  // ---------------------------------------------------------------------
  // Removing species
  // ---------------------------------------------------------------------

  /** `ss` without the species listed in `xs`, in the original order. */
  function Without(ss: seq<Species>, xs: seq<Species>): (r: seq<Species>)
  {
    if ss == [] then []
    else Without(ss[..|ss| - 1], xs) + (if ss[|ss| - 1] in xs then [] else [ss[|ss| - 1]])
  }

  /** The species of `ss` that die out, in order. */
  function Dying(ss: seq<Species>, allowed: int, bestEver: real): (r: seq<Species>)
    reads ss`gensNoImprovement, ss`bestFitness
  {
    if ss == [] then []
    else
      var s := ss[|ss| - 1];
      Dying(ss[..|ss| - 1], allowed, bestEver) +
      (if Doomed(s.gensNoImprovement, s.bestFitness, allowed, bestEver) then [s] else [])
  }

  /** Exactly the doomed species are listed as dying. */
  lemma {:induction false} DyingMeaning(ss: seq<Species>, allowed: int, bestEver: real)
    ensures forall s :: s in Dying(ss, allowed, bestEver) <==>
      s in ss && Doomed(s.gensNoImprovement, s.bestFitness, allowed, bestEver)
  {
    if ss != [] {
      DyingMeaning(ss[..|ss| - 1], allowed, bestEver);
      assert ss == ss[..|ss| - 1] + [ss[|ss| - 1]];
    }
  }

  /** Removing no species changes nothing. */
  lemma {:induction false} WithoutNothing(ss: seq<Species>)
    ensures Without(ss, []) == ss
  {
    if ss != [] {
      WithoutNothing(ss[..|ss| - 1]);
    }
  }

  /** A species survives the removal exactly when it was there and is not listed. */
  lemma {:induction false} WithoutMeaning(ss: seq<Species>, xs: seq<Species>)
    ensures forall s :: s in Without(ss, xs) <==> s in ss && s !in xs
  {
    if ss != [] {
      WithoutMeaning(ss[..|ss| - 1], xs);
      assert ss == ss[..|ss| - 1] + [ss[|ss| - 1]];
    }
  }

  /** Emptied species with known leaders stay drawn from the known genomes after a removal. */
  lemma EmptiedDrawn(ss: seq<Species>, xs: seq<Species>, allowed: set<Genome>)
    requires forall k :: 0 <= k < |ss| ==> ss[k].members == [] && ss[k].leader != null && ss[k].leader in allowed
    ensures DrawnFrom(Without(ss, xs), allowed)
    ensures forall i :: 0 <= i < |Without(ss, xs)| ==> Without(ss, xs)[i] in ss
  {
    WithoutMeaning(ss, xs);
    forall i | 0 <= i < |Without(ss, xs)|
      ensures Without(ss, xs)[i] in ss && SpeciesDrawn(Without(ss, xs)[i], allowed)
    {
      var s := Without(ss, xs)[i];
      assert s in Without(ss, xs);
      var j :| 0 <= j < |ss| && ss[j] == s;
    }
  }

  /** The removal keeps the order: it works on each part of a list separately. */
  lemma {:induction false} WithoutSplits(a: seq<Species>, b: seq<Species>, xs: seq<Species>)
    ensures Without(a + b, xs) == Without(a, xs) + Without(b, xs)
    decreases |b|
  {
    if b == [] {
      assert a + b == a;
    } else {
      var b' := b[..|b| - 1];
      assert (a + b)[..|a + b| - 1] == a + b';
      WithoutSplits(a, b', xs);
    }
  }

  /** Removing the species of `xs`, then `x`, removes the species of `xs + [x]`. */
  lemma {:induction false} WithoutOneMore(ss: seq<Species>, xs: seq<Species>, x: Species)
    ensures Without(Without(ss, xs), [x]) == Without(ss, xs + [x])
  {
    if ss != [] {
      var front := ss[..|ss| - 1];
      WithoutOneMore(front, xs, x);
      WithoutSplits(Without(front, xs), if ss[|ss| - 1] in xs then [] else [ss[|ss| - 1]], [x]);
    }
  }

  /** The surviving species are exactly those of `ss` that are not doomed. */
  lemma CullMeaning(ss: seq<Species>, allowed: int, bestEver: real)
    ensures forall s :: s in Without(ss, Dying(ss, allowed, bestEver)) <==>
      s in ss && !Doomed(s.gensNoImprovement, s.bestFitness, allowed, bestEver)
  {
    DyingMeaning(ss, allowed, bestEver);
    WithoutMeaning(ss, Dying(ss, allowed, bestEver));
  }

  /** Removing species keeps a list free of repeats. */
  lemma {:induction false} WithoutKeepsDistinct(ss: seq<Species>, xs: seq<Species>)
    requires DistinctSpecies(ss)
    ensures DistinctSpecies(Without(ss, xs))
  {
    if ss != [] {
      var front := ss[..|ss| - 1];
      WithoutKeepsDistinct(front, xs);
      WithoutMeaning(front, xs);
      assert ss[|ss| - 1] !in front;
    }
  }

  /** The fitness scores of `gs`, in order. */
  function Fitnesses(gs: seq<Genome>): (fs: seq<real>)
    reads set g | g in gs
    ensures |fs| == |gs| && forall k :: 0 <= k < |gs| ==> fs[k] == gs[k].fitness
  {
    seq(|gs|, k reads set g | g in gs requires 0 <= k < |gs| => gs[k].fitness)
  }

  /** The weighting of excess, disjoint and matching genes that `params` sets. */
  function CoefficientsOf(p: Params): Coefficients
  {
    Coefficients(p.excessCoeff, p.disjointCoeff, p.matchingCoeff)
  }

  // ---------------------------------------------------------------------
  // Member lists
  // ---------------------------------------------------------------------

  /** All members of all species of `ss`, counted with repetition. */
  ghost function MemberPool(ss: seq<Species>): multiset<Genome>
    reads ss`members
  {
    if ss == [] then multiset{} else MemberPool(ss[..|ss| - 1]) + multiset(ss[|ss| - 1].members)
  }

  /** A species appended to the list adds its members to the pool. */
  lemma PoolAppend(ss: seq<Species>, s: Species)
    ensures MemberPool(ss + [s]) == MemberPool(ss) + multiset(s.members)
  {
    assert (ss + [s])[..|ss|] == ss;
  }

  /** The pool splits around species `k`. */
  lemma {:induction false} PoolSplit(ss: seq<Species>, k: nat)
    requires k < |ss|
    ensures MemberPool(ss) == MemberPool(ss[..k]) + multiset(ss[k].members) + MemberPool(ss[k + 1..])
  {
    var n := |ss| - 1;
    if k == n {
      assert ss[k + 1..] == [];
    } else {
      PoolSplit(ss[..n], k);
      var front, back := ss[..k], ss[k + 1..];
      assert ss[..n][..k] == front && ss[..n][k + 1..] == back[..|back| - 1];
      var a, m, b, l := MemberPool(front), multiset(ss[k].members), MemberPool(back[..|back| - 1]), multiset(ss[n].members);
      assert MemberPool(back) == b + l;
      assert MemberPool(ss) == a + m + b + l;
      UnionAssoc(a + m, b, l);
    }
  }

  /** Concatenation of sequences is associative. */
  lemma ConcatAssoc<T>(a: seq<T>, b: seq<T>, c: seq<T>)
    ensures a + b + c == a + (b + c)
  {
  }

  /** One more element of a sequence's prefix. */
  lemma PrefixPool<T>(xs: seq<T>, i: nat)
    requires i < |xs|
    ensures multiset(xs[..i + 1]) == multiset(xs[..i]) + multiset{xs[i]}
  {
    assert xs[..i + 1] == xs[..i] + [xs[i]];
  }

  /** Union of multisets is associative. */
  lemma UnionAssoc<T>(a: multiset<T>, b: multiset<T>, c: multiset<T>)
    ensures a + b + c == a + (b + c)
  {
  }

  /** One more element in the middle part of a three-part union. */
  lemma Regroup<T>(a: multiset<T>, m: multiset<T>, b: multiset<T>, x: T)
    ensures a + (m + multiset{x}) + b == a + m + b + multiset{x}
  {
  }

  /** Cancellation of a common part on both sides of a multiset equation. */
  lemma Cancel<T>(a: multiset<T>, b: multiset<T>, c: multiset<T>, d: multiset<T>)
    requires a + c == b + c + d
    ensures a == b + d
  {
    forall x
      ensures a[x] == (b + d)[x]
    {
      assert (a + c)[x] == (b + c + d)[x];
    }
  }


  /** The leaders' link lists, in species order. */
  ghost function LeaderLinks(ss: seq<Species>): (r: seq<seq<LinkGene>>)
    requires forall i :: 0 <= i < |ss| ==> ss[i].leader != null
    reads ss`leader, (set s | s in ss && s.leader != null :: s.leader as Genome)`links
    ensures |r| == |ss| && forall k :: 0 <= k < |ss| ==> r[k] == ss[k].leader.links
  {
    if ss == [] then [] else LeaderLinks(ss[..|ss| - 1]) + [ss[|ss| - 1].leader.links]
  }

  /** `g` is in no member list of the species of `ss` after position `i` and before `n`. */
  ghost predicate LastHolder(ss: seq<Species>, i: nat, n: nat, g: Genome)
    reads ss`members
  {
    forall j :: i < j < n && j < |ss| ==> g !in ss[j].members
  }

  /**
   * Every member of the first `n` species carries the fitness share of the
   * last of those species that lists it: a genome listed by two species is
   * left with the share the later one wrote.
   */
  ghost predicate SharedUpTo(ss: seq<Species>, n: nat, p: Params, pop: set<Genome>)
    reads ss`members, ss`age, pop`speciesFitness, pop`fitness
  {
    forall i, g :: 0 <= i < n && i < |ss| && g in ss[i].members && g in pop && LastHolder(ss, i, n, g) ==>
      g.speciesFitness == SharedFitness(g.fitness, ss[i].age, |ss[i].members|, p)
  }

  /** The average is nonzero and every genome of `gs` is due its offspring share of it. */
  ghost predicate OffspringDue(gs: seq<Genome>, average: real)
    reads gs`spawnAmount, gs`speciesFitness
  {
    average != 0.0 && forall k :: 0 <= k < |gs| ==> gs[k].spawnAmount == Offspring(gs[k].speciesFitness, average)
  }

  /** The spawn amounts of the species of `ss`, in order. */
  ghost function SpawnAmounts(ss: seq<Species>): (r: seq<real>)
    reads ss`spawnAmount
    ensures |r| == |ss| && forall i :: 0 <= i < |ss| ==> r[i] == ss[i].spawnAmount
  {
    if ss == [] then [] else SpawnAmounts(ss[..|ss| - 1]) + [ss[|ss| - 1].spawnAmount]
  }

  /** The IDs of the genomes of `gs`, in order. */
  ghost function Ids(gs: seq<Genome>): (r: seq<int>)
    reads gs`id
    ensures |r| == |gs| && forall k :: 0 <= k < |gs| ==> r[k] == gs[k].id
  {
    if gs == [] then [] else Ids(gs[..|gs| - 1]) + [gs[|gs| - 1].id]
  }

  /** `c` is a copy of `g`: the ID, the genes, the fitness and the numbers of inputs and outputs agree. */
  ghost predicate CopyOf(c: Genome, g: Genome)
    reads c, g
  {
    c.id == g.id && c.neurons == g.neurons && c.links == g.links && c.fitness == g.fitness &&
    c.numInputs == g.numInputs && c.numOutputs == g.numOutputs
  }

  /** The genes and number of inputs of a bred child before its mutation, and the cursor then. */
  datatype Unbred = Unbred(neurons: seq<NeuronGene>, links: seq<LinkGene>, numInputs: int, pos: nat)

  /**
   * The child a choice gives, before mutation, for a species with members
   * `ms`, the previous child `prev`, the ledger entries `rs` and the cursor
   * `q` after the choice: the mother's genes, the previous child's, or the
   * genes `Mate` gives mother and father with the mother's inputs.
   */
  ghost function ChildGenes(c: ChildKind, q: nat, ms: seq<Genome>, prev: Genome, rs: seq<InnovationRecord>, src: nat -> Draw): Unbred
    requires !c.Unread? && (c.Clone? ==> c.mother < |ms|) && (c.Cross? ==> c.mother < |ms| && c.father < |ms|)
    reads ms`neurons, ms`links, ms`numInputs, ms`fitness, prev`neurons, prev`links, prev`numInputs
  {
    match c
    case Clone(m) => Unbred(ms[m].neurons, ms[m].links, ms[m].numInputs, q)
    case Stale => Unbred(prev.neurons, prev.links, prev.numInputs, q)
    case Cross(m, f) =>
      var b := Mate(ms[m].fitness, ms[f].fitness, ms[m].links, ms[f].links, rs, src, q);
      Unbred(b.neurons, b.links, ms[m].numInputs, b.pos)
  }

  /**
   * The `n` children a species contributes from position `at` fit in `gs`,
   * and the first is a copy of the leader unless the second turn chose it
   * again as the previous child.
   */
  ghost predicate EliteAt(gs: seq<Genome>, at: nat, n: nat, leader: Genome)
    reads gs, leader
  {
    at + n <= |gs| && (1 <= n ==> CopyOf(gs[at], leader) || (2 <= n && gs[at + 1] == gs[at]))
  }

  /**
   * The species before `i`, given by their leaders, have their children
   * placed one after another in `gs`, as many as `q` counts, each run starting with
   * the leader's elite copy (as `EliteAt` states it).
   */
  ghost predicate ElitesBefore(gs: seq<Genome>, q: seq<nat>, leaders: seq<Genome>, i: nat)
    reads gs, leaders
  {
    i <= |q| == |leaders| && forall j {:trigger leaders[j]} :: 0 <= j < i ==> EliteAt(gs, Before(q, j), q[j], leaders[j])
  }

  /** The leaders of the species, in order. */
  ghost function LeadersOf(ss: seq<Species>): (r: seq<Genome>)
    requires forall j :: 0 <= j < |ss| ==> ss[j].leader != null
    reads ss`leader
    ensures |r| == |ss| && forall j :: 0 <= j < |ss| ==> r[j] == ss[j].leader
  {
    if ss == [] then [] else LeadersOf(ss[..|ss| - 1]) + [ss[|ss| - 1].leader]
  }

  /**
   * The children of species `i` appended after those of the species before
   * it: every species so far keeps its elite copy in place.
   */
  lemma ElitesAppend(next: seq<Genome>, spawned: seq<Genome>, q: seq<nat>, i: nat, leaders: seq<Genome>)
    requires i < |q| == |leaders| && |next| == Before(q, i) && |spawned| == q[i]
    requires ElitesBefore(next, q, leaders, i) && EliteAt(spawned, 0, q[i], leaders[i])
    ensures ElitesBefore(next + spawned, q, leaders, i + 1)
  {
    var a := next + spawned;
    forall j | 0 <= j < i
      ensures EliteAt(a, Before(q, j), q[j], leaders[j])
    {
      EliteAtAppend(next, spawned, Before(q, j), q[j], leaders[j]);
    }
    EliteAtShift(next, spawned, q[i], leaders[i]);
  }

  /** A run placed at the start of `b` lies after `a` in `a + b`. */
  lemma EliteAtShift(a: seq<Genome>, b: seq<Genome>, n: nat, leader: Genome)
    requires EliteAt(b, 0, n, leader)
    ensures EliteAt(a + b, |a|, n, leader)
  {
    if 1 <= n {
      assert (a + b)[|a|] == b[0];
      if 2 <= n {
        assert (a + b)[|a| + 1] == b[1];
      }
    }
  }

  /** A species with no children keeps the ones before it in place. */
  lemma ElitesSkip(next: seq<Genome>, q: seq<nat>, i: nat, leaders: seq<Genome>)
    requires i < |q| == |leaders| && |next| == Before(q, i) && q[i] == 0
    requires ElitesBefore(next, q, leaders, i)
    ensures ElitesBefore(next, q, leaders, i + 1)
  {
  }

  /** Extending the sequence keeps every elite copy in place. */
  lemma ElitesPrefix(a: seq<Genome>, b: seq<Genome>, q: seq<nat>, leaders: seq<Genome>, i: nat)
    requires ElitesBefore(a, q, leaders, i) && |a| <= |b| && b[..|a|] == a
    ensures ElitesBefore(b, q, leaders, i)
  {
    forall j | 0 <= j < i
      ensures EliteAt(b, Before(q, j), q[j], leaders[j])
    {
      var at := Before(q, j);
      assert EliteAt(a, at, q[j], leaders[j]);
      if 1 <= q[j] {
        assert b[at] == b[..|a|][at];
        if 2 <= q[j] {
          assert b[at + 1] == b[..|a|][at + 1];
        }
      }
    }
  }

  /** A child equal to the first is the second: the first is chosen again only as the previous child of the second turn. */
  ghost predicate AliasesFirst(kids: seq<Genome>)
  {
    forall j :: 1 <= j < |kids| && kids[j] == kids[0] ==> kids[1] == kids[0]
  }

  /** Appending keeps the children already placed where they are. */
  lemma EliteAtAppend(a: seq<Genome>, b: seq<Genome>, at: nat, n: nat, leader: Genome)
    requires EliteAt(a, at, n, leader)
    ensures EliteAt(a + b, at, n, leader)
  {
    if 1 <= n {
      assert (a + b)[at] == a[at];
      if 2 <= n {
        assert (a + b)[at + 1] == a[at + 1];
      }
    }
  }

  /** The ages of the species of `ss`, in order. */
  ghost function Ages(ss: seq<Species>): (r: seq<int>)
    reads ss`age
    ensures |r| == |ss|
  {
    if ss == [] then [] else Ages(ss[..|ss| - 1]) + [ss[|ss| - 1].age]
  }

  /** The generations without improvement of the species of `ss`, in order. */
  ghost function Stagnation(ss: seq<Species>): (r: seq<int>)
    reads ss`gensNoImprovement
    ensures |r| == |ss|
  {
    if ss == [] then [] else Stagnation(ss[..|ss| - 1]) + [ss[|ss| - 1].gensNoImprovement]
  }

  /** Before any purge, the snapshots are the ages and counts of the species. */
  lemma {:induction false} NothingPurged(ss: seq<Species>)
    ensures Purged(ss, 0, Ages(ss), Stagnation(ss))
    decreases |ss|
  {
    if ss != [] {
      var front := ss[..|ss| - 1];
      NothingPurged(front);
      forall k | 0 <= k < |ss|
        ensures ss[k].age == Ages(ss)[k] && ss[k].gensNoImprovement == Stagnation(ss)[k]
      {
        if k < |front| {
          assert ss[k] == front[k];
        }
      }
    }
  }

  /**
   * The first `i` species of `ss` are purged, from ages `ages0` and
   * stagnation counts `gens0`: no members, one generation older, one more
   * without improvement, nothing to spawn.  The others are as they were.
   */
  ghost predicate Purged(ss: seq<Species>, i: nat, ages0: seq<int>, gens0: seq<int>)
    reads ss`members, ss`age, ss`gensNoImprovement, ss`spawnAmount
  {
    i <= |ss| == |ages0| == |gens0| &&
    (forall k :: 0 <= k < i ==>
      ss[k].members == [] && ss[k].age == ages0[k] + 1 &&
      ss[k].gensNoImprovement == gens0[k] + 1 && ss[k].spawnAmount == 0.0) &&
    (forall k :: i <= k < |ss| ==> ss[k].age == ages0[k] && ss[k].gensNoImprovement == gens0[k])
  }

  /**
   * The first `|before|` species of `ss` have added the spawn amounts of
   * their members to the amounts in `before`.
   */
  ghost predicate SpawnsAdded(ss: seq<Species>, before: seq<real>)
    reads ss`spawnAmount, ss`members, set s, g | s in ss && g in s.members :: g
  {
    |before| <= |ss| &&
    forall i :: 0 <= i < |before| ==> ss[i].spawnAmount == before[i] + SpawnSum(ss[i].members)
  }

  /** The sum of the species fitness of `gs`. */
  function SpeciesFitnessSum(gs: seq<Genome>): real
    reads gs`speciesFitness
  {
    if gs == [] then 0.0 else SpeciesFitnessSum(gs[..|gs| - 1]) + gs[|gs| - 1].speciesFitness
  }

  /** A new species object founded by `first` with ID `id` (`NewObject` then `Initialize`). */
  method NewSpecies(first: Genome, id: int) returns (s: Species)
    ensures fresh(s) && s.leader == first && s.members == [first] && s.id == id
  {
    s := new Species();
    s.Initialize(first, id);
  }

  /** The number of links of a start genome with `nI` inputs and `nO` outputs. */
  function StartLinkCount(nI: int, nO: int): nat
  {
    Count(nI + 1) * Count(nO)
  }

  /** The number of links of each genome of `gs`, in order. */
  ghost function LinkCounts(gs: seq<Genome>): (cs: seq<nat>)
    reads gs
    ensures |cs| == |gs| && forall k :: 0 <= k < |gs| ==> cs[k] == |gs[k].links|
  {
    if gs == [] then [] else LinkCounts(gs[..|gs| - 1]) + [|gs[|gs| - 1].links|]
  }

  /**
   * The cursor at which start genome `i` is built, the first at `p`.  Each
   * earlier turn draws twice per start link for the weights, then once per
   * link of the genome at the turn's position of the list: an old genome,
   * with `counts` links, while the turn is below their number, and a start
   * genome, with `links` links, after it.
   */
  function StartCursor(p: nat, counts: seq<nat>, links: nat, i: nat): nat
  {
    if i == 0 then p
    else StartCursor(p, counts, links, i - 1) + 2 * links + (if i - 1 < |counts| then counts[i - 1] else links)
  }

  /** Started on an empty list, every turn takes three draws per start link. */
  lemma {:induction false} StartCursorFromEmpty(p: nat, links: nat, i: nat)
    ensures StartCursor(p, [], links, i) == p + 3 * links * i
  {
    if i > 0 {
      StartCursorFromEmpty(p, links, i - 1);
    }
  }

  /** `UGeneticAlgorithm`. */
  class GeneticAlgorithm {
    var genomes: seq<Genome>
    var species: seq<Species>
    var innovation: InnovationList
    var params: Params
    var generation: int
    var popSize: int
    var nextGenomeID: int
    var nextSpeciesID: int
    var bestFitnessEver: real
    var totalAdjustedFitness: real
    var averageAdjustedFitness: real
    var splitDepths: seq<SplitDepth>
    /** The table behind the function-local static of `Split`; it only grows. */
    var staticSplits: seq<SplitDepth>
    var bestGenomes: seq<Genome>
    var bestGenomeEver: Genome?

    /**
     * Every genome the population can reach: the genomes, the leaders and
     * the members of the species. It only grows.
     */
    ghost var known: set<Genome>

    /**
     * The population invariant: the ledger is valid; every genome, every
     * leader and every member is known, and every known genome is sound
     * against the ledger's neuron counter; no species is listed twice.
     */
    ghost predicate Valid()
      reads this`innovation, this`genomes, this`species, this`known, innovation
      reads known`neurons, known`links, species`leader, species`members
    {
      innovation.Valid() &&
      (forall j :: 0 <= j < |genomes| ==> genomes[j] in known) &&
      SetSound(known, innovation.nextNeuronID) &&
      DistinctSpecies(species) &&
      DrawnFrom(species, known)
    }

    /** A new algorithm object before `Initialize`: no genome, no species, an empty ledger. */
    constructor (p: Params)
      ensures genomes == [] && species == [] && staticSplits == [] && params == p
      ensures fresh(innovation) && innovation.innovations == []
      ensures known == {} && Valid()
    {
      genomes, species := [], [];
      innovation := new InnovationList();
      params := p;
      generation, popSize, nextGenomeID, nextSpeciesID := 0, 0, 0, 0;
      bestFitnessEver, totalAdjustedFitness, averageAdjustedFitness := 0.0, 0.0, 0.0;
      splitDepths, staticSplits := [], [];
      bestGenomes, bestGenomeEver := [], null;
      known := {};
    }

    /**
     * `Initialize`: the generation counter at 1, the population size
     * recorded, the counters and totals reset, and `populationSize` start
     * genomes appended to the genome list, the new genome `i` with ID `i`
     * and the standard layout of `nI` inputs and `nO` outputs.  After each
     * one is appended, `InitializeWeights` runs on the genome at position
     * `i` of the list.  Then a new ledger is started from the first genome
     * of the list and the split-depth table is built; `ok` is false, and
     * neither happens, when the list is empty.  Start genome `j` has the
     * start links drawn from `StartCursor(.., j)` (`StartedFromAt`), and
     * `rng` is left at the cursor after the last one.  Started on a new
     * algorithm object with a non-negative layout, the population is valid.
     */
    method Initialize(populationSize: int, nI: int, nO: int, rng: Rng) returns (ok: bool)
      modifies this`generation, this`popSize, this`nextGenomeID, this`nextSpeciesID
      modifies this`bestFitnessEver, this`totalAdjustedFitness, this`averageAdjustedFitness
      modifies this`genomes, this`known, this`innovation, this`staticSplits, this`splitDepths, rng`pos
      ensures generation == 1 && popSize == populationSize && nextGenomeID == Count(populationSize) && nextSpeciesID == 0
      ensures bestFitnessEver == 0.0 && totalAdjustedFitness == 0.0 && averageAdjustedFitness == 0.0
      ensures |genomes| == |old(genomes)| + Count(populationSize) && genomes[..|old(genomes)|] == old(genomes)
      ensures known == old(known) + ElementsOf(genomes[|old(genomes)|..])
      ensures forall k :: |old(genomes)| <= k < |genomes| ==> fresh(genomes[k])
      ensures StartedFrom(genomes[|old(genomes)|..], nI, nO, rng.source, old(rng.pos), old(LinkCounts(genomes)))
      ensures rng.pos == StartCursor(old(rng.pos), old(LinkCounts(genomes)), StartLinkCount(nI, nO), Count(populationSize))
      ensures old(genomes) == [] ==> rng.pos == old(rng.pos) + 3 * StartLinkCount(nI, nO) * Count(populationSize)
      ensures ok <==> 1 <= |genomes|
      ensures !ok ==> innovation == old(innovation) && staticSplits == old(staticSplits) && splitDepths == old(splitDepths)
      ensures ok ==>
        fresh(innovation) &&
        innovation.State() == Ledger(StartRecords(genomes[0].neurons, genomes[0].links), |genomes[0].neurons|,
                                     |genomes[0].neurons| + |genomes[0].links|) &&
        staticSplits == SplitAppend(old(staticSplits), 0.0, 1.0, 0) && splitDepths == staticSplits
      ensures ok && old(genomes) == [] && old(species) == [] && old(known) == {} && 0 <= nI && 0 <= nO ==> Valid()
    {
      ghost var n0, k0, s0 := |genomes|, known, species;
      ok := StartPopulation(populationSize, nI, nO, rng);
      if ok && n0 == 0 && s0 == [] && k0 == {} && 0 <= nI && 0 <= nO {
        StartedValid(nI, nO, rng.source, old(rng.pos), old(LinkCounts(genomes)));
      }
    }

    /** The steps of `Initialize`, each in its own method. */
    method StartPopulation(populationSize: int, nI: int, nO: int, rng: Rng) returns (ok: bool)
      modifies this`generation, this`popSize, this`nextGenomeID, this`nextSpeciesID
      modifies this`bestFitnessEver, this`totalAdjustedFitness, this`averageAdjustedFitness
      modifies this`genomes, this`known, this`innovation, this`staticSplits, this`splitDepths, rng`pos
      ensures generation == 1 && popSize == populationSize && nextGenomeID == Count(populationSize) && nextSpeciesID == 0
      ensures bestFitnessEver == 0.0 && totalAdjustedFitness == 0.0 && averageAdjustedFitness == 0.0
      ensures |genomes| == |old(genomes)| + Count(populationSize) && genomes[..|old(genomes)|] == old(genomes)
      ensures known == old(known) + ElementsOf(genomes[|old(genomes)|..])
      ensures forall k :: |old(genomes)| <= k < |genomes| ==> fresh(genomes[k])
      ensures StartedFrom(genomes[|old(genomes)|..], nI, nO, rng.source, old(rng.pos), old(LinkCounts(genomes)))
      ensures rng.pos == StartCursor(old(rng.pos), old(LinkCounts(genomes)), StartLinkCount(nI, nO), Count(populationSize))
      ensures old(genomes) == [] ==> rng.pos == old(rng.pos) + 3 * StartLinkCount(nI, nO) * Count(populationSize)
      ensures ok <==> 1 <= |genomes|
      ensures !ok ==> innovation == old(innovation) && staticSplits == old(staticSplits) && splitDepths == old(splitDepths)
      ensures ok ==>
        fresh(innovation) &&
        innovation.State() == Ledger(StartRecords(genomes[0].neurons, genomes[0].links), |genomes[0].neurons|,
                                     |genomes[0].neurons| + |genomes[0].links|) &&
        ((forall k :: 0 <= k < |genomes[0].neurons| ==> genomes[0].neurons[k].id == k) ==> innovation.Valid()) &&
        staticSplits == SplitAppend(old(staticSplits), 0.0, 1.0, 0) && splitDepths == staticSplits
    {
      ResetCounters(populationSize);
      AddStartGenomes(populationSize, nI, nO, rng);
      StartCursorFromEmpty(old(rng.pos), StartLinkCount(nI, nO), Count(populationSize));
      ok := StartTables();
    }

    /** The ledger and the split-depth table of `Initialize`, made when there is a first genome. */
    method StartTables() returns (ok: bool)
      modifies this`innovation, this`staticSplits, this`splitDepths
      ensures ok <==> 1 <= |genomes|
      ensures !ok ==> innovation == old(innovation) && staticSplits == old(staticSplits) && splitDepths == old(splitDepths)
      ensures ok ==>
        fresh(innovation) &&
        innovation.State() == Ledger(StartRecords(genomes[0].neurons, genomes[0].links), |genomes[0].neurons|,
                                     |genomes[0].neurons| + |genomes[0].links|) &&
        ((forall k :: 0 <= k < |genomes[0].neurons| ==> genomes[0].neurons[k].id == k) ==> innovation.Valid()) &&
        staticSplits == SplitAppend(old(staticSplits), 0.0, 1.0, 0) && splitDepths == staticSplits
    {
      if |genomes| == 0 {
        return false;
      }
      StartLedger();
      BuildSplitDepths();
      ok := true;
    }

    /** The counters and totals `Initialize` resets. */
    method ResetCounters(populationSize: int)
      modifies this`generation, this`popSize, this`nextSpeciesID
      modifies this`bestFitnessEver, this`totalAdjustedFitness, this`averageAdjustedFitness
      ensures generation == 1 && popSize == populationSize && nextSpeciesID == 0
      ensures bestFitnessEver == 0.0 && totalAdjustedFitness == 0.0 && averageAdjustedFitness == 0.0
    {
      generation, popSize, nextSpeciesID := 1, populationSize, 0;
      bestFitnessEver, totalAdjustedFitness, averageAdjustedFitness := 0.0, 0.0, 0.0;
    }

    /** `m_FSplitDepths = Split(0, 1, 0)`. */
    method BuildSplitDepths()
      modifies this`staticSplits, this`splitDepths
      ensures staticSplits == SplitAppend(old(staticSplits), 0.0, 1.0, 0) && splitDepths == staticSplits
    {
      var splits := Split(0.0, 1.0, 0);
      splitDepths := splits;
    }

    /** A start genome: ID `id`, the standard layout, no network; its links resolve when the layout is non-negative. */
    ghost predicate StartGenome(g: Genome, id: int, nI: int, nO: int)
      reads g`id, g`neurons, g`links, g`numInputs, g`numOutputs, g`phenotype
    {
      g.id == id && g.neurons == StandardNeurons(nI, nO) && g.numInputs == nI && g.numOutputs == nO && g.phenotype == null &&
      (0 <= nI && 0 <= nO ==> LinksResolve(g.neurons, g.links))
    }

    /** The links of a start genome whose weights were drawn from cursor `p` of `src`. */
    ghost predicate StartLinks(g: Genome, nI: int, nO: int, src: nat -> Draw, p: nat)
      reads g`links
    {
      g.links == StandardLinks(StandardNeurons(nI, nO), nI, nO, Count(nI + 1), src, p)
    }

    /**
     * Genome `j` of `made` is start genome `j`, with the start links drawn
     * from `StartCursor(p, counts, .., j)`.
     */
    ghost predicate StartedFrom(made: seq<Genome>, nI: int, nO: int, src: nat -> Draw, p: nat, counts: seq<nat>)
      reads made
      decreases |made|
    {
      made != [] ==>
        var j := |made| - 1;
        StartedFrom(made[..j], nI, nO, src, p, counts) &&
        StartGenome(made[j], j, nI, nO) && |made[j].links| == StartLinkCount(nI, nO) &&
        StartLinks(made[j], nI, nO, src, StartCursor(p, counts, StartLinkCount(nI, nO), j))
    }

    /** `StartedFrom`, genome by genome. */
    lemma {:induction false} StartedFromAt(made: seq<Genome>, nI: int, nO: int, src: nat -> Draw, p: nat, counts: seq<nat>)
      requires StartedFrom(made, nI, nO, src, p, counts)
      ensures forall j :: 0 <= j < |made| ==>
        StartGenome(made[j], j, nI, nO) && |made[j].links| == StartLinkCount(nI, nO) &&
        StartLinks(made[j], nI, nO, src, StartCursor(p, counts, StartLinkCount(nI, nO), j))
    {
      if made != [] {
        var j := |made| - 1;
        StartedFromAt(made[..j], nI, nO, src, p, counts);
        forall k | 0 <= k < j
          ensures made[k] == made[..j][k]
        {
        }
      }
    }

    /** `StartValid` for a list made only of start genomes, as `AddStartGenomes` leaves them. */
    lemma StartedValid(nI: int, nO: int, src: nat -> Draw, p: nat, counts: seq<nat>)
      requires 0 <= nI && 0 <= nO && 1 <= |genomes| && species == [] && known == ElementsOf(genomes)
      requires StartedFrom(genomes, nI, nO, src, p, counts)
      requires (forall k :: 0 <= k < |genomes[0].neurons| ==> genomes[0].neurons[k].id == k) ==> innovation.Valid()
      requires innovation.nextNeuronID == |genomes[0].neurons|
      ensures Valid()
    {
      StartedFromAt(genomes, nI, nO, src, p, counts);
      assert genomes[0..] == genomes;
      StartValid(nI, nO, 0, {});
    }

    /** A fresh population of start genomes with a ledger started from them is valid. */
    lemma StartValid(nI: int, nO: int, n0: nat, k0: set<Genome>)
      requires 0 <= nI && 0 <= nO && 1 <= |genomes| && species == [] && n0 == 0 && k0 == {} && n0 <= |genomes|
      requires known == k0 + ElementsOf(genomes[n0..])
      requires forall k :: n0 <= k < |genomes| ==> StartGenome(genomes[k], k - n0, nI, nO)
      requires (forall k :: 0 <= k < |genomes[0].neurons| ==> genomes[0].neurons[k].id == k) ==> innovation.Valid()
      requires innovation.nextNeuronID == |genomes[0].neurons|
      ensures Valid()
    {
      StandardNeuronsLayout(nI, nO);
      assert genomes[n0..] == genomes;
      assert StartGenome(genomes[0], 0, nI, nO);
      forall g | g in known
        ensures Sound(g, innovation.nextNeuronID)
      {
        var k :| 0 <= k < |genomes| && genomes[k] == g;
        assert StartGenome(genomes[k], k, nI, nO);
      }
    }

    /**
     * The start-genome loop of `Initialize`.  Turn `i` builds start genome
     * `i` at `StartCursor`, then runs `InitializeWeights` on the genome at
     * position `i` of the list, which is an old genome when the list was
     * not empty.
     */
    method AddStartGenomes(populationSize: int, nI: int, nO: int, rng: Rng)
      modifies this`genomes, this`nextGenomeID, this`known, rng`pos
      ensures nextGenomeID == Count(populationSize)
      ensures |genomes| == |old(genomes)| + Count(populationSize) && genomes[..|old(genomes)|] == old(genomes)
      ensures known == old(known) + ElementsOf(genomes[|old(genomes)|..])
      ensures forall k :: |old(genomes)| <= k < |genomes| ==> fresh(genomes[k])
      ensures StartedFrom(genomes[|old(genomes)|..], nI, nO, rng.source, old(rng.pos), old(LinkCounts(genomes)))
      ensures rng.pos == StartCursor(old(rng.pos), old(LinkCounts(genomes)), StartLinkCount(nI, nO), Count(populationSize))
    {
      ghost var counts := LinkCounts(genomes);
      var made := BuildStartGenomes(populationSize, nI, nO, rng, genomes);
      StartedFromAt(made, nI, nO, rng.source, old(rng.pos), counts);
      genomes := genomes + made;
      known := known + ElementsOf(made);
      nextGenomeID := |made|;
      assert genomes[|old(genomes)|..] == made;
    }

    /**
     * The start genomes of `Initialize`, made in order after the genomes
     * already `listed`.  Turn `i` builds start genome `i` at `StartCursor`,
     * then runs `InitializeWeights` on the genome at position `i` of the
     * list, which is an old genome while `i` is below their number.
     */
    method BuildStartGenomes(populationSize: int, nI: int, nO: int, rng: Rng, listed: seq<Genome>) returns (made: seq<Genome>)
      modifies rng`pos
      ensures |made| == Count(populationSize) && forall j :: 0 <= j < |made| ==> fresh(made[j])
      ensures StartedFrom(made, nI, nO, rng.source, old(rng.pos), LinkCounts(listed))
      ensures rng.pos == StartCursor(old(rng.pos), LinkCounts(listed), StartLinkCount(nI, nO), Count(populationSize))
    {
      ghost var counts, p0 := LinkCounts(listed), rng.pos;
      made := [];
      var i := 0;
      while i < populationSize
        invariant 0 <= i && i <= Count(populationSize) && |made| == i
        invariant forall j :: 0 <= j < |made| ==> fresh(made[j])
        invariant StartedFrom(made, nI, nO, rng.source, p0, counts)
        invariant rng.pos == StartCursor(p0, counts, StartLinkCount(nI, nO), i)
      {
        var g := NewStartTurn(i, nI, nO, rng, listed, made, p0, counts);
        made := made + [g];
        i := i + 1;
      }
    }

    /**
     * One turn of `BuildStartGenomes`: start genome `i`, then the weight
     * draws of the genome at position `i` of `listed + made + [g]`.
     */
    method NewStartTurn(i: int, nI: int, nO: int, rng: Rng, listed: seq<Genome>, made: seq<Genome>, ghost p0: nat, ghost counts: seq<nat>)
      returns (g: Genome)
      requires i == |made| && counts == LinkCounts(listed)
      requires StartedFrom(made, nI, nO, rng.source, p0, counts)
      requires rng.pos == StartCursor(p0, counts, StartLinkCount(nI, nO), i)
      modifies rng`pos
      ensures fresh(g) && StartedFrom(made + [g], nI, nO, rng.source, p0, counts)
      ensures rng.pos == StartCursor(p0, counts, StartLinkCount(nI, nO), i + 1)
    {
      g := NewStartGenome(i, nI, nO, rng);
      assert (made + [g])[..|made|] == made;
      var list := listed + made + [g];
      assert |list[i].links| == if i < |counts| then counts[i] else StartLinkCount(nI, nO) by {
        if i < |listed| {
          assert list[i] == listed[i];
        } else {
          StartedFromAt(made + [g], nI, nO, rng.source, p0, counts);
          assert list[i] == (made + [g])[i - |listed|];
        }
      }
      list[i].InitializeWeights(rng);
    }

    /** A new genome with the standard layout and ID `i`, its weights drawn at the cursor. */
    method NewStartGenome(i: int, nI: int, nO: int, rng: Rng) returns (g: Genome)
      modifies rng`pos
      ensures fresh(g) && StartGenome(g, i, nI, nO) && StartLinks(g, nI, nO, rng.source, old(rng.pos))
      ensures |g.links| == StartLinkCount(nI, nO) && rng.pos == old(rng.pos) + 2 * StartLinkCount(nI, nO)
    {
      g := new Genome();
      ghost var p := rng.pos;
      g.InitializeStandard(0, nI, nO, rng);
      assert g.neurons == StandardNeurons(nI, nO);
      if 0 <= nI && 0 <= nO {
        StandardLinksResolve(nI, nO, rng.source, p);
      }
      g.id := i;
    }

    /** The new ledger `Initialize` starts from the first genome of the list. */
    method StartLedger()
      requires 1 <= |genomes|
      modifies this`innovation
      ensures fresh(innovation)
      ensures innovation.State() == Ledger(StartRecords(genomes[0].neurons, genomes[0].links), |genomes[0].neurons|,
                                           |genomes[0].neurons| + |genomes[0].links|)
      ensures (forall k :: 0 <= k < |genomes[0].neurons| ==> genomes[0].neurons[k].id == k) ==> innovation.Valid()
    {
      var list := new InnovationList();
      list.Initialize(genomes[0].links, genomes[0].neurons);
      innovation := list;
    }

    /**
     * `Split`: appends the midpoint of the interval and, unless the depth is
     * past 6, the entries of both halves to the static table, and returns
     * the whole table.
     */
    method Split(low: real, high: real, depth: int) returns (splits: seq<SplitDepth>)
      modifies this`staticSplits
      ensures staticSplits == SplitAppend(old(staticSplits), low, high, depth)
      ensures splits == staticSplits
      decreases if depth > 6 then 0 else 7 - depth
    {
      var span := high - low;
      staticSplits := staticSplits + [SplitDepth(low + span / 2.0, depth + 1)];
      if depth > 6 {
        return staticSplits;
      }
      var _ := Split(low, low + span / 2.0, depth + 1);
      var _ := Split(low + span / 2.0, high, depth + 1);
      return staticSplits;
    }

    /**
     * `AddNeuronID`: reports whether the ID is already listed, and appends
     * it when it is not.
     */
    method AddNeuronID(neuronID: int, vNeurons: seq<int>) returns (found: bool, vNeurons': seq<int>)
      ensures found <==> neuronID in vNeurons
      ensures vNeurons' == AddID(neuronID, vNeurons)
    {
      var i := 0;
      while i < |vNeurons|
        invariant 0 <= i <= |vNeurons| && neuronID !in vNeurons[..i]
      {
        if vNeurons[i] == neuronID {
          return true, vNeurons;
        }
        assert vNeurons[..i + 1] == vNeurons[..i] + [vNeurons[i]];
        i := i + 1;
      }
      assert vNeurons[..i] == vNeurons;
      return false, vNeurons + [neuronID];
    }

    // -------------------------------------------------------------------
    // Crossover
    // -------------------------------------------------------------------

    /**
     * `Crossover`: a new genome with ID -1, the mother's numbers of inputs
     * and outputs, and the links and neurons `Mate` gives the two parents.
     */
    method Crossover(mother: Genome, father: Genome, rng: Rng) returns (baby: Genome)
      modifies rng`pos
      ensures fresh(baby)
      ensures var m := Mate(mother.fitness, father.fitness, mother.links, father.links, innovation.innovations, rng.source, old(rng.pos));
        baby.links == m.links && baby.neurons == m.neurons && rng.pos == m.pos
      ensures baby.id == -1 && baby.phenotype == null && baby.fitness == 0.0
      ensures baby.numInputs == mother.numInputs && baby.numOutputs == mother.numOutputs
    {
      var fatherLeads := ChooseLeader(mother, father, rng);
      var fitParentLinks := if fatherLeads then father.links else mother.links;
      var otherParentLinks := if fatherLeads then mother.links else father.links;
      var babyLinks, necessaryNeuronIDs := MergeLinks(fitParentLinks, otherParentLinks, rng);
      necessaryNeuronIDs := SortIDs(necessaryNeuronIDs);
      var babyNeurons := NeuronsFromIDs(necessaryNeuronIDs);
      baby := new Genome();
      baby.InitializeCustom(-1, babyNeurons, babyLinks, mother.numInputs, mother.numOutputs);
    }

    /**
     * The choice of the fitter parent in `Crossover`: whether the father
     * leads, as `ChooseFitter` describes; on a full tie the draw is made and
     * then overridden.
     */
    method ChooseLeader(mother: Genome, father: Genome, rng: Rng) returns (fatherLeads: bool)
      modifies rng`pos
      ensures var c := ChooseFitter(mother.fitness, father.fitness, |mother.links|, |father.links|, old(rng.pos));
        fatherLeads == c.fatherLeads && rng.pos == c.pos
    {
      var motherFitness, fatherFitness := mother.fitness, father.fitness;
      var motherSize, fatherSize := |mother.links|, |father.links|;
      if motherFitness == fatherFitness {
        if motherSize == fatherSize {
          var coin := rng.RandUnit();
          if coin < 0.5 {
            fatherLeads := false;
          }
          fatherLeads := true;
        } else if motherSize < fatherSize {
          fatherLeads := false;
        } else {
          fatherLeads := true;
        }
      } else if motherFitness < fatherFitness {
        fatherLeads := true;
      } else {
        fatherLeads := false;
      }
    }

    /**
     * The merge loop of `Crossover`: the offspring links and neuron IDs
     * `WalkFrom` gives.  The walk holds both positions, the selected gene,
     * the offspring links and the IDs gathered so far.
     */
    method MergeLinks(a: seq<LinkGene>, b: seq<LinkGene>, rng: Rng) returns (babyLinks: seq<LinkGene>, ids: seq<int>)
      modifies rng`pos
      ensures var w := WalkFrom(a, b, StartWalk(old(rng.pos)), rng.source);
        babyLinks == w.links && ids == w.ids && rng.pos == w.pos
    {
      ghost var goal := WalkFrom(a, b, StartWalk(rng.pos), rng.source);
      var w := StartWalk(rng.pos);
      while w.i < |a| || w.j < |b|
        invariant w.i <= |a| && w.j <= |b| && w.pos == rng.pos
        invariant WalkFrom(a, b, w, rng.source) == goal
        decreases |a| - w.i + |b| - w.j
      {
        w := MergeStep(a, b, w, rng);
      }
      babyLinks, ids := w.links, w.ids;
    }

    /**
     * One turn of the merge loop, as `Step` describes: a selection, then
     * both endpoints of the selected gene registered with `AddNeuronID`.
     */
    method MergeStep(a: seq<LinkGene>, b: seq<LinkGene>, w: Walk, rng: Rng) returns (r: Walk)
      requires w.i <= |a| && w.j <= |b| && !(w.i == |a| && w.j == |b|) && w.pos == rng.pos
      modifies rng`pos
      ensures r == Step(a, b, w, rng.source) && r.pos == rng.pos
    {
      var p := PickGene(a, b, w, rng);
      var _, ids1 := AddNeuronID(p.selected.from, p.ids);
      var _, ids2 := AddNeuronID(p.selected.to, ids1);
      r := p.(ids := ids2);
    }

    /** The selection of one turn, as `Pick` describes. */
    method PickGene(a: seq<LinkGene>, b: seq<LinkGene>, w: Walk, rng: Rng) returns (r: Walk)
      requires w.i <= |a| && w.j <= |b| && !(w.i == |a| && w.j == |b|) && w.pos == rng.pos
      modifies rng`pos
      ensures r == Pick(a, b, w, rng.source) && r.pos == rng.pos
    {
      if w.j == |b| {
        r := PushGene(w.(i := w.i + 1), a[w.i], rng);
      } else if w.i == |a| {
        r := w.(j := w.j + 1);
      } else if a[w.i].innovationID == b[w.j].innovationID {
        var u := rng.RandUnit();
        var selected := if u < 0.5 then a[w.i] else b[w.j];
        r := PushGene(w.(i := w.i + 1, j := w.j + 1, pos := rng.pos), selected, rng);
      } else if a[w.i].innovationID < b[w.j].innovationID {
        r := PushGene(w.(i := w.i + 1), a[w.i], rng);
      } else {
        r := w.(j := w.j + 1);
      }
    }

    /**
     * Pushing the selected gene, as `Push` describes: a disabled gene is
     * enabled when its draw is below 0.25, then appended.
     */
    method PushGene(w: Walk, g: LinkGene, rng: Rng) returns (r: Walk)
      requires w.pos == rng.pos
      modifies rng`pos
      ensures r == Push(w, g, rng.source) && r.pos == rng.pos
    {
      var selected := g;
      if !selected.enabled {
        var u := rng.RandUnit();
        if u < 0.25 {
          selected := selected.(enabled := true);
        }
      }
      r := w.(selected := selected, links := w.links + [selected], pos := rng.pos);
    }

    /** The neuron genes of the offspring: one per ID, recreated from the ledger, in order. */
    method NeuronsFromIDs(ids: seq<int>) returns (babyNeurons: seq<NeuronGene>)
      ensures babyNeurons == NeuronsFor(innovation.innovations, ids)
    {
      babyNeurons := [];
      var k := 0;
      while k < |ids|
        invariant k <= |ids| && |babyNeurons| == k
        invariant forall q :: 0 <= q < k ==> babyNeurons[q] == NeuronFromEntries(innovation.innovations, ids[q])
      {
        var gene := innovation.CreateNeuronFromID(ids[k]);
        babyNeurons := babyNeurons + [gene];
        k := k + 1;
      }
    }

    // -------------------------------------------------------------------
    // One child of a species
    // -------------------------------------------------------------------

    /**
     * What breeding from species `s` relies on: the ledger is valid, its
     * neuron counter has reached `b0`, every genome of `pop` is sound against
     * `b0`, and the species' leader and members are in `pop`.
     */
    ghost predicate BreedReady(s: Species, pop: set<Genome>, b0: int)
      reads this`innovation, innovation, s`leader, s`members, pop`neurons, pop`links
    {
      innovation.Valid() && b0 <= innovation.nextNeuronID && SetSound(pop, b0) && SpeciesDrawn(s, pop)
    }

    /**
     * The elite copy, the first child of every species: a new genome with
     * every field of the leader, its ID included, since only later children
     * are given a new ID.
     */
    method CloneLeader(s: Species) returns (child: Genome)
      requires s.leader != null
      ensures fresh(child) && CopyOf(child, s.leader)
    {
      child := new Genome.Copy(s.leader);
    }

    /**
     * What one later turn of the species loop yields for species `s`, whose
     * previous child is `prev`, before the child takes its genome ID.  A
     * one-member species gives a new unmutated copy of its member, with no
     * draw and the ledger unchanged.  Otherwise the child is the one
     * `ChildChoice` picks, with the genes `ChildGenes` gives, mutated as
     * `Mutated` describes and its links sorted; it is `prev` itself exactly
     * when the father search ended on the mother's ID.  The turn fails
     * exactly where the choice reads past the members or the mutation fails.
     */
    twostate predicate Bred(s: Species, prev: Genome, rng: Rng, new r: Result<Genome>)
      requires old(innovation.State()).Indexed()
      reads this`innovation, this`params, innovation, rng`pos, s`members, s.members`neurons, s.members`links
      reads if r.Success? then {r.value} else {}
    {
      if |s.members| == 1 then
        r.Success? && fresh(r.value) && r.value.neurons == s.members[0].neurons && r.value.links == s.members[0].links &&
        rng.pos == old(rng.pos) && innovation.State() == old(innovation.State())
      else
        var (c, q) := ChildChoice(old(Ids(s.members)), params.survivalRate, params.crossoverRate, params.crossoverTries, rng.source, old(rng.pos));
        (c.Unread? ==> r.Failure?) &&
        (!c.Unread? ==>
           var u := old(ChildGenes(c, q, s.members, prev, innovation.innovations, rng.source));
           LinksResolve(u.neurons, u.links) &&
           var m := Mutated(u.neurons, u.links, u.numInputs, old(innovation.State()), params, rng.source, u.pos);
           (r.Success? <==> m.Success?) &&
           (r.Success? ==>
              (r.value == prev <==> c.Stale?) && r.value.neurons == m.value.neurons &&
              SortedBy(r.value.links, InnovationKey) && multiset(r.value.links) == multiset(m.value.links) &&
              innovation.State() == m.value.ledger && rng.pos == m.value.pos))
    }

    /**
     * One turn of the reproduction loop after the elite copy.  A one-member
     * species gives an unmutated copy of its member.  Otherwise the child,
     * as `ChildChoice` picks it and `ChildGenes` describes it, is mutated as
     * `Mutated` describes and its links sorted; it is the previous child
     * `prev` itself exactly when the father search ended on the mother's ID.
     * `Bred` states this outcome.  Either way the child then gets the next
     * genome ID.
     */
    method BreedChild(s: Species, prev: Genome, rng: Rng, ghost pop: set<Genome>, ghost b0: int) returns (r: Result<Genome>)
      requires BreedReady(s, pop, b0) && prev !in pop && Sound(prev, innovation.nextNeuronID)
      modifies prev`neurons, prev`links, prev`id, this`nextGenomeID, innovation, rng`pos
      ensures Bred(s, prev, rng, r)
      ensures r.Success? ==> BreedReady(s, pop, b0) && Extends(innovation.State(), old(innovation.State()))
      ensures r.Success? ==>
        (fresh(r.value) || r.value == prev) && Sound(r.value, innovation.nextNeuronID) &&
        r.value.id == old(nextGenomeID) && nextGenomeID == old(nextGenomeID) + 1
      ensures r.Success? && r.value != prev ==> prev.neurons == old(prev.neurons) && prev.links == old(prev.links) && prev.id == old(prev.id)
    {
      var child: Genome;
      if |s.members| == 1 {
        child := CloneTop(s, rng, pop, b0);
      } else {
        var bred := BreedMany(s, prev, rng, pop, b0);
        if bred.Failure? {
          return Failure;
        }
        child := bred.value;
      }
      NameChild(child);
      r := Success(child);
    }

    /**
     * The turn of `BreedChild` for a species of other than one member, up
     * to the genome ID: the unmutated child as `ChildChoice` picks it and
     * `ChildGenes` describes it, mutated as `Mutated` describes.
     */
    method BreedMany(s: Species, prev: Genome, rng: Rng, ghost pop: set<Genome>, ghost b0: int) returns (r: Result<Genome>)
      requires BreedReady(s, pop, b0) && prev !in pop && Sound(prev, innovation.nextNeuronID) && |s.members| != 1
      modifies prev`neurons, prev`links, innovation, rng`pos
      ensures Bred(s, prev, rng, r)
      ensures r.Success? ==> BreedReady(s, pop, b0) && Extends(innovation.State(), old(innovation.State()))
      ensures r.Success? ==> (fresh(r.value) || r.value == prev) && Sound(r.value, innovation.nextNeuronID)
      ensures r.Success? && r.value != prev ==> prev.neurons == old(prev.neurons) && prev.links == old(prev.links)
    {
      ghost var cq := ChildChoice(Ids(s.members), params.survivalRate, params.crossoverRate, params.crossoverTries, rng.source, rng.pos);
      var picked := MateOrClone(s, prev, rng, pop, b0);
      if picked.Failure? {
        return Failure;
      }
      assert ChildGenes(cq.0, cq.1, s.members, prev, innovation.innovations, rng.source) ==
        old(ChildGenes(cq.0, cq.1, s.members, prev, innovation.innovations, rng.source));
      var ok := MutateSound(picked.value, rng, pop, b0);
      if !ok {
        return Failure;
      }
      r := picked;
    }

    /**
     * `Epoch`: one generation.  The species are reset and culled as
     * `ResetAndKill` describes; genome `k` gets score `k`; the genomes are
     * sorted and recorded; they are speciated and given spawn amounts; the
     * next generation is bred as `Breed` describes and replaces the
     * population; every genome of it gets its network depth and a new
     * network, returned in population order; the generation counter
     * advances.  `Failure` where the source has undefined behaviour: fewer
     * scores than genomes, an empty population, fewer genomes than best
     * organisms to record, a zero or undefined average adjusted fitness, or
     * a breeding turn that fails.  On success the population invariant
     * holds again, over a ledger that extends the old one.
     */
    method Epoch(scores: seq<real>, rng: Rng) returns (r: Result<seq<NeuralNet>>)
      requires Valid()
      modifies this, known, species, innovation, rng`pos
      ensures r.Success? ==> Valid() && Extends(innovation.State(), old(innovation.State()))
      ensures r.Success? ==> |genomes| == Count(params.populationSize) && generation == old(generation) + 1
      ensures r.Success? ==> forall k :: 0 <= k < |genomes| ==> genomes[k] in old(genomes) || fresh(genomes[k])
      ensures r.Success? ==> |r.value| == |genomes| && forall k :: 0 <= k < |genomes| ==> fresh(r.value[k]) && NetOf(r.value[k], genomes[k], splitDepths)
    {
      var ready := Evaluate(scores);
      if !ready {
        return Failure;
      }
      r := BreedAndInstall(rng);
    }

    /** The second half of `Epoch`: breeding, then the new population and its networks. */
    method BreedAndInstall(rng: Rng) returns (r: Result<seq<NeuralNet>>)
      requires Valid()
      modifies this`nextGenomeID, this`genomes, this`known, this`generation, innovation, rng`pos
      modifies known`depth, known`phenotype
      ensures r.Success? ==> Valid() && Extends(innovation.State(), old(innovation.State()))
      ensures r.Success? ==> |genomes| == Count(params.populationSize) && generation == old(generation) + 1
      ensures r.Success? ==> forall k :: 0 <= k < |genomes| ==> genomes[k] in old(genomes) || fresh(genomes[k])
      ensures r.Success? ==> |r.value| == |genomes| && forall k :: 0 <= k < |genomes| ==> fresh(r.value[k]) && NetOf(r.value[k], genomes[k], splitDepths)
    {
      var next := Breed(rng);
      if next.Failure? {
        return Failure;
      }
      var nets := Install(next.value);
      r := Success(nets);
    }

    /**
     * The first half of `Epoch`, up to the spawn amounts; false where it
     * has undefined behaviour.
     */
    method Evaluate(scores: seq<real>) returns (ok: bool)
      requires Valid()
      modifies this`params, this`species, this`nextSpeciesID, this`totalAdjustedFitness, this`averageAdjustedFitness
      modifies this`genomes, this`bestFitnessEver, this`bestGenomeEver, this`bestGenomes
      modifies species`members, species`age, species`gensNoImprovement, species`spawnAmount
      modifies species`bestFitness, species`leader
      modifies known`fitness, known`phenotype, known`species, known`spawnAmount, known`speciesFitness
      ensures ok ==> Valid() && multiset(genomes) == multiset(old(genomes))
      ensures ok ==> forall k :: 0 <= k < |genomes| ==> genomes[k] in old(genomes)
    {
      ok := ResetAndScore(scores);
      if !ok {
        return false;
      }
      ok := SortAndSpeciate();
      if ok {
        forall k | 0 <= k < |genomes|
          ensures genomes[k] in old(genomes)
        {
          assert genomes[k] in multiset(genomes);
        }
      }
    }

    /**
     * Sorts the population, records the best genomes, speciates it and
     * computes the spawn amounts; false where that has undefined behaviour.
     */
    method SortAndSpeciate() returns (ok: bool)
      requires Valid()
      modifies this`params, this`species, this`nextSpeciesID, this`totalAdjustedFitness, this`averageAdjustedFitness
      modifies this`genomes, this`bestFitnessEver, this`bestGenomeEver, this`bestGenomes
      modifies known`species, known`spawnAmount, known`speciesFitness
      modifies species`bestFitness, species`gensNoImprovement, species`leader, species`members, species`spawnAmount
      ensures ok ==> Valid() && multiset(genomes) == multiset(old(genomes))
    {
      if !(1 <= |genomes| && Count(params.numBestOrganisms) <= |genomes|) {
        return false;
      }
      SortValid();
      ok := SpeciateAndCalculateSpawnAmounts();
    }

    /** Clears the species and hands each genome its score; false on too few scores. */
    method ResetAndScore(scores: seq<real>) returns (ok: bool)
      requires Valid()
      modifies this`totalAdjustedFitness, this`averageAdjustedFitness, this`species
      modifies species`members, species`age, species`gensNoImprovement, species`spawnAmount
      modifies genomes`phenotype, genomes`fitness
      ensures Valid() && genomes == old(genomes)
      ensures forall i :: 0 <= i < |species| ==> species[i] in old(species)
      ensures totalAdjustedFitness == 0.0 && averageAdjustedFitness == 0.0
      ensures Culled(old(species), old(Ages(species)), old(Stagnation(species)))
      ensures forall g :: g in genomes ==> g.phenotype == null
      ensures ok <==> |genomes| <= |scores|
      ensures ok ==> forall k :: 0 <= k < |genomes| && (forall j :: k < j < |genomes| ==> genomes[j] != genomes[k]) ==>
        genomes[k].fitness == scores[k]
    {
      ResetValid();
      if |scores| < |genomes| {
        return false;
      }
      AssignFitness(scores);
      ok := true;
    }

    /**
     * The last part of `Epoch`: the bred genomes become the population,
     * each gets its network, and the generation counter advances.
     */
    method Install(next: seq<Genome>) returns (nets: seq<NeuralNet>)
      requires Valid() && AllSound(next, innovation.nextNeuronID)
      modifies this`genomes, this`known, this`generation, next`depth, next`phenotype
      ensures Valid() && genomes == next && generation == old(generation) + 1
      ensures |nets| == |genomes| && forall k :: 0 <= k < |genomes| ==> fresh(nets[k]) && NetOf(nets[k], genomes[k], splitDepths)
    {
      Replace(next);
      nets := MakePhenotypes();
      NextGeneration();
    }

    /** `ResetAndKill` keeps the population invariant: the species left are old ones, with their leaders and no members. */
    method ResetValid()
      requires Valid()
      modifies this`totalAdjustedFitness, this`averageAdjustedFitness, this`species
      modifies species`members, species`age, species`gensNoImprovement, species`spawnAmount, genomes`phenotype
      ensures Valid() && genomes == old(genomes)
      ensures forall i :: 0 <= i < |species| ==> species[i] in old(species)
      ensures totalAdjustedFitness == 0.0 && averageAdjustedFitness == 0.0
      ensures Culled(old(species), old(Ages(species)), old(Stagnation(species)))
      ensures forall g :: g in genomes ==> g.phenotype == null
    {
      ghost var s0 := species;
      ResetAndKill();
      EmptiedDrawn(s0, Dying(s0, params.numGensAllowedNoImprovement, bestFitnessEver), known);
    }

    /** `SortAndRecord` keeps the population invariant and the genomes as a multiset. */
    method SortValid()
      requires Valid() && 1 <= |genomes| && Count(params.numBestOrganisms) <= |genomes|
      modifies this`genomes, this`bestFitnessEver, this`bestGenomeEver, this`bestGenomes
      ensures Valid() && multiset(genomes) == multiset(old(genomes))
    {
      ghost var g0 := genomes;
      SortAndRecord();
      forall j | 0 <= j < |genomes|
        ensures genomes[j] in known
      {
        assert genomes[j] in multiset(g0);
      }
    }

    /** `m_Genomes = NextGeneration`: the bred genomes become the population, and known. */
    method Replace(next: seq<Genome>)
      requires Valid() && AllSound(next, innovation.nextNeuronID)
      modifies this`genomes, this`known
      ensures Valid() && genomes == next && known == old(known) + ElementsOf(next)
    {
      genomes := next;
      known := known + ElementsOf(next);
      forall g | g in known
        ensures Sound(g, innovation.nextNeuronID)
      {
        if g !in old(known) {
          var k :| 0 <= k < |next| && next[k] == g;
        }
      }
    }

    /** `++m_iGeneration`. */
    method NextGeneration()
      modifies this`generation
      ensures generation == old(generation) + 1
    {
      generation := generation + 1;
    }

    /**
     * The network of genome `g`: a valid net whose neurons are the ones
     * `CreatePhenotype` builds from the genes, at the depth
     * `CalculateNetDepth` gives over the split-depth table.
     */
    ghost predicate NetOf(net: NeuralNet, g: Genome, table: seq<SplitDepth>)
      reads net, g`neurons, g`links
    {
      LinksResolve(g.neurons, g.links) && net.Valid() && net.neurons == NetNeurons(g.neurons, g.links) && net.depth == NetMax(g.neurons, table, 0, 0) + 2
    }

    /** The last loop of `Epoch`: `CalculateNetDepth` and `CreatePhenotype` for every genome in turn. */
    method MakePhenotypes() returns (nets: seq<NeuralNet>)
      requires forall k :: 0 <= k < |genomes| ==> LinksResolve(genomes[k].neurons, genomes[k].links)
      modifies genomes`depth, genomes`phenotype
      ensures |nets| == |genomes|
      ensures forall k :: 0 <= k < |nets| ==> fresh(nets[k]) && NetOf(nets[k], genomes[k], splitDepths)
    {
      nets := [];
      var i := 0;
      while i < |genomes|
        invariant i <= |genomes| && |nets| == i
        invariant forall k :: 0 <= k < i ==> fresh(nets[k]) && NetOf(nets[k], genomes[k], splitDepths)
      {
        var net := MakePhenotype(genomes[i]);
        nets := nets + [net];
        i := i + 1;
      }
    }

    /** One genome's network: its depth from the table, then `CreatePhenotype`. */
    method MakePhenotype(g: Genome) returns (net: NeuralNet)
      requires LinksResolve(g.neurons, g.links)
      modifies g`depth, g`phenotype
      ensures fresh(net) && NetOf(net, g, splitDepths) && g.phenotype == net
    {
      g.CalculateNetDepth(splitDepths);
      net := g.CreatePhenotype();
    }

    /**
     * The breeding half of `Epoch`: the offspring of every species while
     * the next generation has room, then, for the places rounding left
     * open, winners of tournaments over the current population.  The next
     * generation has exactly the population size (none when that is not
     * positive); each of its genomes is a new one or one of the current
     * population, and each is sound against the extended ledger.  `Failure`
     * where a turn has undefined behaviour, or a tournament would have to
     * pick from an empty population.
     */
    method Breed(rng: Rng) returns (r: Result<seq<Genome>>)
      requires Valid()
      modifies this`nextGenomeID, innovation, rng`pos
      ensures r.Success? ==> |r.value| == Count(params.populationSize)
      ensures r.Success? ==> Valid() && Extends(innovation.State(), old(innovation.State()))
      ensures r.Success? ==> AllSound(r.value, innovation.nextNeuronID)
      ensures r.Success? ==>
        var q := Quotas(old(SpawnAmounts(species)), params.populationSize, 0);
        Before(q, |q|) <= |r.value| && ElitesBefore(r.value, q, old(LeadersOf(species)), |species|) &&
        (forall k :: 0 <= k < Before(q, |q|) ==> fresh(r.value[k])) &&
        forall k :: Before(q, |q|) <= k < |r.value| ==> r.value[k] in old(genomes)
    {
      ghost var q := Quotas(SpawnAmounts(species), params.populationSize, 0);
      ghost var leaders := LeadersOf(species);
      var spawned := SpawnAll(rng);
      if spawned.Failure? {
        return Failure;
      }
      r := Complete(spawned.value, rng, q, leaders);
      if r.Success? {
        forall k | 0 <= k < |spawned.value|
          ensures fresh(r.value[k])
        {
          assert r.value[k] == r.value[..|spawned.value|][k];
        }
      }
    }

    /**
     * `Backfill` after the species loop, stated only as far as `Breed` needs
     * it: the population invariant and the elite copies stay, the places
     * after the children are filled from the population.  It splits the
     * proof of `Breed` in two; it adds no behaviour.
     */
    method Complete(next: seq<Genome>, rng: Rng, ghost q: seq<nat>, ghost leaders: seq<Genome>) returns (r: Result<seq<Genome>>)
      requires Valid() && AllSound(genomes, innovation.nextNeuronID)
      requires |next| <= Count(params.populationSize) && AllSound(next, innovation.nextNeuronID)
      requires ElitesBefore(next, q, leaders, |leaders|)
      modifies rng`pos
      ensures r.Success? ==> Valid() && |r.value| == Count(params.populationSize) && AllSound(r.value, innovation.nextNeuronID)
      ensures r.Success? ==> |next| <= |r.value| && r.value[..|next|] == next && ElitesBefore(r.value, q, leaders, |leaders|)
      ensures r.Success? ==> forall k :: |next| <= k < |r.value| ==> r.value[k] in genomes
    {
      r := Backfill(next, rng);
      if r.Success? {
        ElitesPrefix(next, r.value, q, leaders, |leaders|);
      }
    }

    /** Under the population invariant every genome of the population is sound. */
    lemma PopulationSound()
      requires Valid()
      ensures AllSound(genomes, innovation.nextNeuronID)
    {
      forall k | 0 <= k < |genomes|
        ensures Sound(genomes[k], innovation.nextNeuronID)
      {
        assert genomes[k] in known;
      }
    }

    /** The species loop of `Breed`: each species in turn spawns while the next generation has room. */
    method SpawnAll(rng: Rng) returns (r: Result<seq<Genome>>)
      requires Valid()
      modifies this`nextGenomeID, innovation, rng`pos
      ensures r.Success? ==> |r.value| <= Count(params.populationSize)
      ensures r.Success? ==> Valid() && Extends(innovation.State(), old(innovation.State()))
      ensures r.Success? ==> AllSound(r.value, innovation.nextNeuronID) && forall k :: 0 <= k < |r.value| ==> fresh(r.value[k])
      ensures r.Success? ==> AllSound(genomes, innovation.nextNeuronID)
      ensures r.Success? ==>
        var q := Quotas(old(SpawnAmounts(species)), params.populationSize, 0);
        |r.value| == Before(q, |q|) &&
        ElitesBefore(r.value, q, old(LeadersOf(species)), |species|)
    {
      ghost var b0 := innovation.nextNeuronID;
      ghost var amounts := SpawnAmounts(species);
      ghost var q := Quotas(amounts, params.populationSize, 0);
      QuotasFit(amounts, params.populationSize, 0);
      QuotasMeaning(amounts, params.populationSize, q);
      r := SpawnLoop(rng, amounts, q, LeadersOf(species), b0);
      if r.Success? {
        SetSoundGrows(known, b0, innovation.nextNeuronID);
        PopulationSound();
      }
    }

    /**
     * The loop of `SpawnAll`, apart from the population invariant it keeps:
     * `SpawnInto` for every species while the next generation has room, and
     * no children for the species after it is full.
     */
    method SpawnLoop(rng: Rng, ghost amounts: seq<real>, ghost q: seq<nat>, ghost leaders: seq<Genome>, ghost b0: int) returns (r: Result<seq<Genome>>)
      requires DrawnFrom(species, known) && |leaders| == |species| && forall j :: 0 <= j < |species| ==> leaders[j] == species[j].leader
      requires |amounts| == |species| && forall j :: 0 <= j < |species| ==> amounts[j] == species[j].spawnAmount
      requires |q| == |species| && Before(q, |q|) <= Count(params.populationSize)
      requires forall j {:trigger QuotaAt(q, amounts, params.populationSize, j)} :: 0 <= j < |q| ==> QuotaAt(q, amounts, params.populationSize, j)
      requires innovation.Valid() && b0 <= innovation.nextNeuronID && SetSound(known, b0)
      modifies this`nextGenomeID, innovation, rng`pos
      ensures r.Success? ==> |r.value| == Before(q, |q|) && ElitesBefore(r.value, q, leaders, |species|)
      ensures r.Success? ==> innovation.Valid() && b0 <= innovation.nextNeuronID && SetSound(known, b0)
      ensures r.Success? ==> Extends(innovation.State(), old(innovation.State()))
      ensures r.Success? ==> AllSound(r.value, innovation.nextNeuronID) && forall k :: 0 <= k < |r.value| ==> fresh(r.value[k])
    {
      var next: seq<Genome> := [];
      var i := 0;
      while i < |species|
        invariant i <= |species| && |next| == Before(q, i)
        invariant innovation.Valid() && b0 <= innovation.nextNeuronID && SetSound(known, b0)
        invariant Extends(innovation.State(), old(innovation.State()))
        invariant AllSound(next, innovation.nextNeuronID) && forall k :: 0 <= k < |next| ==> fresh(next[k])
        invariant ElitesBefore(next, q, leaders, i)
      {
        if |next| < params.populationSize {
          ghost var l1 := innovation.State();
          assert QuotaAt(q, amounts, params.populationSize, i);
          var spawned := SpawnInto(i, next, rng, q, leaders, b0);
          if spawned.Failure? {
            return Failure;
          }
          ExtendsTrans(old(innovation.State()), l1, innovation.State());
          forall k | 0 <= k < |spawned.value|
            ensures fresh(spawned.value[k])
          {
            if k < |next| {
              assert spawned.value[k] == spawned.value[..|next|][k] == next[k];
            }
          }
          next := spawned.value;
        } else {
          assert QuotaAt(q, amounts, params.populationSize, i);
          ElitesSkip(next, q, i, leaders);
        }
        i := i + 1;
      }
      r := Success(next);
    }

    /**
     * Turn `i` of the species loop while the next generation has room:
     * species `i` spawns into the places left, as many children as `Quotas`
     * counts (`q[i]`), appended after those of the species before it.
     */
    method SpawnInto(i: nat, next: seq<Genome>, rng: Rng, ghost q: seq<nat>, ghost leaders: seq<Genome>, ghost b0: int) returns (r: Result<seq<Genome>>)
      requires i < |species| == |leaders| && leaders[i] == species[i].leader && |next| < params.populationSize && DrawnFrom(species, known)
      requires |q| == |species| && |next| == Before(q, i) && q[i] == Min(Count(Round(species[i].spawnAmount)), params.populationSize - |next|)
      requires innovation.Valid() && b0 <= innovation.nextNeuronID && SetSound(known, b0)
      requires AllSound(next, innovation.nextNeuronID)
      requires ElitesBefore(next, q, leaders, i)
      modifies this`nextGenomeID, innovation, rng`pos
      ensures r.Success? ==> |next| <= |r.value| == Before(q, i + 1) && r.value[..|next|] == next
      ensures r.Success? ==> forall k :: |next| <= k < |r.value| ==> fresh(r.value[k])
      ensures r.Success? ==> innovation.Valid() && b0 <= innovation.nextNeuronID && SetSound(known, b0)
      ensures r.Success? ==> Extends(innovation.State(), old(innovation.State())) && AllSound(r.value, innovation.nextNeuronID)
      ensures r.Success? ==> ElitesBefore(r.value, q, leaders, i + 1)
    {
      ghost var b1 := innovation.nextNeuronID;
      var spawned := SpawnSpecies(species[i], params.populationSize - |next|, rng, known, b0);
      if spawned.Failure? {
        return Failure;
      }
      AllSoundGrows(next, b1, innovation.nextNeuronID);
      AllSoundJoin(next, spawned.value, innovation.nextNeuronID);
      ElitesAppend(next, spawned.value, q, i, leaders);
      assert (next + spawned.value)[..|next|] == next;
      r := Success(next + spawned.value);
    }

    /**
     * The tournament backfill of `Breed`: winners of tournaments appended
     * until the next generation has the population size, the winner of each
     * place being the tournament `Winner` gives at its cursor; nothing drawn when no
     * place is left, and `Failure` only where a place is left and there is
     * no genome to hold a tournament over.
     */
    method Backfill(next: seq<Genome>, rng: Rng) returns (r: Result<seq<Genome>>)
      requires AllSound(genomes, innovation.nextNeuronID)
      requires |next| <= Count(params.populationSize) && AllSound(next, innovation.nextNeuronID)
      modifies rng`pos
      ensures r.Success? ==> |r.value| == Count(params.populationSize) && r.value[..|next|] == next
      ensures r.Success? ==> AllSound(r.value, innovation.nextNeuronID)
      ensures r.Success? ==> forall k :: |next| <= k < |r.value| ==> r.value[k] in genomes
      ensures r.Failure? <==> |next| < params.populationSize && genomes == []
      ensures |next| >= params.populationSize ==> r == Success(next) && rng.pos == old(rng.pos)
      ensures |next| < params.populationSize && 1 <= |genomes| ==>
        r.Success? && rng.pos == Slot(old(rng.pos), Count(params.numTriesForSelection), params.populationSize - |next|) &&
        forall k :: |next| <= k < |r.value| ==>
          r.value[k] == genomes[Winner(Fitnesses(genomes), params.numTriesForSelection, rng.source, Slot(old(rng.pos), Count(params.numTriesForSelection), k - |next|))]
    {
      r := Success(next);
      if |next| < params.populationSize {
        if |genomes| == 0 {
          return Failure;
        }
        r := FillByTournament(next, rng);
      }
    }

    /** The loop of `Backfill`: one tournament winner appended per place left. */
    method FillByTournament(next: seq<Genome>, rng: Rng) returns (r: Result<seq<Genome>>)
      requires 1 <= |genomes| && |next| < params.populationSize
      requires AllSound(genomes, innovation.nextNeuronID) && AllSound(next, innovation.nextNeuronID)
      modifies rng`pos
      ensures r.Success? && |r.value| == params.populationSize && r.value[..|next|] == next
      ensures AllSound(r.value, innovation.nextNeuronID) && forall k :: |next| <= k < |r.value| ==> r.value[k] in genomes
      ensures rng.pos == Slot(old(rng.pos), Count(params.numTriesForSelection), params.populationSize - |next|)
      ensures forall k :: |next| <= k < |r.value| ==>
        r.value[k] == genomes[Winner(Fitnesses(genomes), params.numTriesForSelection, rng.source, Slot(old(rng.pos), Count(params.numTriesForSelection), k - |next|))]
    {
      ghost var fs := Fitnesses(genomes);
      ghost var start := rng.pos;
      ghost var c := Count(params.numTriesForSelection);
      var childrenRequired := params.populationSize - |next|;
      var filled := next;
      while childrenRequired > 0
        invariant 0 <= childrenRequired && |filled| + childrenRequired == params.populationSize
        invariant |next| <= |filled| && filled[..|next|] == next
        invariant AllSound(filled, innovation.nextNeuronID)
        invariant rng.pos == Slot(start, c, |filled| - |next|)
        invariant forall k :: |next| <= k < |filled| ==>
          filled[k] in genomes && filled[k] == genomes[Winner(fs, params.numTriesForSelection, rng.source, Slot(start, c, k - |next|))]
      {
        TournamentWinner(fs, params.numTriesForSelection, rng.source, rng.pos);
        var g := TournamentSelection(params.numTriesForSelection, rng);
        AllSoundJoin(filled, [g], innovation.nextNeuronID);
        filled := filled + [g];
        childrenRequired := childrenRequired - 1;
      }
      r := Success(filled);
    }

    /**
     * The offspring of one species: the rounded spawn amount of children,
     * but no more than `room`, the places left in the next generation.  The
     * first is the elite copy of the leader, each later one a turn of
     * `BreedChild` given the child before it.  Every child is new and sound;
     * every child after the first has taken a genome ID.
     */
    method SpawnSpecies(s: Species, room: nat, rng: Rng, ghost pop: set<Genome>, ghost b0: int) returns (r: Result<seq<Genome>>)
      requires BreedReady(s, pop, b0) && 1 <= room
      modifies this`nextGenomeID, innovation, rng`pos
      ensures r.Success? ==> BreedReady(s, pop, b0) && Extends(innovation.State(), old(innovation.State()))
      ensures r.Success? ==> |r.value| == Min(Count(Round(s.spawnAmount)), room)
      ensures r.Success? ==> AllSound(r.value, innovation.nextNeuronID) && forall k :: 0 <= k < |r.value| ==> fresh(r.value[k])
      ensures r.Success? ==> nextGenomeID == old(nextGenomeID) + Count(|r.value| - 1)
      ensures r.Success? ==> EliteAt(r.value, 0, |r.value|, s.leader)
    {
      var numToSpawn := Round(s.spawnAmount);
      ghost var goal := Min(Count(numToSpawn), room);
      var chosenBestYet := false;
      var kids: seq<Genome> := [];
      while numToSpawn > 0
        invariant |kids| <= room && chosenBestYet == (|kids| > 0)
        invariant numToSpawn > 0 ==> |kids| + numToSpawn == Round(s.spawnAmount) && |kids| < room
        invariant numToSpawn <= 0 ==> |kids| == goal
        invariant BreedReady(s, pop, b0) && Extends(innovation.State(), old(innovation.State()))
        invariant AllSound(kids, innovation.nextNeuronID) && forall k :: 0 <= k < |kids| ==> fresh(kids[k])
        invariant nextGenomeID == old(nextGenomeID) + Count(|kids| - 1)
        invariant EliteAt(kids, 0, |kids|, s.leader)
        invariant AliasesFirst(kids)
        decreases numToSpawn
      {
        if !chosenBestYet {
          var child := CloneLeader(s);
          SoundGrows(s.leader, b0, innovation.nextNeuronID);
          chosenBestYet := true;
          kids := kids + [child];
        } else {
          var bred := SpawnTurn(s, kids, kids[|kids| - 1], rng, pop, b0);
          if bred.Failure? {
            return Failure;
          }
          kids := bred.value;
        }
        numToSpawn := numToSpawn - 1;
        if |kids| == room {
          numToSpawn := 0;
        }
      }
      r := Success(kids);
    }

    /**
     * `SpawnNext` with only what the loop of `SpawnSpecies` carries from
     * turn to turn; it adds no behaviour and keeps the outcome of the turn,
     * stated by `SpawnNext`, out of that loop's proof.
     */
    method SpawnTurn(s: Species, kids: seq<Genome>, prev: Genome, rng: Rng, ghost pop: set<Genome>, ghost b0: int)
      returns (r: Result<seq<Genome>>)
      requires BreedReady(s, pop, b0) && 1 <= |kids| && prev == kids[|kids| - 1] && prev !in pop
      requires AllSound(kids, innovation.nextNeuronID) && EliteAt(kids, 0, |kids|, s.leader) && AliasesFirst(kids)
      modifies prev`neurons, prev`links, prev`id, this`nextGenomeID, innovation, rng`pos
      ensures r.Success? ==> |r.value| == |kids| + 1 && r.value[..|kids|] == kids
      ensures r.Success? ==> fresh(r.value[|kids|]) || r.value[|kids|] == prev
      ensures r.Success? ==> BreedReady(s, pop, b0) && Extends(innovation.State(), old(innovation.State()))
      ensures r.Success? ==> AllSound(r.value, innovation.nextNeuronID) && nextGenomeID == old(nextGenomeID) + 1
      ensures r.Success? ==> EliteAt(r.value, 0, |r.value|, s.leader) && AliasesFirst(r.value)
    {
      r := SpawnNext(s, kids, prev, rng, pop, b0);
    }

    /**
     * A later turn of the species loop: the child `BreedChild` gives after
     * the last one, appended, with the outcome `Bred` states.  It is new or
     * the last child again; the children stay sound, and the first stays the
     * leader's copy unless the second is the first again.
     */
    method SpawnNext(s: Species, kids: seq<Genome>, prev: Genome, rng: Rng, ghost pop: set<Genome>, ghost b0: int)
      returns (r: Result<seq<Genome>>)
      requires BreedReady(s, pop, b0) && 1 <= |kids| && prev == kids[|kids| - 1] && prev !in pop
      requires AllSound(kids, innovation.nextNeuronID) && EliteAt(kids, 0, |kids|, s.leader) && AliasesFirst(kids)
      modifies prev`neurons, prev`links, prev`id, this`nextGenomeID, innovation, rng`pos
      ensures r.Success? ==> |r.value| == |kids| + 1 && r.value[..|kids|] == kids
      ensures r.Success? ==> Bred(s, prev, rng, Success(r.value[|kids|]))
      ensures r.Failure? ==> Bred(s, prev, rng, Failure)
      ensures r.Success? ==> fresh(r.value[|kids|]) || r.value[|kids|] == prev
      ensures r.Success? ==> BreedReady(s, pop, b0) && Extends(innovation.State(), old(innovation.State()))
      ensures r.Success? ==> AllSound(r.value, innovation.nextNeuronID) && nextGenomeID == old(nextGenomeID) + 1
      ensures r.Success? ==> EliteAt(r.value, 0, |r.value|, s.leader) && AliasesFirst(r.value)
    {
      var bred := BreedTurn(s, prev, rng, pop, b0, kids);
      if bred.Failure? {
        assert bred == Failure;
        return Failure;
      }
      var next := kids + [bred.value];
      assert next[..|kids|] == kids && Success(next[|kids|]) == bred;
      r := Success(next);
    }

    /**
     * `BreedChild` as the species loop calls it, given the children `kids`
     * so far, the last of which is `prev`: appending the child keeps them
     * all sound, the leader's copy first and the first child aliased only by
     * the second.
     */
    method BreedTurn(s: Species, prev: Genome, rng: Rng, ghost pop: set<Genome>, ghost b0: int, ghost kids: seq<Genome>)
      returns (r: Result<Genome>)
      requires BreedReady(s, pop, b0) && 1 <= |kids| && prev == kids[|kids| - 1] && prev !in pop
      requires AllSound(kids, innovation.nextNeuronID) && EliteAt(kids, 0, |kids|, s.leader) && AliasesFirst(kids)
      modifies prev`neurons, prev`links, prev`id, this`nextGenomeID, innovation, rng`pos
      ensures Bred(s, prev, rng, r)
      ensures r.Success? ==> BreedReady(s, pop, b0) && Extends(innovation.State(), old(innovation.State()))
      ensures r.Success? ==> (fresh(r.value) || r.value == prev) && nextGenomeID == old(nextGenomeID) + 1
      ensures r.Success? ==>
        AllSound(kids + [r.value], innovation.nextNeuronID) &&
        EliteAt(kids + [r.value], 0, |kids| + 1, s.leader) && AliasesFirst(kids + [r.value])
    {
      ghost var bound := innovation.nextNeuronID;
      ghost var leader := s.leader;
      assert leader in pop;
      r := BreedChild(s, prev, rng, pop, b0);
      if r.Success? {
        var next := kids + [r.value];
        assert next[0] == kids[0] && next[|kids|] == r.value;
        if !(2 <= |kids| && kids[1] == kids[0]) {
          if kids[0] == prev && r.value == prev {
            assert |kids| == 1;
          } else {
            assert old(CopyOf(kids[0], leader));
          }
        }
        forall k | 0 <= k < |next|
          ensures Sound(next[k], innovation.nextNeuronID)
        {
          if next[k] != r.value {
            assert old(Sound(kids[k], bound)) && next[k] == kids[k];
            SoundGrows(kids[k], bound, innovation.nextNeuronID);
          }
        }
      }
    }

    /** `SetID` with the next genome ID, which then advances. */
    method NameChild(child: Genome)
      modifies child`id, this`nextGenomeID
      ensures child.id == old(nextGenomeID) && nextGenomeID == old(nextGenomeID) + 1
    {
      child.id := nextGenomeID;
      nextGenomeID := nextGenomeID + 1;
    }

    /** The child of a one-member species: a copy of its only member, no draw made. */
    method CloneTop(s: Species, rng: Rng, ghost pop: set<Genome>, ghost b0: int) returns (child: Genome)
      requires BreedReady(s, pop, b0) && |s.members| == 1
      modifies rng`pos
      ensures fresh(child) && child.neurons == s.members[0].neurons && child.links == s.members[0].links
      ensures rng.pos == old(rng.pos) && Sound(child, innovation.nextNeuronID)
    {
      var top := s.GetTopGenome(params, rng);
      child := new Genome.Copy(top);
      assert top in pop;
      SoundGrows(top, b0, innovation.nextNeuronID);
    }

    /**
     * `MutateChild` on a sound child that is new or the previous child: it
     * stays sound, and the genomes of `pop` keep theirs.
     */
    method MutateSound(child: Genome, rng: Rng, ghost pop: set<Genome>, ghost b0: int) returns (ok: bool)
      requires innovation.Valid() && b0 <= innovation.nextNeuronID && SetSound(pop, b0)
      requires child !in pop && Sound(child, innovation.nextNeuronID)
      modifies child`neurons, child`links, innovation, rng`pos
      ensures var m := Mutated(old(child.neurons), old(child.links), child.numInputs, old(innovation.State()), params, rng.source, old(rng.pos));
        ok == m.Success? &&
        (ok ==> child.neurons == m.value.neurons && innovation.State() == m.value.ledger && rng.pos == m.value.pos &&
                SortedBy(child.links, InnovationKey) && multiset(child.links) == multiset(m.value.links))
      ensures ok ==> innovation.Valid() && b0 <= innovation.nextNeuronID && SetSound(pop, b0)
      ensures ok ==> Extends(innovation.State(), old(innovation.State())) && Sound(child, innovation.nextNeuronID)
    {
      ghost var m := Mutated(child.neurons, child.links, child.numInputs, innovation.State(), params, rng.source, rng.pos);
      MutatedSound(child.neurons, child.links, child.numInputs, innovation.State(), params, rng.source, rng.pos);
      ok := MutateChild(child, rng);
      if ok {
        PermutedLinksResolve(child.neurons, m.value.links, child.links);
      }
    }

    /**
     * The child of a species of other than one member before mutation, as
     * `ChildChoice` picks it and `ChildGenes` describes it: the mother is a
     * copy of a top genome; when the crossover draw is below the crossover
     * rate, the offspring of the mother and a father with a different ID,
     * or, when no such father turns up, the previous child `prev` again;
     * otherwise the mother.  `Failure` where a top genome would be read past
     * the end of the members, which valid parameters rule out.
     */
    method MateOrClone(s: Species, prev: Genome, rng: Rng, ghost pop: set<Genome>, ghost b0: int) returns (r: Result<Genome>)
      requires BreedReady(s, pop, b0)
      modifies rng`pos
      ensures var (c, q) := ChildChoice(Ids(s.members), params.survivalRate, params.crossoverRate, params.crossoverTries, rng.source, old(rng.pos));
        (r.Success? <==> !c.Unread?) && (c.Stale? <==> r.Success? && r.value == prev) &&
        (!c.Unread? ==>
           var u := ChildGenes(c, q, s.members, prev, innovation.innovations, rng.source);
           r.value.neurons == u.neurons && r.value.links == u.links && r.value.numInputs == u.numInputs && rng.pos == u.pos)
      ensures r.Success? && r.value != prev ==> fresh(r.value) && Sound(r.value, innovation.nextNeuronID)
      ensures params.Ok() && 1 <= |s.members| ==> r.Success?
    {
      ghost var ids := Ids(s.members);
      ghost var m := TopDraw(|s.members|, params.survivalRate, rng.source, rng.pos).0;
      var mother := CopyTop(s, rng, pop, b0);
      if mother.Failure? {
        return Failure;
      }
      var u := rng.RandUnit();
      if u < params.crossoverRate {
        if params.Ok() && 1 <= |s.members| {
          FatherFound(ids, params, ids[m], params.crossoverTries, rng.source, rng.pos);
        }
        r := CrossOrStale(s, prev, mother.value, m, rng, pop, b0);
      } else {
        r := Success(mother.value);
      }
    }

    /**
     * The crossover branch of `MateOrClone`, given the mother, a copy of
     * member `m`: the father search as `FatherSearch` describes; with a
     * father of another ID the offspring `Mate` gives the two, with the
     * mother's ID the previous child `prev`.
     */
    method CrossOrStale(s: Species, prev: Genome, mother: Genome, ghost m: nat, rng: Rng, ghost pop: set<Genome>, ghost b0: int)
      returns (r: Result<Genome>)
      requires BreedReady(s, pop, b0) && m < |s.members| && CopyOf(mother, s.members[m])
      requires Sound(mother, innovation.nextNeuronID)
      modifies rng`pos
      ensures var (f, q) := FatherSearch(Ids(s.members), params.survivalRate, mother.id, params.crossoverTries, rng.source, old(rng.pos));
        (r.Success? <==> 0 <= f) &&
        (0 <= f && s.members[f].id == mother.id ==> r == Success(prev) && rng.pos == q) &&
        (0 <= f && s.members[f].id != mother.id ==>
           r.Success? && fresh(r.value) && Sound(r.value, innovation.nextNeuronID) &&
           var u := ChildGenes(Cross(m, f), q, s.members, prev, innovation.innovations, rng.source);
           r.value.neurons == u.neurons && r.value.links == u.links && r.value.numInputs == u.numInputs && rng.pos == u.pos)
    {
      var father := FindFather(s, mother, rng, pop, b0);
      if father.Failure? {
        return Failure;
      }
      if mother.id != father.value.id {
        ghost var p := rng.pos;
        var baby := Crossover(mother, father.value, rng);
        MateSound(innovation.State(), mother.fitness, father.value.fitness, mother.neurons, mother.links,
                  father.value.neurons, father.value.links, rng.source, p);
        return Success(baby);
      }
      return Success(prev);
    }

    /**
     * A copy of the top genome `GetTopGenome` picks, as `TopDraw` describes,
     * or `Failure` where the source reads past the members.  Under valid
     * parameters a non-empty species always gives one.
     */
    method CopyTop(s: Species, rng: Rng, ghost pop: set<Genome>, ghost b0: int) returns (r: Result<Genome>)
      requires BreedReady(s, pop, b0)
      modifies rng`pos
      ensures var (k, q) := TopDraw(|s.members|, params.survivalRate, rng.source, old(rng.pos));
        rng.pos == q && (r.Success? <==> 0 <= k < |s.members|) &&
        (r.Success? ==> fresh(r.value) && CopyOf(r.value, s.members[k]) && Sound(r.value, innovation.nextNeuronID))
      ensures params.Ok() && 1 <= |s.members| ==> r.Success?
    {
      if params.Ok() && 1 <= |s.members| {
        TopGenomeFound(|s.members|, params, rng.source, rng.pos);
      }
      var top := s.GetTopGenome(params, rng);
      if top == null {
        return Failure;
      }
      assert top in pop;
      SoundGrows(top, b0, innovation.nextNeuronID);
      var copy := new Genome.Copy(top);
      return Success(copy);
    }

    /**
     * The search for a father: a copy of a top genome, drawn again while it
     * has the mother's ID and crossover tries remain, as `FatherSearch`
     * describes.  Under valid parameters a non-empty species always gives one.
     */
    method FindFather(s: Species, mother: Genome, rng: Rng, ghost pop: set<Genome>, ghost b0: int) returns (r: Result<Genome>)
      requires BreedReady(s, pop, b0)
      modifies rng`pos
      ensures var (k, q) := FatherSearch(Ids(s.members), params.survivalRate, mother.id, params.crossoverTries, rng.source, old(rng.pos));
        rng.pos == q && (r.Success? <==> 0 <= k) &&
        (r.Success? ==> fresh(r.value) && CopyOf(r.value, s.members[k]) && Sound(r.value, innovation.nextNeuronID))
      ensures params.Ok() && 1 <= |s.members| ==> r.Success?
    {
      ghost var ids := Ids(s.members);
      ghost var goal := FatherSearch(ids, params.survivalRate, mother.id, params.crossoverTries, rng.source, rng.pos);
      if params.Ok() && 1 <= |s.members| {
        FatherFound(ids, params, mother.id, params.crossoverTries, rng.source, rng.pos);
      }
      ghost var k := TopDraw(|s.members|, params.survivalRate, rng.source, rng.pos).0;
      var father := CopyTop(s, rng, pop, b0);
      var numAttempts := params.crossoverTries;
      while father.Success? && mother.id == father.value.id && numAttempts > 0
        invariant father.Success? ==>
          fresh(father.value) && Sound(father.value, innovation.nextNeuronID) &&
          0 <= k < |s.members| && CopyOf(father.value, s.members[k])
        invariant goal == if father.Failure? then (-1, rng.pos)
          else if ids[k] == mother.id && numAttempts > 0
          then FatherSearch(ids, params.survivalRate, mother.id, numAttempts - 1, rng.source, rng.pos)
          else (k, rng.pos)
        decreases numAttempts
      {
        k := TopDraw(|s.members|, params.survivalRate, rng.source, rng.pos).0;
        father := CopyTop(s, rng, pop, b0);
        numAttempts := numAttempts - 1;
      }
      assert Ids(s.members) == ids;
      r := father;
    }

    // -------------------------------------------------------------------
    // Mutating a bred child
    // -------------------------------------------------------------------

    /**
     * The mutations of a bred child in `Epoch`, as `Mutated` describes, then
     * the sort of its links by innovation number.  `false` where the source
     * would index an empty list; the child is then left as far as it got.
     */
    method MutateChild(child: Genome, rng: Rng) returns (ok: bool)
      requires LinksResolve(child.neurons, child.links) && innovation.Valid()
      modifies child`neurons, child`links, innovation, rng`pos
      ensures var m := Mutated(old(child.neurons), old(child.links), child.numInputs, old(innovation.State()), params, rng.source, old(rng.pos));
        ok == m.Success? &&
        (ok ==> child.neurons == m.value.neurons && innovation.State() == m.value.ledger && rng.pos == m.value.pos &&
                SortedBy(child.links, InnovationKey) && multiset(child.links) == multiset(m.value.links))
    {
      ok := GrowChild(child, rng);
      if !ok {
        return;
      }
      ok := TuneChild(child, rng);
      if !ok {
        return;
      }
      child.SortGenes();
    }

    /** `MutateAddNode` while the child has fewer neurons than permitted, then `MutateAddLink`, as `Grow` describes. */
    method GrowChild(child: Genome, rng: Rng) returns (ok: bool)
      requires LinksResolve(child.neurons, child.links) && innovation.Valid()
      modifies child`neurons, child`links, innovation, rng`pos
      ensures var g := Grow(old(child.neurons), old(child.links), child.numInputs, old(innovation.State()), params, rng.source, old(rng.pos));
        ok == g.Success? &&
        (ok ==> Grown(child.neurons, child.links, innovation.State(), rng.pos) == g.value)
    {
      if |child.neurons| < params.maxPermittedNeurons {
        if !(UnitOf(rng.source(rng.pos)) > params.chanceAddNode || params.numTriesAddNode <= 0 || 1 <= |child.links|) {
          return false;
        }
        child.MutateAddNode(innovation, params.chanceAddNode, params.numTriesAddNode, rng);
      }
      if !(UnitOf(rng.source(rng.pos)) > params.chanceAddLink || params.numTriesAddLink <= 0 ||
           (0 <= child.numInputs && child.numInputs + 2 <= |child.neurons|)) {
        return false;
      }
      child.MutateAddLink(innovation, params.chanceAddLink, params.numTriesAddLink, rng);
      ok := true;
    }

    /** `MutateWeights`, `ToggleLinkGenes` and `ReenableLinkGenes`, as `Tune` describes. */
    method TuneChild(child: Genome, rng: Rng) returns (ok: bool)
      modifies child`links, rng`pos
      ensures var t := Tune(old(child.links), params, rng.source, old(rng.pos));
        ok == t.Success? && (ok ==> child.links == t.value.0 && rng.pos == t.value.1)
    {
      child.MutateWeights(params.maxWeightMutationPower, params.weightMutationRate, params.newWeightChance, rng);
      if !ToggleDefined(child.links, params.toggleLinkRate, params.numTriesToggle, rng.source, rng.pos) {
        return false;
      }
      child.ToggleLinkGenes(params.toggleLinkRate, params.numTriesToggle, rng);
      child.ReenableLinkGenes(params.enableLinkRate, rng);
      ok := true;
    }

    /**
     * `TournamentSelection`: the genome the tournament over the current
     * fitness scores picks, starting from index 0 and best fitness 0.
     */
    method TournamentSelection(numTries: int, rng: Rng) returns (g: Genome)
      requires 1 <= |genomes|
      modifies rng`pos
      ensures var t := TournamentFrom(Fitnesses(genomes), numTries, Tournament(0, 0.0, old(rng.pos)), rng.source);
        0 <= t.chosen < |genomes| && g == genomes[t.chosen] && rng.pos == t.pos
    {
      ghost var fs := Fitnesses(genomes);
      ghost var goal := TournamentFrom(fs, numTries, Tournament(0, 0.0, rng.pos), rng.source);
      TournamentMeaning(fs, numTries, Tournament(0, 0.0, rng.pos), rng.source);
      var bestFitnessSoFar := 0.0;
      var chosenGenomeID := 0;
      var i := 0;
      while i < numTries
        invariant 0 <= i && (0 <= numTries ==> i <= numTries)
        invariant 0 <= chosenGenomeID < |genomes|
        invariant goal == TournamentFrom(fs, numTries - i, Tournament(chosenGenomeID, bestFitnessSoFar, rng.pos), rng.source)
      {
        var thisTry := rng.RandInt(0, |genomes| - 1);
        if genomes[thisTry].fitness > bestFitnessSoFar {
          chosenGenomeID := thisTry;
          bestFitnessSoFar := genomes[thisTry].fitness;
        }
        i := i + 1;
      }
      g := genomes[chosenGenomeID];
    }

    /**
     * `AdjustCompatibilityThreshold`: the threshold in the parameters
     * becomes the adjusted one; nothing else changes.
     */
    method AdjustCompatibilityThreshold()
      modifies this`params
      ensures params == old(params).(compatibilityThreshold :=
        AdjustedThreshold(old(params.compatibilityThreshold), |species|, params.speciesTarget, generation))
    {
      if params.speciesTarget < 1 {
        return;
      }
      var thresholdModifier := 0.1;
      if generation > 1 {
        var t := params.compatibilityThreshold;
        if |species| > params.speciesTarget {
          t := t + t * thresholdModifier;
        } else if |species| < params.speciesTarget {
          t := t - t * thresholdModifier;
        }
        if t < t * thresholdModifier {
          t := t * thresholdModifier;
        }
        params := params.(compatibilityThreshold := t);
      }
    }

    /**
     * `SortAndRecord`: the genomes fittest first; the best fitness ever
     * rises to the leader's when it is at least as high, with a copy of the
     * leader kept as the best genome ever; the best genomes are recorded.
     */
    method SortAndRecord()
      requires 1 <= |genomes| && Count(params.numBestOrganisms) <= |genomes|
      modifies this`genomes, this`bestFitnessEver, this`bestGenomeEver, this`bestGenomes
      ensures |genomes| == |old(genomes)| && multiset(genomes) == multiset(old(genomes)) && FittestFirst(genomes)
      ensures bestFitnessEver == if genomes[0].fitness >= old(bestFitnessEver) then genomes[0].fitness else old(bestFitnessEver)
      ensures old(bestFitnessEver) <= bestFitnessEver
      ensures forall k :: 0 <= k < |genomes| ==> genomes[k].fitness <= bestFitnessEver
      ensures genomes[0].fitness >= old(bestFitnessEver) ==>
        bestGenomeEver != null && fresh(bestGenomeEver) &&
        bestGenomeEver.neurons == genomes[0].neurons && bestGenomeEver.links == genomes[0].links &&
        bestGenomeEver.fitness == genomes[0].fitness && bestGenomeEver.id == genomes[0].id
      ensures genomes[0].fitness < old(bestFitnessEver) ==> bestGenomeEver == old(bestGenomeEver)
      ensures bestGenomes == genomes[..Count(params.numBestOrganisms)]
    {
      genomes := SortByFitness(genomes);
      assert |genomes| == |multiset(genomes)| == |multiset(old(genomes))|;
      if genomes[0].fitness >= bestFitnessEver {
        bestFitnessEver := genomes[0].fitness;
        bestGenomeEver := new Genome.Copy(genomes[0]);
      }
      StoreBestGenomes();
    }

    /** `StoreBestGenomes`: the first `numBestOrganisms` genomes, in order. */
    method StoreBestGenomes()
      requires Count(params.numBestOrganisms) <= |genomes|
      modifies this`bestGenomes
      ensures bestGenomes == genomes[..Count(params.numBestOrganisms)]
    {
      bestGenomes := [];
      var i := 0;
      while i < params.numBestOrganisms
        invariant 0 <= i <= Count(params.numBestOrganisms) && bestGenomes == genomes[..i]
      {
        bestGenomes := bestGenomes + [genomes[i]];
        i := i + 1;
      }
    }

    // -------------------------------------------------------------------
    // Resetting and culling
    // -------------------------------------------------------------------

    /**
     * `ResetAndKill`: the adjusted-fitness totals return to zero; every
     * species is purged; those then stagnant for longer than allowed and
     * below the best fitness ever are removed, the others keep their order;
     * every genome loses its network.
     */
    method ResetAndKill()
      requires DistinctSpecies(species)
      modifies this`totalAdjustedFitness, this`averageAdjustedFitness, this`species
      modifies species`members, species`age, species`gensNoImprovement, species`spawnAmount, genomes`phenotype
      ensures totalAdjustedFitness == 0.0 && averageAdjustedFitness == 0.0
      ensures Culled(old(species), old(Ages(species)), old(Stagnation(species)))
      ensures forall g :: g in genomes ==> g.phenotype == null
    {
      ghost var s0, ages0, gens0 := species, Ages(species), Stagnation(species);
      ResetTotals();
      CullAndClear(s0, ages0, gens0);
    }

    /** The purge and removal of species, then the deletion of every network. */
    method CullAndClear(ghost s0: seq<Species>, ghost ages0: seq<int>, ghost gens0: seq<int>)
      requires DistinctSpecies(species) && s0 == species && ages0 == Ages(species) && gens0 == Stagnation(species)
      modifies this`species, species`members, species`age, species`gensNoImprovement, species`spawnAmount
      modifies genomes`phenotype
      ensures Culled(s0, ages0, gens0)
      ensures forall g :: g in genomes ==> g.phenotype == null
    {
      CullSpecies(s0, ages0, gens0);
      ClearPhenotypes(s0, ages0, gens0);
    }

    /** The adjusted-fitness totals return to zero. */
    method ResetTotals()
      modifies this`totalAdjustedFitness, this`averageAdjustedFitness
      ensures totalAdjustedFitness == 0.0 && averageAdjustedFitness == 0.0
    {
      totalAdjustedFitness := 0.0;
      averageAdjustedFitness := 0.0;
    }

    /**
     * The species list after culling `s0`, whose ages and stagnation counts
     * were `ages0` and `gens0`: every species of `s0` is purged, the doomed
     * ones are gone, the rest keep their order and appear once.
     */
    ghost predicate Culled(s0: seq<Species>, ages0: seq<int>, gens0: seq<int>)
      reads this`species, this`params, this`bestFitnessEver
      reads s0`members, s0`age, s0`gensNoImprovement, s0`spawnAmount, s0`bestFitness
    {
      Purged(s0, |s0|, ages0, gens0) &&
      species == Without(s0, Dying(s0, params.numGensAllowedNoImprovement, bestFitnessEver)) &&
      DistinctSpecies(species)
    }

    /** Deleting the networks leaves the culled species as they were. */
    method ClearPhenotypes(ghost s0: seq<Species>, ghost ages0: seq<int>, ghost gens0: seq<int>)
      modifies genomes`phenotype
      ensures Culled(s0, ages0, gens0) == old(Culled(s0, ages0, gens0))
      ensures forall g :: g in genomes ==> g.phenotype == null
    {
      DeletePhenotypes();
    }

    /** Every species is purged; those past their allowance are then removed. */
    method CullSpecies(ghost s0: seq<Species>, ghost ages0: seq<int>, ghost gens0: seq<int>)
      requires DistinctSpecies(species) && s0 == species && ages0 == Ages(species) && gens0 == Stagnation(species)
      modifies this`species, species`members, species`age, species`gensNoImprovement, species`spawnAmount
      ensures Culled(s0, ages0, gens0)
    {
      var toDelete := PurgeSpecies(s0, ages0, gens0);
      RemoveDoomed(toDelete, s0, ages0, gens0);
    }

    /** The removal of the doomed species completes the cull. */
    method RemoveDoomed(toDelete: seq<Species>, ghost s0: seq<Species>, ghost ages0: seq<int>, ghost gens0: seq<int>)
      requires DistinctSpecies(species) && species == s0 && Purged(s0, |s0|, ages0, gens0)
      requires toDelete == Dying(s0, params.numGensAllowedNoImprovement, bestFitnessEver)
      modifies this`species
      ensures Culled(s0, ages0, gens0)
    {
      RemoveSpecies(toDelete);
      WithoutKeepsDistinct(s0, toDelete);
    }

    /** The removal loop of `ResetAndKill`: each listed species is removed wherever it occurs. */
    method RemoveSpecies(toDelete: seq<Species>)
      modifies this`species
      ensures species == Without(old(species), toDelete)
    {
      WithoutNothing(species);
      var k := 0;
      while k < |toDelete|
        invariant 0 <= k <= |toDelete| && species == Without(old(species), toDelete[..k])
      {
        WithoutOneMore(old(species), toDelete[..k], toDelete[k]);
        assert toDelete[..k + 1] == toDelete[..k] + [toDelete[k]];
        species := Without(species, [toDelete[k]]);
        k := k + 1;
      }
      assert toDelete[..k] == toDelete;
    }

    /** The purge loop of `ResetAndKill`: every species is purged and the doomed ones are listed in order. */
    method PurgeSpecies(ghost s0: seq<Species>, ghost ages0: seq<int>, ghost gens0: seq<int>) returns (toDelete: seq<Species>)
      requires DistinctSpecies(species) && s0 == species && ages0 == Ages(species) && gens0 == Stagnation(species)
      modifies species`members, species`age, species`gensNoImprovement, species`spawnAmount
      ensures Purged(s0, |s0|, ages0, gens0)
      ensures toDelete == Dying(s0, params.numGensAllowedNoImprovement, bestFitnessEver)
    {
      NothingPurged(species);
      toDelete := [];
      var i := 0;
      while i < |species|
        invariant 0 <= i <= |species|
        invariant Purged(species, i, ages0, gens0)
        invariant toDelete == Dying(species[..i], params.numGensAllowedNoImprovement, bestFitnessEver)
      {
        toDelete := PurgeAt(i, species[i], toDelete, ages0, gens0);
        i := i + 1;
      }
      assert species[..i] == species;
    }

    /** One turn of the purge loop: species `i` is purged and listed when doomed. */
    method PurgeAt(i: nat, s: Species, toDelete: seq<Species>, ghost ages0: seq<int>, ghost gens0: seq<int>)
      returns (toDelete': seq<Species>)
      requires i < |species| && s == species[i] && DistinctSpecies(species)
      requires Purged(species, i, ages0, gens0)
      requires toDelete == Dying(species[..i], params.numGensAllowedNoImprovement, bestFitnessEver)
      modifies s`members, s`age, s`gensNoImprovement, s`spawnAmount
      ensures Purged(species, i + 1, ages0, gens0)
      ensures toDelete' == Dying(species[..i + 1], params.numGensAllowedNoImprovement, bestFitnessEver)
    {
      assert s !in species[..i];
      s.Purge();
      var bestFitness := s.bestFitness;
      var genNoImprov := s.gensNoImprovement;
      toDelete' := toDelete;
      if genNoImprov > params.numGensAllowedNoImprovement && bestFitness < bestFitnessEver {
        toDelete' := toDelete + [s];
      }
      assert species[..i + 1][..i] == species[..i];
    }

    /** The last loop of `ResetAndKill`: no genome keeps a network. */
    method DeletePhenotypes()
      modifies genomes`phenotype
      ensures forall g :: g in genomes ==> g.phenotype == null
    {
      var i := 0;
      while i < |genomes|
        invariant 0 <= i <= |genomes| && forall k :: 0 <= k < i ==> genomes[k].phenotype == null
      {
        genomes[i].DeletePhenotype();
        i := i + 1;
      }
    }

    /**
     * The fitness loop of `Epoch`: genome `k` gets score `k`; a genome
     * listed twice keeps the score of its last position.
     */
    method AssignFitness(scores: seq<real>)
      requires |genomes| <= |scores|
      modifies genomes`fitness
      ensures forall k :: 0 <= k < |genomes| && (forall j :: k < j < |genomes| ==> genomes[j] != genomes[k]) ==>
        genomes[k].fitness == scores[k]
    {
      var i := 0;
      while i < |genomes|
        invariant 0 <= i <= |genomes|
        invariant forall k :: 0 <= k < i && (forall j :: k < j < i ==> genomes[j] != genomes[k]) ==>
          genomes[k].fitness == scores[k]
      {
        genomes[i].fitness := scores[i];
        i := i + 1;
      }
    }

    // -------------------------------------------------------------------
    // Speciation and spawn amounts
    // -------------------------------------------------------------------

    /**
     * The inner loop of the speciation: the position of the first species
     * whose leader the genome is compatible with, or -1.
     */
    method FindSpecies(genome: Genome, ghost leaders: seq<seq<LinkGene>>) returns (k: int)
      requires forall i :: 0 <= i < |species| ==> species[i].leader != null
      requires leaders == LeaderLinks(species)
      ensures k == FirstFit(genome.links, leaders, CoefficientsOf(params), params.compatibilityThreshold)
    {
      var c := CoefficientsOf(params);
      k := 0;
      while k < |species|
        invariant 0 <= k <= |species|
        invariant FirstFit(genome.links, leaders, c, params.compatibilityThreshold) ==
          FirstFitFrom(genome.links, leaders, c, params.compatibilityThreshold, k)
      {
        var speciesLeader := species[k].leader;
        var compatibility := genome.GetCompatibilityScore(speciesLeader, c);
        if compatibility.Finite? && compatibility.value <= params.compatibilityThreshold {
          return;
        }
        k := k + 1;
      }
      k := -1;
    }

    /**
     * One genome of the speciation loop takes its seat: with `k` a species
     * position it joins that species, with `k` = -1 it founds a new species
     * under the next species ID; either way it carries the ID of the species
     * it joined.
     */
    method Settle(k: int, genome: Genome, ghost allowed: set<Genome>) returns (ghost added: seq<Species>)
      requires -1 <= k < |species|
      requires DrawnFrom(species, allowed) && genome in allowed && DistinctSpecies(species)
      modifies this`species, this`nextSpeciesID, genome`species
      modifies species`bestFitness, species`gensNoImprovement, species`leader, species`members
      ensures species == old(species) + added && fresh(added)
      ensures 0 <= k ==> added == [] && nextSpeciesID == old(nextSpeciesID) && genome.species == species[k].id
      ensures 0 <= k ==> multiset(species[k].members) == multiset(old(species[k].members)) + multiset{genome}
      ensures k < 0 ==> |added| == 1 && added[0].leader == genome && added[0].members == [genome]
      ensures k < 0 ==> added[0].id == old(nextSpeciesID) && genome.species == old(nextSpeciesID)
      ensures k < 0 ==> nextSpeciesID == old(nextSpeciesID) + 1
      ensures MemberPool(species) == old(MemberPool(species)) + multiset{genome}
      ensures DrawnFrom(species, allowed) && DistinctSpecies(species)
    {
      if 0 <= k {
        JoinSpecies(k, species[k], genome, allowed);
        added := [];
      } else {
        added := FoundSpecies(genome, allowed);
      }
    }

    /**
     * The speciation loop: each genome in turn joins the first species whose
     * leader it is compatible with, or founds a new species. Every genome
     * enters exactly one member list: the pool grows by the population.
     */
    method Speciate(ghost allowed: set<Genome>) returns (ghost founded: seq<Species>)
      requires DrawnFrom(species, allowed) && DistinctSpecies(species)
      requires forall j :: 0 <= j < |genomes| ==> genomes[j] in allowed
      modifies this`species, this`nextSpeciesID, genomes`species
      modifies species`bestFitness, species`gensNoImprovement, species`leader, species`members
      ensures MemberPool(species) == old(MemberPool(species)) + multiset(genomes)
      ensures species == old(species) + founded && fresh(founded)
      ensures DrawnFrom(species, allowed) && DistinctSpecies(species)
    {
      ghost var start, s0 := MemberPool(species), species;
      founded := [];
      var i := 0;
      while i < |genomes|
        invariant fresh(founded) && species == s0 + founded
        invariant Seated(start, i, allowed)
      {
        founded := SeatTurn(i, start, allowed, s0, founded);
        i := i + 1;
      }
      assert genomes[..i] == genomes;
      assert MemberPool(species) == start + multiset(genomes);
    }

    /**
     * The first `i` genomes have taken their seats: the pool `start` has
     * grown by them, and the species stay drawn from `allowed` and distinct.
     */
    ghost predicate Seated(start: multiset<Genome>, i: nat, allowed: set<Genome>)
      reads this`species, this`genomes, species`leader, species`members
    {
      i <= |genomes| && MemberPool(species) == start + multiset(genomes[..i]) &&
      DrawnFrom(species, allowed) && DistinctSpecies(species)
    }

    /**
     * `SeatNext` with only what the speciation loop relies on; it adds no
     * behaviour and exists to keep the proof of `Speciate` small.
     */
    method SeatTurn(i: nat, ghost start: multiset<Genome>, ghost allowed: set<Genome>,
                    ghost s0: seq<Species>, ghost founded: seq<Species>) returns (ghost founded': seq<Species>)
      requires i < |genomes| && genomes[i] in allowed
      requires Seated(start, i, allowed) && species == s0 + founded
      modifies this`species, this`nextSpeciesID, genomes`species
      modifies species`bestFitness, species`gensNoImprovement, species`leader, species`members
      ensures Seated(start, i + 1, allowed) && species == s0 + founded'
      ensures |founded| <= |founded'| && founded' == founded + founded'[|founded|..] && fresh(founded'[|founded|..])
    {
      ghost var k;
      founded', k := SeatNext(i, start, allowed, s0, founded);
    }

    /**
     * One turn of the speciation loop, as it extends the list of founded
     * species: genome `i` joins species `k`, the first whose leader it is
     * compatible with, or founds a new species when `k` is -1.
     */
    method SeatNext(i: nat, ghost start: multiset<Genome>, ghost allowed: set<Genome>,
                    ghost s0: seq<Species>, ghost founded: seq<Species>) returns (ghost founded': seq<Species>, ghost k: int)
      requires i < |genomes| && genomes[i] in allowed
      requires Seated(start, i, allowed) && species == s0 + founded
      modifies this`species, this`nextSpeciesID, genomes`species
      modifies species`bestFitness, species`gensNoImprovement, species`leader, species`members
      ensures Seated(start, i + 1, allowed) && species == s0 + founded'
      ensures |founded| <= |founded'| && founded' == founded + founded'[|founded|..] && fresh(founded'[|founded|..])
      ensures k == FirstFit(genomes[i].links, old(LeaderLinks(species)), CoefficientsOf(params), params.compatibilityThreshold)
      ensures 0 <= k ==>
        founded' == founded && genomes[i].species == species[k].id &&
        multiset(species[k].members) == multiset(old(species[k].members)) + multiset{genomes[i]}
      ensures k < 0 ==>
        |founded'| == |founded| + 1 && founded'[|founded|].leader == genomes[i] &&
        founded'[|founded|].members == [genomes[i]] && founded'[|founded|].id == old(nextSpeciesID) &&
        genomes[i].species == old(nextSpeciesID)
    {
      ghost var added;
      added, k := Seat(i, start, allowed);
      ConcatAssoc(s0, founded, added);
      founded' := founded + added;
      assert founded'[|founded|..] == added;
    }

    /**
     * One turn of the speciation loop: genome `i` takes its seat, the pool
     * grows by it.  It joins species `k`, the first whose leader it is
     * compatible with, or, when `k` is -1, founds a new species under the
     * next species ID.
     */
    method Seat(i: nat, ghost start: multiset<Genome>, ghost allowed: set<Genome>) returns (ghost added: seq<Species>, ghost k: int)
      requires i < |genomes| && genomes[i] in allowed
      requires Seated(start, i, allowed)
      modifies this`species, this`nextSpeciesID, genomes`species
      modifies species`bestFitness, species`gensNoImprovement, species`leader, species`members
      ensures Seated(start, i + 1, allowed)
      ensures species == old(species) + added && fresh(added)
      ensures k == FirstFit(genomes[i].links, old(LeaderLinks(species)), CoefficientsOf(params), params.compatibilityThreshold)
      ensures 0 <= k ==>
        added == [] && genomes[i].species == species[k].id &&
        multiset(species[k].members) == multiset(old(species[k].members)) + multiset{genomes[i]}
      ensures k < 0 ==>
        |added| == 1 && added[0].leader == genomes[i] && added[0].members == [genomes[i]] &&
        added[0].id == old(nextSpeciesID) && genomes[i].species == old(nextSpeciesID)
    {
      var genome := genomes[i];
      PrefixPool(genomes, i);
      ghost var leaders := LeaderLinks(species);
      var found := FindSpecies(genome, leaders);
      k := found;
      added := Settle(found, genome, allowed);
      UnionAssoc(start, multiset(genomes[..i]), multiset{genome});
    }

    /**
     * `AdjustSpeciesFitnesses`: every species shares its fitness among its
     * members, species by species; a member's species fitness is the share
     * of the last species that lists it.
     */
    method AdjustSpeciesFitnesses(ghost pop: set<Genome>)
      requires Enrolled(species) <= pop
      modifies pop`speciesFitness
      ensures SharedUpTo(species, |species|, params, pop)
    {
      var i := 0;
      while i < |species|
        invariant 0 <= i <= |species|
        invariant SharedUpTo(species, i, params, pop)
      {
        forall g | g in species[i].members
          ensures g in pop
        {
          assert g in old(species[i].members) && g in old(Enrolled(species));
        }
        AdjustAt(i, species[i], pop);
        i := i + 1;
      }
    }

    /** Species `i` shares its fitness: its members carry its share, the others keep theirs. */
    method AdjustAt(i: nat, s: Species, ghost pop: set<Genome>)
      requires i < |species| && s == species[i] && SharedUpTo(species, i, params, pop)
      modifies s.members`speciesFitness
      ensures SharedUpTo(species, i + 1, params, pop)
    {
      s.AdjustFitnessScores(params);
      forall j, g | 0 <= j < i + 1 && g in species[j].members && g in pop && LastHolder(species, j, i + 1, g)
        ensures g.speciesFitness == SharedFitness(g.fitness, species[j].age, |species[j].members|, params)
      {
        if j < i {
          assert g !in s.members && LastHolder(species, j, i, g);
        }
      }
    }

    /**
     * `SpeciateAndCalculateSpawnAmounts`: the threshold is adjusted, every
     * genome is placed in a species, fitness is shared within species, the
     * total and average adjusted fitness are computed, and every genome and
     * species is given its spawn amount. `ok` is false where the average is
     * not a nonzero number (no genomes, or a zero total), which the source
     * goes on to divide by.
     */
    method SpeciateAndCalculateSpawnAmounts() returns (ok: bool)
      requires Valid()
      modifies this`params, this`species, this`nextSpeciesID, this`totalAdjustedFitness, this`averageAdjustedFitness
      modifies genomes`species, genomes`spawnAmount, known`speciesFitness
      modifies species`bestFitness, species`gensNoImprovement, species`leader, species`members, species`spawnAmount
      ensures Valid()
      ensures Speciated(old(MemberPool(species)) + multiset(genomes), old(totalAdjustedFitness), old(species))
      ensures |genomes| > 0 ==> averageAdjustedFitness == totalAdjustedFitness / |genomes| as real
      ensures ok <==> |genomes| > 0 && averageAdjustedFitness != 0.0
      ensures ok ==> OffspringDue(genomes, averageAdjustedFitness)
      ensures ok ==> SpawnsAdded(species, old(SpawnAmounts(species)))
    {
      ghost var founded := SpeciateAndShare(species);
      ok := ShareOutValid(old(MemberPool(species)) + multiset(genomes), old(totalAdjustedFitness), old(species), founded);
    }

    /**
     * The state after speciation and fitness sharing, from a member pool
     * `pool0`, a total `t0` and a species list `s0` before it: every genome
     * has joined the pool, the old species come first, species fitness is
     * shared within species and the total has grown by it.
     */
    ghost predicate Speciated(pool0: multiset<Genome>, t0: real, s0: seq<Species>)
      reads this`species, this`params, this`totalAdjustedFitness, this`genomes, this`known
      reads species`members, species`age, known`speciesFitness, known`fitness, genomes`speciesFitness
    {
      MemberPool(species) == pool0 &&
      |s0| <= |species| && species[..|s0|] == s0 &&
      SharedUpTo(species, |species|, params, known) &&
      totalAdjustedFitness == t0 + SpeciesFitnessSum(genomes)
    }

    // The chains SpeciateAndShare -> SpeciateThenShare -> SpeciateAll,
    // ShareValid -> ShareFitness -> ShareWithin and ShareOutValid ->
    // ShareOutSpeciated -> ShareOutKeeping -> ShareOut add no behaviour: each
    // link states one more part of the population invariant, so that every
    // proof step reasons about few heap states at once.

    /** Speciation and fitness sharing: everything up to the total adjusted fitness. */
    method SpeciateAndShare(ghost s0: seq<Species>) returns (ghost founded: seq<Species>)
      requires Valid() && s0 == species
      modifies this`params, this`species, this`nextSpeciesID, this`totalAdjustedFitness
      modifies genomes`species, known`speciesFitness
      modifies species`bestFitness, species`gensNoImprovement, species`leader, species`members
      ensures Valid()
      ensures Speciated(old(MemberPool(species)) + multiset(genomes), old(totalAdjustedFitness), s0)
      ensures species == s0 + founded && fresh(founded)
      ensures SpawnAmounts(s0) == old(SpawnAmounts(s0))
    {
      AdjustCompatibilityThreshold();
      founded := SpeciateThenShare(s0);
    }

    /** The speciation loop, then fitness sharing and the total. */
    method SpeciateThenShare(ghost s0: seq<Species>) returns (ghost founded: seq<Species>)
      requires Valid()
      modifies this`species, this`nextSpeciesID, this`totalAdjustedFitness
      modifies genomes`species, known`speciesFitness
      modifies species`bestFitness, species`gensNoImprovement, species`leader, species`members
      ensures Valid()
      ensures MemberPool(species) == old(MemberPool(species)) + multiset(genomes)
      ensures species == old(species) + founded && fresh(founded)
      ensures SharedUpTo(species, |species|, params, known)
      ensures totalAdjustedFitness == old(totalAdjustedFitness) + SpeciesFitnessSum(genomes)
      ensures SpawnAmounts(s0) == old(SpawnAmounts(s0))
    {
      founded := SpeciateAll(s0);
      ShareValid(s0);
    }

    /** The speciation loop over a valid population keeps it valid. */
    method SpeciateAll(ghost s0: seq<Species>) returns (ghost founded: seq<Species>)
      requires Valid()
      modifies this`species, this`nextSpeciesID, genomes`species
      modifies species`bestFitness, species`gensNoImprovement, species`leader, species`members
      ensures Valid() && Enrolled(species) <= known
      ensures MemberPool(species) == old(MemberPool(species)) + multiset(genomes)
      ensures species == old(species) + founded && fresh(founded)
      ensures SpawnAmounts(s0) == old(SpawnAmounts(s0))
    {
      founded := Speciate(known);
      EnrolledWithin(species, known);
    }

    /** Fitness sharing keeps the population valid. */
    method ShareValid(ghost s0: seq<Species>)
      requires Valid() && Enrolled(species) <= known
      modifies this`totalAdjustedFitness, known`speciesFitness
      ensures Valid()
      ensures MemberPool(species) == old(MemberPool(species))
      ensures SharedUpTo(species, |species|, params, known)
      ensures totalAdjustedFitness == old(totalAdjustedFitness) + SpeciesFitnessSum(genomes)
      ensures SpawnAmounts(s0) == old(SpawnAmounts(s0))
    {
      ShareFitness();
    }

    /** Fitness sharing, then the total adjusted fitness. */
    method ShareFitness()
      requires Enrolled(species) <= known
      modifies this`totalAdjustedFitness, known`speciesFitness
      ensures MemberPool(species) == old(MemberPool(species))
      ensures SharedUpTo(species, |species|, params, known)
      ensures totalAdjustedFitness == old(totalAdjustedFitness) + SpeciesFitnessSum(genomes)
    {
      ShareWithin();
      AddUpFitness();
    }

    /** Fitness sharing changes no species and no network: the population stays valid. */
    method ShareWithin()
      requires Enrolled(species) <= known
      modifies known`speciesFitness
      ensures MemberPool(species) == old(MemberPool(species))
      ensures SharedUpTo(species, |species|, params, known)
    {
      AdjustSpeciesFitnesses(known);
    }

    /** The spawn amounts keep the population valid, and leave the speciation as it was. */
    method ShareOutValid(ghost pool0: multiset<Genome>, ghost t0: real, ghost s0: seq<Species>, ghost founded: seq<Species>)
      returns (ok: bool)
      requires Valid() && species == s0 + founded
      requires Speciated(pool0, t0, s0)
      modifies this`averageAdjustedFitness, genomes`spawnAmount, s0`spawnAmount, founded`spawnAmount
      ensures Valid()
      ensures Speciated(pool0, t0, s0)
      ensures |genomes| > 0 ==> averageAdjustedFitness == totalAdjustedFitness / |genomes| as real
      ensures ok <==> |genomes| > 0 && averageAdjustedFitness != 0.0
      ensures ok ==> OffspringDue(genomes, averageAdjustedFitness)
      ensures ok ==> SpawnsAdded(species, old(SpawnAmounts(s0)))
    {
      ok := ShareOutSpeciated(pool0, t0, s0, founded);
    }

    /** The spawn amounts leave the speciation and the shared fitness as they were. */
    method ShareOutSpeciated(ghost pool0: multiset<Genome>, ghost t0: real, ghost s0: seq<Species>, ghost founded: seq<Species>)
      returns (ok: bool)
      requires DistinctSpecies(species) && species == s0 + founded
      modifies this`averageAdjustedFitness, genomes`spawnAmount, s0`spawnAmount, founded`spawnAmount
      ensures old(Speciated(pool0, t0, s0)) ==> Speciated(pool0, t0, s0)
      ensures |genomes| > 0 ==> averageAdjustedFitness == totalAdjustedFitness / |genomes| as real
      ensures ok <==> |genomes| > 0 && averageAdjustedFitness != 0.0
      ensures ok ==> OffspringDue(genomes, averageAdjustedFitness)
      ensures ok ==> SpawnsAdded(species, old(SpawnAmounts(s0)))
    {
      ok := ShareOutKeeping();
    }

    /** The spawn amounts change no member list and no fitness. */
    method ShareOutKeeping() returns (ok: bool)
      requires DistinctSpecies(species)
      modifies this`averageAdjustedFitness, genomes`spawnAmount, species`spawnAmount
      ensures species == old(species) && totalAdjustedFitness == old(totalAdjustedFitness)
      ensures SpeciesFitnessSum(genomes) == old(SpeciesFitnessSum(genomes))
      ensures MemberPool(species) == old(MemberPool(species))
      ensures old(SharedUpTo(species, |species|, params, known)) ==> SharedUpTo(species, |species|, params, known)
      ensures |genomes| > 0 ==> averageAdjustedFitness == totalAdjustedFitness / |genomes| as real
      ensures ok <==> |genomes| > 0 && averageAdjustedFitness != 0.0
      ensures ok ==> OffspringDue(genomes, averageAdjustedFitness)
      ensures ok ==> forall i :: 0 <= i < |species| ==>
        species[i].spawnAmount == old(species[i].spawnAmount) + SpawnSum(species[i].members)
    {
      ok := ShareOut();
    }

    /** The average adjusted fitness, and the spawn amounts of every genome and species. */
    method ShareOut() returns (ok: bool)
      requires DistinctSpecies(species)
      modifies this`averageAdjustedFitness, genomes`spawnAmount, species`spawnAmount
      ensures |genomes| > 0 ==> averageAdjustedFitness == totalAdjustedFitness / |genomes| as real
      ensures ok <==> |genomes| > 0 && averageAdjustedFitness != 0.0
      ensures ok ==> OffspringDue(genomes, averageAdjustedFitness)
      ensures ok ==> forall i :: 0 <= i < |species| ==>
        species[i].spawnAmount == old(species[i].spawnAmount) + SpawnSum(species[i].members)
    {
      if |genomes| == 0 {
        return false;
      }
      averageAdjustedFitness := totalAdjustedFitness / |genomes| as real;
      if averageAdjustedFitness == 0.0 {
        return false;
      }
      AssignOffspring();
      CalculateSpawnAmounts();
      ok := true;
    }

    /** The total adjusted fitness grows by the species fitness of every genome. */
    method AddUpFitness()
      modifies this`totalAdjustedFitness
      ensures totalAdjustedFitness == old(totalAdjustedFitness) + SpeciesFitnessSum(genomes)
    {
      var i := 0;
      while i < |genomes|
        invariant 0 <= i <= |genomes|
        invariant totalAdjustedFitness == old(totalAdjustedFitness) + SpeciesFitnessSum(genomes[..i])
      {
        assert genomes[..i + 1][..i] == genomes[..i];
        totalAdjustedFitness := totalAdjustedFitness + genomes[i].speciesFitness;
        i := i + 1;
      }
      assert genomes[..i] == genomes;
    }

    /** Every genome is due its share of the average adjusted fitness, never below zero. */
    method AssignOffspring()
      requires averageAdjustedFitness != 0.0
      modifies genomes`spawnAmount
      ensures OffspringDue(genomes, averageAdjustedFitness)
    {
      var i := 0;
      while i < |genomes|
        invariant 0 <= i <= |genomes|
        invariant forall k :: 0 <= k < i ==>
          genomes[k].spawnAmount == Offspring(genomes[k].speciesFitness, averageAdjustedFitness)
      {
        genomes[i].spawnAmount := Offspring(genomes[i].speciesFitness, averageAdjustedFitness);
        i := i + 1;
      }
    }

    /** Every species adds up the offspring its members are due. */
    method CalculateSpawnAmounts()
      requires DistinctSpecies(species)
      modifies species`spawnAmount
      ensures forall i :: 0 <= i < |species| ==>
        species[i].spawnAmount == old(species[i].spawnAmount) + SpawnSum(species[i].members)
    {
      var i := 0;
      while i < |species|
        invariant 0 <= i <= |species|
        invariant forall j :: 0 <= j < i ==>
          species[j].spawnAmount == old(species[j].spawnAmount) + SpawnSum(species[j].members)
        invariant forall j :: i <= j < |species| ==> species[j].spawnAmount == old(species[j].spawnAmount)
      {
        species[i].CalculateSpawnAmount();
        i := i + 1;
      }
    }

    /** The genome joins species `s`: it carries the species ID and becomes a member. */
    method JoinSpecies(k: nat, s: Species, genome: Genome, ghost allowed: set<Genome>)
      requires k < |species| && s == species[k] && DistinctSpecies(species)
      requires DrawnFrom(species, allowed) && genome in allowed
      modifies genome`species, s`bestFitness, s`gensNoImprovement, s`leader, s`members
      ensures MemberPool(species) == old(MemberPool(species)) + multiset{genome}
      ensures genome.species == s.id
      ensures multiset(s.members) == multiset(old(s.members)) + multiset{genome}
      ensures DrawnFrom(species, allowed)
    {
      PoolSplit(species, k);
      EnlistAmong(k, s, genome, allowed);
      PoolSplit(species, k);
      Regroup(old(MemberPool(species[..k])), multiset(old(s.members)), old(MemberPool(species[k + 1..])), genome);
    }

    /** `Enlist` on species `k`; the species before and after it keep their pools. */
    method EnlistAmong(k: nat, s: Species, genome: Genome, ghost allowed: set<Genome>)
      requires k < |species| && s == species[k] && DistinctSpecies(species)
      requires DrawnFrom(species, allowed) && genome in allowed
      modifies genome`species, s`bestFitness, s`gensNoImprovement, s`leader, s`members
      ensures MemberPool(species[..k]) == old(MemberPool(species[..k]))
      ensures MemberPool(species[k + 1..]) == old(MemberPool(species[k + 1..]))
      ensures genome.species == s.id
      ensures multiset(s.members) == multiset(old(s.members)) + multiset{genome}
      ensures DrawnFrom(species, allowed)
    {
      Enlist(s, genome, allowed);
      assert s !in species[..k] && s !in species[k + 1..];
      forall i | 0 <= i < |species| && i != k
        ensures SpeciesDrawn(species[i], allowed)
      {
        assert species[i] != s && old(SpeciesDrawn(species[i], allowed));
      }
    }

    /** `genome` carries the ID of species `s` and is added to its members. */
    method Enlist(s: Species, genome: Genome, ghost allowed: set<Genome>)
      modifies genome`species, s`bestFitness, s`gensNoImprovement, s`leader, s`members
      ensures genome.species == s.id
      ensures multiset(s.members) == multiset(old(s.members)) + multiset{genome}
      ensures old(SpeciesDrawn(s, allowed)) && genome in allowed ==> SpeciesDrawn(s, allowed)
    {
      genome.species := s.id;
      s.AddMember(genome);
      if old(SpeciesDrawn(s, allowed)) && genome in allowed {
        forall j | 0 <= j < |s.members|
          ensures s.members[j] in allowed
        {
          assert s.members[j] in multiset(s.members);
          if s.members[j] != genome {
            assert s.members[j] in multiset(old(s.members));
            var q :| 0 <= q < |old(s.members)| && old(s.members)[q] == s.members[j];
          }
        }
      }
    }

    /** The genome founds a new species with the next species ID and leads it. */
    method FoundSpecies(genome: Genome, ghost allowed: set<Genome>) returns (ghost added: seq<Species>)
      modifies this`species, this`nextSpeciesID, genome`species
      ensures species == old(species) + added && fresh(added) && |added| == 1
      ensures added[0].leader == genome && added[0].members == [genome] && added[0].id == old(nextSpeciesID)
      ensures genome.species == old(nextSpeciesID) && nextSpeciesID == old(nextSpeciesID) + 1
      ensures DistinctSpecies(old(species)) ==> DistinctSpecies(species)
      ensures old(DrawnFrom(species, allowed)) && genome in allowed ==> DrawnFrom(species, allowed)
      ensures MemberPool(species) == old(MemberPool(species)) + multiset{genome}
    {
      var newSpecies := CreateSpecies(genome, species, allowed);
      assert multiset(newSpecies.members) == multiset{genome};
      AppendSpecies(newSpecies, allowed);
      added := [newSpecies];
    }

    /** A new species led by the genome, with the next species ID, which the genome takes and which is then used up. */
    method CreateSpecies(genome: Genome, ghost s0: seq<Species>, ghost allowed: set<Genome>) returns (s: Species)
      modifies this`nextSpeciesID, genome`species
      ensures fresh(s) && s.leader == genome && s.members == [genome] && s.id == old(nextSpeciesID)
      ensures genome.species == old(nextSpeciesID) && nextSpeciesID == old(nextSpeciesID) + 1
      ensures DrawnFrom(s0, allowed) == old(DrawnFrom(s0, allowed)) && MemberPool(s0) == old(MemberPool(s0))
    {
      s := NewSpecies(genome, nextSpeciesID);
      genome.species := nextSpeciesID;
      nextSpeciesID := nextSpeciesID + 1;
    }

    /** A species not yet listed is appended; its members join the pool. */
    method AppendSpecies(s: Species, ghost allowed: set<Genome>)
      requires s !in species
      modifies this`species
      ensures species == old(species) + [s]
      ensures DistinctSpecies(old(species)) ==> DistinctSpecies(species)
      ensures DrawnFrom(old(species), allowed) && SpeciesDrawn(s, allowed) ==> DrawnFrom(species, allowed)
      ensures MemberPool(species) == MemberPool(old(species)) + multiset(s.members)
    {
      species := species + [s];
      PoolAppend(old(species), s);
    }
  }
}
