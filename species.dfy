/**
 * `USpecies`: a group of genomes similar enough to share fitness.  The
 * species keeps its members fittest first, remembers the best fitness it
 * has seen and the genome that reached it (its leader), counts the
 * generations without improvement and its age, and gathers the number of
 * offspring its members are due.
 */
module Speciation {
  import opened Globals
  import opened Parameters
  import opened Genotype
  import opened Ranking

  /**
   * The fitness a member shares with its species: its own fitness, raised by
   * the new-species bonus while the species is young or lowered by the
   * old-age penalty once it is old, divided by the number of members.
   */
  function SharedFitness(fitness: real, age: int, n: nat, p: Params): real
    requires 1 <= n
  {
    AgedFitness(fitness, age, p) / n as real
  }

  /** Scaling both sides of `x <= y` by a positive factor keeps the order. */
  lemma ScaleKeepsOrder(x: real, y: real, k: real)
    requires x <= y && 0.0 < k
    ensures x * k <= y * k && x / k <= y / k
  {
    assert (y - x) * k >= 0.0;
    assert y / k - x / k == (y - x) / k;
  }

  /** The fitness before it is divided among the members: raised, lowered or kept by the species' age. */
  function AgedFitness(fitness: real, age: int, p: Params): real
  {
    if age < p.newSpeciesFitnessBonusAgeCutoff then fitness + fitness * p.newSpeciesFitnessBonus
    else if age > p.speciesFitnessPenaltyAge then fitness - fitness * p.oldAgePenalty
    else fitness
  }

  /**
   * Sharing keeps the order of fitness within a species as long as the bonus
   * stays above -1 and the penalty below 1.
   */
  lemma SharingKeepsOrder(f1: real, f2: real, age: int, n: nat, p: Params)
    requires 1 <= n && f1 <= f2
    requires -1.0 < p.newSpeciesFitnessBonus && p.oldAgePenalty < 1.0
    ensures SharedFitness(f1, age, n, p) <= SharedFitness(f2, age, n, p)
  {
    var b, c := p.newSpeciesFitnessBonus, p.oldAgePenalty;
    ScaleKeepsOrder(f1, f2, 1.0 + b);
    ScaleKeepsOrder(f1, f2, 1.0 - c);
    assert f1 + f1 * b == f1 * (1.0 + b) && f2 + f2 * b == f2 * (1.0 + b);
    assert f1 - f1 * c == f1 * (1.0 - c) && f2 - f2 * c == f2 * (1.0 - c);
    assert SharedFitness(f1, age, n, p) == AgedFitness(f1, age, p) / n as real;
    assert SharedFitness(f2, age, n, p) == AgedFitness(f2, age, p) / n as real;
    ScaleKeepsOrder(AgedFitness(f1, age, p), AgedFitness(f2, age, p), n as real);
  }

  /**
   * For a non-negative fitness: a young species with a non-negative bonus
   * never shares less than an even split, an old one with a penalty in
   * [0, 1] never more and never below zero, and one in between splits evenly.
   */
  lemma SharingBounds(f: real, age: int, n: nat, p: Params)
    requires 1 <= n && 0.0 <= f
    ensures age < p.newSpeciesFitnessBonusAgeCutoff && 0.0 <= p.newSpeciesFitnessBonus ==>
      f / n as real <= SharedFitness(f, age, n, p)
    ensures (!(age < p.newSpeciesFitnessBonusAgeCutoff) && age > p.speciesFitnessPenaltyAge &&
             0.0 <= p.oldAgePenalty <= 1.0) ==>
      0.0 <= SharedFitness(f, age, n, p) <= f / n as real
    ensures !(age < p.newSpeciesFitnessBonusAgeCutoff) && !(age > p.speciesFitnessPenaltyAge) ==>
      SharedFitness(f, age, n, p) == f / n as real
  {
    if age < p.newSpeciesFitnessBonusAgeCutoff {
      if 0.0 <= p.newSpeciesFitnessBonus {
        YoungShare(f, age, n, p);
      }
    } else if age > p.speciesFitnessPenaltyAge {
      if 0.0 <= p.oldAgePenalty <= 1.0 {
        OldShare(f, age, n, p);
      }
    }
  }

  /** A young species with a non-negative bonus shares at least an even split. */
  lemma YoungShare(f: real, age: int, n: nat, p: Params)
    requires 1 <= n && 0.0 <= f && 0.0 <= p.newSpeciesFitnessBonus
    requires age < p.newSpeciesFitnessBonusAgeCutoff
    ensures f / n as real <= SharedFitness(f, age, n, p)
  {
    var b := p.newSpeciesFitnessBonus;
    assert 0.0 <= f * b;
    ScaleKeepsOrder(f, f + f * b, n as real);
  }

  /** An old species with a penalty in [0, 1] shares at most an even split, and never below zero. */
  lemma OldShare(f: real, age: int, n: nat, p: Params)
    requires 1 <= n && 0.0 <= f && 0.0 <= p.oldAgePenalty <= 1.0
    requires !(age < p.newSpeciesFitnessBonusAgeCutoff) && age > p.speciesFitnessPenaltyAge
    ensures 0.0 <= SharedFitness(f, age, n, p) <= f / n as real
  {
    var c := p.oldAgePenalty;
    assert 0.0 <= f * c;
    assert f * c <= f by {
      if 0.0 < f {
        ScaleKeepsOrder(c, 1.0, f);
        assert c * f == f * c;
      }
    }
    ScaleKeepsOrder(f - f * c, f, n as real);
    ScaleKeepsOrder(0.0, f - f * c, n as real);
  }

  /** The sum of the spawn amounts of `gs`. */
  function SpawnSum(gs: seq<Genome>): real
    reads set g | g in gs
  {
    if gs == [] then 0.0 else SpawnSum(gs[..|gs| - 1]) + gs[|gs| - 1].spawnAmount
  }

  /** Spawn amounts that are not negative add up to a total that is not negative either. */
  lemma {:induction false} SpawnSumNonNegative(gs: seq<Genome>)
    requires forall k :: 0 <= k < |gs| ==> 0.0 <= gs[k].spawnAmount
    ensures 0.0 <= SpawnSum(gs)
  {
    if gs != [] {
      SpawnSumNonNegative(gs[..|gs| - 1]);
    }
  }

  /** Summing a list in two parts. */
  lemma {:induction false} SpawnSumAppend(a: seq<Genome>, b: seq<Genome>)
    ensures SpawnSum(a + b) == SpawnSum(a) + SpawnSum(b)
    decreases |b|
  {
    if b != [] {
      assert (a + b)[..|a + b| - 1] == a + b[..|b| - 1];
      SpawnSumAppend(a, b[..|b| - 1]);
    } else {
      assert a + b == a;
    }
  }

  /**
   * The member `GetTopGenome` picks for a species of `n` members (with `n`
   * not 1) from one draw: `RandInt(0, (int)(survivalRate * n) + 1)`.  When
   * that range is empty the source divides by zero; the result is then -1.
   */
  function TopIndex(n: int, survivalRate: real, d: Draw): int
  {
    var max := TopMax(n, survivalRate);
    if max + 1 == 0 then -1 else RandIntOf(d, 0, max)
  }

  /** The top of the drawn range, `(int)(survivalRate * n) + 1`. */
  function TopMax(n: int, survivalRate: real): int
  {
    Trunc(survivalRate * n as real) + 1
  }

  /**
   * The member position `GetTopGenome` reads for a species of `n` members
   * with the cursor at `pos`, and the cursor after it: the only member of a
   * one-member species without a draw, otherwise `TopIndex` of one draw, or
   * -1 without a draw where the drawn range is empty.  A position outside
   * the members is a read past their end.
   */
  function TopDraw(n: int, survivalRate: real, src: nat -> Draw, pos: nat): (int, nat)
  {
    if n == 1 then (0, pos)
    else if TopMax(n, survivalRate) + 1 == 0 then (-1, pos)
    else (TopIndex(n, survivalRate, src(pos)), pos + 1)
  }

  /** With a survival rate in [0, 0.5) the pick lies among the members of any species of two or more. */
  lemma TopIndexInBounds(n: int, survivalRate: real, d: Draw)
    requires 2 <= n && 0.0 <= survivalRate < 0.5
    ensures 0 <= TopIndex(n, survivalRate, d) < n
  {
    var x := survivalRate * n as real;
    assert (0.5 - survivalRate) * n as real > 0.0;
    assert 0.0 <= x < 0.5 * n as real;
    var t := Trunc(x);
    assert 2 * t < n;
  }

  /** With survival rate 0.8 a two-member species can pick a member past its end. */
  lemma TopIndexOverrun()
    ensures TopIndex(2, 0.8, 2) == 2
  {
    assert Trunc(0.8 * 2 as real) == 1;
  }

  /** `USpecies`. */
  class Species {
    var leader: Genome?
    var members: seq<Genome>
    var id: int
    var bestFitness: real
    var gensNoImprovement: int
    var age: int
    var spawnAmount: real

    /** No member yet; the best fitness is at least every member's fitness. */
    ghost predicate BestBounds()
      reads this, set g | g in members
    {
      forall k :: 0 <= k < |members| ==> members[k].fitness <= bestFitness
    }

    /** A new species object before `Initialize`: no members, no leader, every number 0. */
    constructor ()
      ensures leader == null && members == [] && id == 0 && bestFitness == 0.0
      ensures gensNoImprovement == 0 && age == 0 && spawnAmount == 0.0
    {
      leader, members, id, bestFitness := null, [], 0, 0.0;
      gensNoImprovement, age, spawnAmount := 0, 0, 0.0;
    }

    /**
     * `Initialize`: the first genome joins and leads; its fitness is the best
     * so far; the counters and the spawn amount start at zero.
     */
    method Initialize(firstGenome: Genome, speciesID: int)
      modifies this
      ensures members == old(members) + [firstGenome] && leader == firstGenome && id == speciesID
      ensures bestFitness == firstGenome.fitness && gensNoImprovement == 0 && age == 0 && spawnAmount == 0.0
      ensures old(members) == [] ==> BestBounds()
    {
      members := members + [firstGenome];
      leader := firstGenome;
      id := speciesID;
      bestFitness := firstGenome.fitness;
      gensNoImprovement := 0;
      age := 0;
      spawnAmount := 0.0;
    }

    /**
     * `AdjustFitnessScores`: every member's species fitness becomes its
     * shared fitness; nothing else changes.
     */
    method AdjustFitnessScores(p: Params)
      modifies members`speciesFitness
      ensures forall k :: 0 <= k < |members| ==>
        members[k].speciesFitness == SharedFitness(members[k].fitness, age, |members|, p)
    {
      var i := 0;
      while i < |members|
        invariant i <= |members|
        invariant forall k :: 0 <= k < i ==>
          members[k].speciesFitness == SharedFitness(members[k].fitness, age, |members|, p)
      {
        var curGenome := members[i];
        var fitness := curGenome.fitness;
        if age < p.newSpeciesFitnessBonusAgeCutoff {
          fitness := fitness + fitness * p.newSpeciesFitnessBonus;
        } else if age > p.speciesFitnessPenaltyAge {
          fitness := fitness - fitness * p.oldAgePenalty;
        }
        var speciatedFitness := fitness / |members| as real;
        curGenome.speciesFitness := speciatedFitness;
        i := i + 1;
      }
    }

    /**
     * `AddMember`: a genome strictly fitter than the best so far becomes
     * the leader, sets the best fitness and resets the stagnation count; the
     * genome is marked with the species ID and joins the members, which stay
     * fittest first.
     */
    method AddMember(newGenome: Genome)
      modifies this`bestFitness, this`gensNoImprovement, this`leader, this`members, newGenome`species
      ensures newGenome.fitness > old(bestFitness) ==>
        bestFitness == newGenome.fitness && gensNoImprovement == 0 && leader == newGenome
      ensures newGenome.fitness <= old(bestFitness) ==>
        bestFitness == old(bestFitness) && gensNoImprovement == old(gensNoImprovement) && leader == old(leader)
      ensures newGenome.species == id
      ensures multiset(members) == multiset(old(members)) + multiset{newGenome} && FittestFirst(members)
      ensures old(BestBounds()) ==> BestBounds()
    {
      if newGenome.fitness > bestFitness {
        bestFitness := newGenome.fitness;
        gensNoImprovement := 0;
        leader := newGenome;
      }
      newGenome.species := id;
      ghost var grown := members + [newGenome];
      members := SortByFitness(members + [newGenome]);
      if old(BestBounds()) {
        assert forall k :: 0 <= k < |grown| ==> grown[k].fitness <= bestFitness;
        forall k | 0 <= k < |members|
          ensures members[k].fitness <= bestFitness
        {
          assert members[k] in multiset(grown);
        }
      }
    }

    /**
     * `Purge`: the members leave, the species ages by one generation without
     * improvement, and its spawn amount returns to zero; the leader and the
     * best fitness stay.
     */
    method Purge()
      modifies this`members, this`age, this`gensNoImprovement, this`spawnAmount
      ensures members == [] && age == old(age) + 1 && gensNoImprovement == old(gensNoImprovement) + 1
      ensures spawnAmount == 0.0
    {
      members := [];
      age := age + 1;
      gensNoImprovement := gensNoImprovement + 1;
      spawnAmount := 0.0;
    }

    /** `CalculateSpawnAmount`: the members' spawn amounts are added to the species' spawn amount. */
    method CalculateSpawnAmount()
      modifies this`spawnAmount
      ensures spawnAmount == old(spawnAmount) + SpawnSum(members)
    {
      var i := 0;
      while i < |members|
        invariant i <= |members|
        invariant spawnAmount == old(spawnAmount) + SpawnSum(members[..i])
      {
        assert members[..i + 1][..i] == members[..i];
        spawnAmount := spawnAmount + members[i].spawnAmount;
        i := i + 1;
      }
      assert members[..|members|] == members;
    }

    /**
     * `GetTopGenome`: the only member of a one-member species, and otherwise
     * the member at the drawn index among the top of the list, or `null`
     * where the source reads past the end of the list or divides by zero.
     */
    method GetTopGenome(p: Params, rng: Rng) returns (genome: Genome?)
      modifies rng`pos
      ensures |members| == 1 ==> genome == members[0] && rng.pos == old(rng.pos)
      ensures |members| != 1 ==>
        var k := TopIndex(|members|, p.survivalRate, rng.source(old(rng.pos)));
        genome == (if 0 <= k < |members| then members[k] else null) &&
        rng.pos == old(rng.pos) + (if TopMax(|members|, p.survivalRate) + 1 == 0 then 0 else 1)
    {
      if |members| == 1 {
        genome := members[0];
      } else {
        var max := TopMax(|members|, p.survivalRate);
        if max + 1 == 0 {
          return null;
        }
        var chosenOne := rng.RandInt(0, max);
        if 0 <= chosenOne < |members| {
          genome := members[chosenOne];
        } else {
          genome := null;
        }
      }
    }

    /** `GetLeaderFitness`: the leader's current fitness. */
    function GetLeaderFitness(): (f: real)
      requires leader != null
      reads this, leader
      ensures f == leader.fitness
    {
      leader.fitness
    }
  }

  /**
   * Under valid parameters `GetTopGenome` always finds a member of a
   * non-empty species, with one draw unless the species has one member.
   */
  lemma TopGenomeFound(n: int, p: Params, src: nat -> Draw, pos: nat)
    requires 1 <= n && p.Ok()
    ensures var (k, q) := TopDraw(n, p.survivalRate, src, pos);
      0 <= k < n && q == pos + (if n == 1 then 0 else 1)
  {
    if n != 1 {
      TopIndexInBounds(n, p.survivalRate, src(pos));
    }
  }
}
