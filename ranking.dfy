/**
 * Ordering genomes from fittest to poorest, the order the genome's
 * comparison operator defines and that the member list of a species and the
 * population are sorted by.  The container's sort is not stable, so only
 * the ordering and the permutation are promised.
 */
module Ranking {
  import opened Genotype

  /** Fittest first: fitness never rises along the sequence. */
  ghost predicate FittestFirst(gs: seq<Genome>)
    reads set g | g in gs
  {
    forall i, j :: 0 <= i < j < |gs| ==> gs[i].fitness >= gs[j].fitness
  }

  /** The genomes of `gs`, fittest first. */
  method SortByFitness(gs: seq<Genome>) returns (r: seq<Genome>)
    ensures multiset(r) == multiset(gs) && FittestFirst(r)
  {
    r := [];
    var i := 0;
    while i < |gs|
      invariant i <= |gs| && multiset(r) == multiset(gs[..i]) && FittestFirst(r)
    {
      r := InsertByFitness(gs[i], r);
      assert gs[..i + 1] == gs[..i] + [gs[i]];
      i := i + 1;
    }
    assert gs[..|gs|] == gs;
  }

  /** `x` inserted into the fittest-first sequence `r`, after every genome at least as fit. */
  method InsertByFitness(x: Genome, r: seq<Genome>) returns (r': seq<Genome>)
    requires FittestFirst(r)
    ensures multiset(r') == multiset(r) + multiset{x} && FittestFirst(r')
  {
    var q := 0;
    while q < |r| && r[q].fitness >= x.fitness
      invariant q <= |r| && forall t :: 0 <= t < q ==> r[t].fitness >= x.fitness
    {
      q := q + 1;
    }
    var front, back := r[..q], r[q..];
    assert r == front + back;
    r' := front + [x] + back;
    assert multiset(r') == multiset(front) + multiset{x} + multiset(back);
    InsertKeepsOrder(front, x, back);
  }

  /** Placing `x` between the genomes at least as fit and the less fit ones keeps the order. */
  lemma InsertKeepsOrder(front: seq<Genome>, x: Genome, back: seq<Genome>)
    requires FittestFirst(front + back)
    requires forall t :: 0 <= t < |front| ==> front[t].fitness >= x.fitness
    requires forall t :: 0 <= t < |back| ==> back[t].fitness < x.fitness
    ensures FittestFirst(front + [x] + back)
  {
    var r, r' := front + back, front + [x] + back;
    var q := |front|;
    forall i, j | 0 <= i < j < |r'|
      ensures r'[i].fitness >= r'[j].fitness
    {
      if j < q {
        assert r'[i] == r[i] && r'[j] == r[j];
      } else if j == q {
        assert r'[i] == front[i];
      } else if i < q {
        assert r'[i] == r[i] && r'[j] == r[j - 1];
      } else if i == q {
        assert r'[j] == back[j - q - 1];
      } else {
        assert r'[i] == r[i - 1] && r'[j] == r[j - 1];
      }
    }
  }
}
