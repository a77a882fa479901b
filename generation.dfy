/**
 * The decisions the genetic algorithm takes between two generations, as
 * functions of their inputs: the split-depth lookup table, tournament
 * selection, the compatibility-threshold update, the culling of stagnant
 * species, first-fit speciation and the spawn amounts.  The class in
 * `Evolution` is proved against them.
 */
module Selection {
  import opened Globals
  import opened Genes
  import opened Compatibility

  // ---------------------------------------------------------------------
  // Split-depth table
  // ---------------------------------------------------------------------

  /**
   * The entries `Split(low, high, depth)` appends, in order: the midpoint of
   * the interval one layer deeper, then, unless the depth is already past 6,
   * the entries for the lower and for the upper half.
   */
  function SplitPreorder(low: real, high: real, depth: int): seq<SplitDepth>
    decreases if depth > 6 then 0 else 7 - depth
  {
    var mid := low + (high - low) / 2.0;
    [SplitDepth(mid, depth + 1)] +
    (if depth > 6 then [] else SplitPreorder(low, mid, depth + 1) + SplitPreorder(mid, high, depth + 1))
  }

  /**
   * The static table after `Split(low, high, depth)`, from the table
   * `before` the call: the midpoint is appended, then, unless the depth is
   * past 6, the lower half's entries and then the upper half's.
   */
  function SplitAppend(before: seq<SplitDepth>, low: real, high: real, depth: int): seq<SplitDepth>
    decreases if depth > 6 then 0 else 7 - depth, |before|
  {
    var mid := low + (high - low) / 2.0;
    var table := before + [SplitDepth(mid, depth + 1)];
    if depth > 6 then table else SplitAppend(SplitAppend(table, low, mid, depth + 1), mid, high, depth + 1)
  }

  /** What `Split` appends to the static table is the preorder of the interval's halvings. */
  lemma {:induction false} SplitAppendsPreorder(before: seq<SplitDepth>, low: real, high: real, depth: int)
    ensures SplitAppend(before, low, high, depth) == before + SplitPreorder(low, high, depth)
    decreases if depth > 6 then 0 else 7 - depth
  {
    var mid := low + (high - low) / 2.0;
    var table := before + [SplitDepth(mid, depth + 1)];
    if depth <= 6 {
      var lower := SplitPreorder(low, mid, depth + 1);
      var upper := SplitPreorder(mid, high, depth + 1);
      SplitAppendsPreorder(table, low, mid, depth + 1);
      SplitAppendsPreorder(table + lower, mid, high, depth + 1);
      assert SplitPreorder(low, high, depth) == [SplitDepth(mid, depth + 1)] + (lower + upper);
      assert (table + lower) + upper == before + ([SplitDepth(mid, depth + 1)] + (lower + upper));
    } else {
      assert SplitPreorder(low, high, depth) == [SplitDepth(mid, depth + 1)];
    }
  }

  /** `2^n`. */
  function Pow2(n: nat): (r: nat)
    ensures 1 <= r
  {
    if n == 0 then 1 else 2 * Pow2(n - 1)
  }

  /** The first entry is the midpoint, one layer deeper. */
  lemma SplitHead(low: real, high: real, d: int)
    ensures SplitPreorder(low, high, d)[0] == SplitDepth(low + (high - low) / 2.0, d + 1)
  {
  }

  /** `2^8`, one doubling at a time. */
  lemma Pow2Eight()
    ensures Pow2(8) == 256
  {
    assert Pow2(1) == 2;
    assert Pow2(2) == 4;
    assert Pow2(3) == 8;
    assert Pow2(4) == 16;
    assert Pow2(5) == 32;
    assert Pow2(6) == 64;
    assert Pow2(7) == 128;
  }

  /** From depth `d` up to 7 the table holds a full binary tree of `8 - d` levels. */
  lemma {:induction false} SplitSize(low: real, high: real, d: int)
    requires 0 <= d <= 7
    ensures |SplitPreorder(low, high, d)| == Pow2(8 - d) - 1
    decreases 7 - d
  {
    var mid := low + (high - low) / 2.0;
    if d <= 6 {
      SplitSize(low, mid, d + 1);
      SplitSize(mid, high, d + 1);
      assert SplitPreorder(low, high, d) ==
        [SplitDepth(mid, d + 1)] + (SplitPreorder(low, mid, d + 1) + SplitPreorder(mid, high, d + 1));
      assert Pow2(8 - d) == 2 * Pow2(7 - d);
    } else {
      assert SplitPreorder(low, high, d) == [SplitDepth(mid, d + 1)];
      assert Pow2(1) == 2;
    }
  }

  /** Every entry lies strictly inside the interval. */
  lemma {:induction false} SplitValues(low: real, high: real, d: int)
    requires low < high
    ensures forall e :: e in SplitPreorder(low, high, d) ==> low < e.value < high
    decreases if d > 6 then 0 else 7 - d
  {
    var mid := low + (high - low) / 2.0;
    if d <= 6 {
      SplitValues(low, mid, d + 1);
      SplitValues(mid, high, d + 1);
      assert SplitPreorder(low, high, d) ==
        [SplitDepth(mid, d + 1)] + (SplitPreorder(low, mid, d + 1) + SplitPreorder(mid, high, d + 1));
    }
  }

  /** Every entry marks a layer from one past the starting depth to 8. */
  lemma {:induction false} SplitLayers(low: real, high: real, d: int)
    requires d <= 7
    ensures forall e :: e in SplitPreorder(low, high, d) ==> d + 1 <= e.depth <= 8
    decreases if d > 6 then 0 else 7 - d
  {
    var mid := low + (high - low) / 2.0;
    if d <= 6 {
      SplitLayers(low, mid, d + 1);
      SplitLayers(mid, high, d + 1);
      assert SplitPreorder(low, high, d) ==
        [SplitDepth(mid, d + 1)] + (SplitPreorder(low, mid, d + 1) + SplitPreorder(mid, high, d + 1));
    }
  }

  /** The table built at start-up, `Split(0, 1, 0)`, has 255 entries. */
  lemma StartTableSize()
    ensures |SplitPreorder(0.0, 1.0, 0)| == 255
  {
    SplitSize(0.0, 1.0, 0);
    Pow2Eight();
  }

  /** Its first entry is the centre of the unit interval, at layer 1. */
  lemma StartTableHead()
    ensures SplitPreorder(0.0, 1.0, 0)[0] == SplitDepth(0.5, 1)
  {
    SplitHead(0.0, 1.0, 0);
  }

  /** All its entries lie strictly inside (0, 1) and mark layers 1 to 8. */
  lemma StartTableEntries()
    ensures forall e :: e in SplitPreorder(0.0, 1.0, 0) ==> 0.0 < e.value < 1.0 && 1 <= e.depth <= 8
  {
    SplitValues(0.0, 1.0, 0);
    SplitLayers(0.0, 1.0, 0);
  }

  // ---------------------------------------------------------------------
  // Tournament selection
  // ---------------------------------------------------------------------

  /** The tournament's state: the index chosen, its fitness, the stream cursor. */
  datatype Tournament = Tournament(chosen: int, best: real, pos: nat)

  /** The index a tournament over `fitness` draws at cursor `q`. */
  function Contestant(n: int, src: nat -> Draw, q: nat): int
    requires 1 <= n
  {
    RandIntOf(src(q), 0, n - 1)
  }

  /**
   * `TournamentSelection` from a given state: each of `tries` draws picks an
   * index, which replaces the chosen one when its fitness is strictly above
   * the best so far.
   */
  function TournamentFrom(fitness: seq<real>, tries: int, t: Tournament, src: nat -> Draw): Tournament
    requires 1 <= |fitness|
    decreases tries
  {
    if tries <= 0 then t
    else
      var k := Contestant(|fitness|, src, t.pos);
      var t' := if fitness[k] > t.best then Tournament(k, fitness[k], t.pos + 1) else t.(pos := t.pos + 1);
      TournamentFrom(fitness, tries - 1, t', src)
  }

  /**
   * The outcome: one draw per try; the best fitness never falls and is at
   * least every contestant's; and either nothing changed hands or the chosen
   * index is a contestant that beat the starting best and holds the final best.
   */
  lemma {:induction false} TournamentMeaning(fitness: seq<real>, tries: int, t: Tournament, src: nat -> Draw)
    requires 1 <= |fitness| && 0 <= t.chosen < |fitness|
    ensures var r := TournamentFrom(fitness, tries, t, src);
      0 <= r.chosen < |fitness| && r.pos == t.pos + Count(tries) && t.best <= r.best &&
      (forall q :: t.pos <= q < r.pos ==> fitness[Contestant(|fitness|, src, q)] <= r.best) &&
      ((r.chosen == t.chosen && r.best == t.best) ||
       (r.best == fitness[r.chosen] && t.best < r.best &&
        exists q :: t.pos <= q < r.pos && Contestant(|fitness|, src, q) == r.chosen))
    decreases tries
  {
    if tries > 0 {
      var k := Contestant(|fitness|, src, t.pos);
      var t' := if fitness[k] > t.best then Tournament(k, fitness[k], t.pos + 1) else t.(pos := t.pos + 1);
      TournamentMeaning(fitness, tries - 1, t', src);
      var r := TournamentFrom(fitness, tries - 1, t', src);
      if !(r.chosen == t'.chosen && r.best == t'.best) {
        var q :| t'.pos <= q < r.pos && Contestant(|fitness|, src, q) == r.chosen;
        assert t.pos <= q < r.pos;
      } else if fitness[k] > t.best {
        assert Contestant(|fitness|, src, t.pos) == r.chosen;
      }
    }
  }

  /**
   * From the start the source uses (index 0, best 0): the winner is index 0
   * unless some contestant has a fitness above 0, and then it is such a
   * contestant and the fittest of them.
   */
  lemma TournamentWinner(fitness: seq<real>, tries: int, src: nat -> Draw, pos: nat)
    requires 1 <= |fitness|
    ensures var r := TournamentFrom(fitness, tries, Tournament(0, 0.0, pos), src);
      r.pos == pos + Count(tries) && 0 <= r.chosen < |fitness| &&
      (r.chosen == 0 || (0.0 < fitness[r.chosen] &&
        forall q :: pos <= q < r.pos ==> fitness[Contestant(|fitness|, src, q)] <= fitness[r.chosen])) &&
      ((forall q :: pos <= q < r.pos ==> fitness[Contestant(|fitness|, src, q)] <= 0.0) ==> r.chosen == 0)
  {
    TournamentMeaning(fitness, tries, Tournament(0, 0.0, pos), src);
  }

  // ---------------------------------------------------------------------
  // Compatibility threshold
  // ---------------------------------------------------------------------

  /**
   * `AdjustCompatibilityThreshold`: switched off for a target below 1 and in
   * the first generation; otherwise raised by 10% with too many species,
   * lowered by 10% with too few, then floored at 10% of itself.
   */
  function AdjustedThreshold(threshold: real, numSpecies: int, target: int, generation: int): real
  {
    if target < 1 || generation <= 1 then threshold
    else
      var t := if numSpecies > target then threshold + threshold * 0.1
               else if numSpecies < target then threshold - threshold * 0.1
               else threshold;
      if t < t * 0.1 then t * 0.1 else t
  }

  /**
   * For a threshold that is not negative the floor never applies: the
   * threshold is kept, raised by a tenth with too many species or lowered
   * by a tenth with too few, and stays not negative.  For a negative one
   * the floor always applies.
   */
  lemma ThresholdFloorVacuous(threshold: real, numSpecies: int, target: int, generation: int)
    ensures var r := AdjustedThreshold(threshold, numSpecies, target, generation);
      0.0 <= threshold ==>
        0.0 <= r &&
        r == (if target < 1 || generation <= 1 || numSpecies == target then threshold
              else if numSpecies > target then threshold * 1.1
              else threshold * 0.9)
    ensures threshold < 0.0 && 1 <= target && 1 < generation && numSpecies == target ==>
      AdjustedThreshold(threshold, numSpecies, target, generation) == threshold * 0.1
  {
  }

  // ---------------------------------------------------------------------
  // Speciation
  // ---------------------------------------------------------------------

  /** A genome joins a species when its score against the leader is a number no larger than the threshold. */
  predicate Compatible(links: seq<LinkGene>, leaderLinks: seq<LinkGene>, c: Coefficients, threshold: real)
  {
    match CompatibilityScore(links, leaderLinks, c)
    case Finite(v) => v <= threshold
    case NaN => false
  }

  /** The first leader from position `k` on that the genome is compatible with, or -1. */
  function FirstFitFrom(links: seq<LinkGene>, leaders: seq<seq<LinkGene>>, c: Coefficients, threshold: real, k: nat): (f: int)
    requires k <= |leaders|
    ensures f == -1 || k <= f < |leaders|
    decreases |leaders| - k
  {
    if k == |leaders| then -1
    else if Compatible(links, leaders[k], c, threshold) then k
    else FirstFitFrom(links, leaders, c, threshold, k + 1)
  }

  /** First-fit: the position of the first compatible leader, or -1. */
  function FirstFit(links: seq<LinkGene>, leaders: seq<seq<LinkGene>>, c: Coefficients, threshold: real): (f: int)
    ensures -1 <= f < |leaders|
  {
    FirstFitFrom(links, leaders, c, threshold, 0)
  }

  /**
   * First-fit finds the earliest compatible leader: -1 exactly when there is
   * none, and otherwise a compatible leader with no compatible one before it.
   */
  lemma {:induction false} FirstFitFromMeaning(links: seq<LinkGene>, leaders: seq<seq<LinkGene>>, c: Coefficients, threshold: real, k: nat)
    requires k <= |leaders|
    ensures var f := FirstFitFrom(links, leaders, c, threshold, k);
      (f == -1 <==> forall q :: k <= q < |leaders| ==> !Compatible(links, leaders[q], c, threshold)) &&
      (f != -1 ==>
         k <= f < |leaders| && Compatible(links, leaders[f], c, threshold) &&
         forall q :: k <= q < f ==> !Compatible(links, leaders[q], c, threshold))
    decreases |leaders| - k
  {
    if k < |leaders| && !Compatible(links, leaders[k], c, threshold) {
      FirstFitFromMeaning(links, leaders, c, threshold, k + 1);
    }
  }

  /** A genome with no link never joins an existing species: its score is not a number. */
  lemma EmptyGenomeStartsSpecies(leaders: seq<seq<LinkGene>>, c: Coefficients, threshold: real)
    ensures FirstFit([], leaders, c, threshold) == -1
  {
    forall q | 0 <= q < |leaders|
      ensures !Compatible([], leaders[q], c, threshold)
    {
      NaNScore([], leaders[q], c);
    }
    FirstFitFromMeaning([], leaders, c, threshold, 0);
  }

  // ---------------------------------------------------------------------
  // Spawn amounts
  // ---------------------------------------------------------------------

  /** The offspring a genome is due: its share of the average adjusted fitness, never below zero. */
  function Offspring(speciesFitness: real, average: real): (o: real)
    requires average != 0.0
    ensures 0.0 <= o
    ensures speciesFitness / average >= 0.0 ==> o == speciesFitness / average
  {
    var o := speciesFitness / average;
    if o < 0.0 then 0.0 else o
  }

  /** Species whose stagnation exceeds the allowance and whose best is below the best ever die out. */
  predicate Doomed(gensNoImprovement: int, bestFitness: real, allowed: int, bestEver: real)
  {
    gensNoImprovement > allowed && bestFitness < bestEver
  }
}
