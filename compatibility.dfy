/**
 * The compatibility distance between two genomes (`GetCompatibilityScore`):
 * a walk along both link lists in step, counting matching genes (same
 * innovation number), disjoint genes (numbers that appear on one side while
 * the other side has not run out) and excess genes (those left over once one
 * side has run out), and summing the weight differences of matching genes.
 *
 * The score divides by the number of matching genes without a guard, so two
 * genomes with no matching gene score not-a-number; `Score` makes that case
 * explicit.
 */
module Compatibility {
  import opened Globals
  import opened Genes

  /** The counts gathered by the walk. */
  datatype Tally = Tally(excess: nat, disjoint: nat, matching: nat, weightDifference: real)

  /** `fabs`. */
  function Abs(x: real): (r: real)
    ensures 0.0 <= r && (r == x || r == -x)
  {
    if x < 0.0 then -x else x
  }

  /** The walk from positions `i` of `a` and `j` of `b` to the end of both. */
  function TallyFrom(a: seq<LinkGene>, b: seq<LinkGene>, i: nat, j: nat): Tally
    requires i <= |a| && j <= |b|
    decreases |a| - i + |b| - j
  {
    if i == |a| && j == |b| then Tally(0, 0, 0, 0.0)
    else if i == |a| then
      var t := TallyFrom(a, b, i, j + 1); t.(excess := t.excess + 1)
    else if j == |b| then
      var t := TallyFrom(a, b, i + 1, j); t.(excess := t.excess + 1)
    else if a[i].innovationID == b[j].innovationID then
      var t := TallyFrom(a, b, i + 1, j + 1);
      t.(matching := t.matching + 1, weightDifference := t.weightDifference + Abs(a[i].weight - b[j].weight))
    else if a[i].innovationID < b[j].innovationID then
      var t := TallyFrom(a, b, i + 1, j); t.(disjoint := t.disjoint + 1)
    else
      var t := TallyFrom(a, b, i, j + 1); t.(disjoint := t.disjoint + 1)
  }

  /** The three weighting coefficients. */
  datatype Coefficients = Coefficients(excess: real, disjoint: real, matching: real)

  /** A double that is either a number or not-a-number. */
  datatype Score = Finite(value: real) | NaN

  /**
   * Every gene is counted once: as excess, as disjoint, or (with its partner)
   * as matching; matching genes are at most the genes left on either side,
   * and the weight difference is not negative.
   */
  lemma {:induction false} TallyCounts(a: seq<LinkGene>, b: seq<LinkGene>, i: nat, j: nat)
    requires i <= |a| && j <= |b|
    ensures var t := TallyFrom(a, b, i, j);
      t.excess + t.disjoint + 2 * t.matching == (|a| - i) + (|b| - j) &&
      t.matching <= |a| - i && t.matching <= |b| - j && 0.0 <= t.weightDifference
    decreases |a| - i + |b| - j
  {
    if i == |a| && j == |b| {
    } else if i == |a| {
      TallyCounts(a, b, i, j + 1);
    } else if j == |b| {
      TallyCounts(a, b, i + 1, j);
    } else if a[i].innovationID == b[j].innovationID {
      TallyCounts(a, b, i + 1, j + 1);
    } else if a[i].innovationID < b[j].innovationID {
      TallyCounts(a, b, i + 1, j);
    } else {
      TallyCounts(a, b, i, j + 1);
    }
  }

  /**
   * The score: excess and disjoint counts relative to the larger genome, plus
   * the mean weight difference of matching genes, each weighted by its
   * coefficient.  With no matching gene the mean is 0/0 and so is the score.
   */
  function CompatibilityScore(a: seq<LinkGene>, b: seq<LinkGene>, c: Coefficients): (s: Score)
  {
    var t := TallyFrom(a, b, 0, 0);
    var big := BiggerInt(|a|, |b|);
    TallyCounts(a, b, 0, 0);
    if t.matching == 0 then NaN
    else Finite(c.excess * (t.excess as real / big as real) +
                c.disjoint * (t.disjoint as real / big as real) +
                c.matching * (t.weightDifference / t.matching as real))
  }

  /** The walk gives the same counts whichever genome it starts from. */
  lemma {:induction false} TallySymmetric(a: seq<LinkGene>, b: seq<LinkGene>, i: nat, j: nat)
    requires i <= |a| && j <= |b|
    ensures TallyFrom(a, b, i, j) == TallyFrom(b, a, j, i)
    decreases |a| - i + |b| - j
  {
    if i == |a| && j == |b| {
    } else if i == |a| {
      TallySymmetric(a, b, i, j + 1);
    } else if j == |b| {
      TallySymmetric(a, b, i + 1, j);
    } else if a[i].innovationID == b[j].innovationID {
      TallySymmetric(a, b, i + 1, j + 1);
      assert Abs(a[i].weight - b[j].weight) == Abs(b[j].weight - a[i].weight);
    } else if a[i].innovationID < b[j].innovationID {
      TallySymmetric(a, b, i + 1, j);
    } else {
      TallySymmetric(a, b, i, j + 1);
    }
  }

  /** Compatibility is symmetric. */
  lemma CompatibilitySymmetric(a: seq<LinkGene>, b: seq<LinkGene>, c: Coefficients)
    ensures CompatibilityScore(a, b, c) == CompatibilityScore(b, a, c)
  {
    TallySymmetric(a, b, 0, 0);
  }

  /** Genomes sharing no innovation number have no matching gene. */
  lemma {:induction false} DisjointGenomesNoMatch(a: seq<LinkGene>, b: seq<LinkGene>, i: nat, j: nat)
    requires i <= |a| && j <= |b|
    requires forall x, y :: 0 <= x < |a| && 0 <= y < |b| ==> a[x].innovationID != b[y].innovationID
    ensures TallyFrom(a, b, i, j).matching == 0
    decreases |a| - i + |b| - j
  {
    if i == |a| && j == |b| {
    } else if i == |a| {
      DisjointGenomesNoMatch(a, b, i, j + 1);
    } else if j == |b| {
      DisjointGenomesNoMatch(a, b, i + 1, j);
    } else if a[i].innovationID < b[j].innovationID {
      DisjointGenomesNoMatch(a, b, i + 1, j);
    } else {
      DisjointGenomesNoMatch(a, b, i, j + 1);
    }
  }

  /**
   * The score is not-a-number exactly when no gene matches; in particular
   * whenever the genomes share no innovation number, or either has no links.
   */
  lemma NaNScore(a: seq<LinkGene>, b: seq<LinkGene>, c: Coefficients)
    ensures CompatibilityScore(a, b, c).NaN? <==> TallyFrom(a, b, 0, 0).matching == 0
    ensures (forall x, y :: 0 <= x < |a| && 0 <= y < |b| ==> a[x].innovationID != b[y].innovationID) ==>
      CompatibilityScore(a, b, c).NaN?
  {
    if forall x, y :: 0 <= x < |a| && 0 <= y < |b| ==> a[x].innovationID != b[y].innovationID {
      DisjointGenomesNoMatch(a, b, 0, 0);
    }
  }

  /** Walking a link list against itself matches every gene with no weight difference. */
  lemma {:induction false} TallySelf(a: seq<LinkGene>, i: nat)
    requires i <= |a|
    ensures TallyFrom(a, a, i, i) == Tally(0, 0, |a| - i, 0.0)
    decreases |a| - i
  {
    if i < |a| {
      TallySelf(a, i + 1);
    }
  }

  /** A genome with at least one link is at distance 0 from itself. */
  lemma SelfCompatibility(a: seq<LinkGene>, c: Coefficients)
    requires 1 <= |a|
    ensures CompatibilityScore(a, a, c) == Finite(0.0)
  {
    TallySelf(a, 0);
  }

  /** With non-negative coefficients a numeric score is not negative. */
  lemma ScoreNonNegative(a: seq<LinkGene>, b: seq<LinkGene>, c: Coefficients)
    requires 0.0 <= c.excess && 0.0 <= c.disjoint && 0.0 <= c.matching
    requires CompatibilityScore(a, b, c).Finite?
    ensures 0.0 <= CompatibilityScore(a, b, c).value
  {
    var t := TallyFrom(a, b, 0, 0);
    TallyCounts(a, b, 0, 0);
    var big := BiggerInt(|a|, |b|);
    assert 0.0 <= t.excess as real / big as real;
    assert 0.0 <= t.disjoint as real / big as real;
    assert 0.0 <= t.weightDifference / t.matching as real;
    assert 0.0 <= c.excess * (t.excess as real / big as real);
    assert 0.0 <= c.disjoint * (t.disjoint as real / big as real);
    assert 0.0 <= c.matching * (t.weightDifference / t.matching as real);
  }
}
