/**
 * The choices the reproduction loop of `UGeneticAlgorithm::Epoch` makes
 * from the random stream, stated on member positions and IDs: the father
 * search, the choice of a child between a copy, a crossover and the previous
 * child, the number of children each species spawns, and the tournament
 * backfill.  The genetic algorithm's methods are proved against them.
 */
module Reproduction {
  import opened Globals
  import opened Parameters
  import opened Speciation
  import opened Selection

  // ---------------------------------------------------------------- father

  /**
   * The father search over the IDs of a species' members: a top genome is
   * drawn, and drawn again while it has the mother's ID and tries remain.
   * The father's position and the cursor after the search; -1 where a draw
   * reads past the members.
   */
  function FatherSearch(ids: seq<int>, survivalRate: real, motherID: int, tries: int, src: nat -> Draw, pos: nat): (r: (int, nat))
    ensures -1 <= r.0 < |ids|
    decreases tries
  {
    var (k, q) := TopDraw(|ids|, survivalRate, src, pos);
    if !(0 <= k < |ids|) then (-1, q)
    else if ids[k] == motherID && tries > 0 then FatherSearch(ids, survivalRate, motherID, tries - 1, src, q)
    else (k, q)
  }

  /** Under valid parameters the search over a non-empty species always finds a father. */
  lemma {:induction false} FatherFound(ids: seq<int>, p: Params, motherID: int, tries: int, src: nat -> Draw, pos: nat)
    requires 1 <= |ids| && p.Ok()
    ensures 0 <= FatherSearch(ids, p.survivalRate, motherID, tries, src, pos).0
    decreases tries
  {
    TopGenomeFound(|ids|, p, src, pos);
    var (k, q) := TopDraw(|ids|, p.survivalRate, src, pos);
    if ids[k] == motherID && tries > 0 {
      FatherFound(ids, p, motherID, tries - 1, src, q);
    }
  }

  /** The draw at cursor `q` picks a member of `ids` with the mother's ID. */
  predicate PicksMother(ids: seq<int>, survivalRate: real, motherID: int, d: Draw)
  {
    var k := TopIndex(|ids|, survivalRate, d);
    0 <= k < |ids| && ids[k] == motherID
  }

  /**
   * In a species of two or more with a non-empty drawn range, the search
   * makes one draw per round and at most one more than the tries; every
   * draw but the last picked a member with the mother's ID; and the last
   * one read past the members (-1), or picked the father, whose ID differs
   * from the mother's unless the tries ran out.
   */
  lemma {:induction false} FatherSearchMeaning(ids: seq<int>, survivalRate: real, motherID: int, tries: int, src: nat -> Draw, pos: nat)
    requires 2 <= |ids| && TopMax(|ids|, survivalRate) + 1 != 0
    ensures var (k, q) := FatherSearch(ids, survivalRate, motherID, tries, src, pos);
      pos + 1 <= q <= pos + 1 + Count(tries) &&
      (forall j :: pos <= j < q - 1 ==> PicksMother(ids, survivalRate, motherID, src(j))) &&
      (k == -1 ==> !(0 <= TopIndex(|ids|, survivalRate, src(q - 1)) < |ids|)) &&
      (0 <= k ==> k == TopIndex(|ids|, survivalRate, src(q - 1)) && (ids[k] != motherID || q == pos + 1 + Count(tries)))
    decreases tries
  {
    var k := TopIndex(|ids|, survivalRate, src(pos));
    if 0 <= k < |ids| && ids[k] == motherID && tries > 0 {
      FatherSearchMeaning(ids, survivalRate, motherID, tries - 1, src, pos + 1);
    }
  }

  // ---------------------------------------------------------------- child

  /**
   * How the child of a turn for a species of other than one member is
   * chosen, by member positions: a copy of the mother, a crossover of mother
   * and father, the previous child again, or nothing where a top genome is
   * read past the members.
   */
  datatype ChildKind = Clone(mother: nat) | Cross(mother: nat, father: nat) | Stale | Unread

  /**
   * The choice and the cursor after it (before the draws of a crossover):
   * the mother is drawn; with the crossover draw below the crossover rate
   * a father is searched for, and a father with another ID gives a
   * crossover, one with the mother's ID the previous child; otherwise the
   * mother is the child.
   */
  function ChildChoice(ids: seq<int>, survivalRate: real, crossoverRate: real, crossoverTries: int, src: nat -> Draw, pos: nat): (r: (ChildKind, nat))
    ensures r.0.Clone? ==> r.0.mother < |ids|
    ensures r.0.Cross? ==> r.0.mother < |ids| && r.0.father < |ids|
  {
    var (m, q) := TopDraw(|ids|, survivalRate, src, pos);
    if !(0 <= m < |ids|) then (Unread, q)
    else if UnitOf(src(q)) < crossoverRate then
      var (f, q') := FatherSearch(ids, survivalRate, ids[m], crossoverTries, src, q + 1);
      if f < 0 then (Unread, q')
      else if ids[f] != ids[m] then (Cross(m, f), q')
      else (Stale, q')
    else (Clone(m), q + 1)
  }

  /**
   * The choice in terms of the draws, for a species of two or more with a
   * non-empty drawn range: the first draw picks the mother, the second is
   * the crossover draw; a copy exactly when the mother is found and that
   * draw is not below the crossover rate; a crossover only of members with
   * different IDs; and the previous child only after every father draw of
   * all the tries picked a member with the mother's ID.
   */
  lemma ChildChoiceMeaning(ids: seq<int>, survivalRate: real, crossoverRate: real, crossoverTries: int, src: nat -> Draw, pos: nat)
    requires 2 <= |ids| && TopMax(|ids|, survivalRate) + 1 != 0
    ensures var (c, q) := ChildChoice(ids, survivalRate, crossoverRate, crossoverTries, src, pos);
      var m := TopIndex(|ids|, survivalRate, src(pos));
      (c.Clone? <==> 0 <= m < |ids| && UnitOf(src(pos + 1)) >= crossoverRate) &&
      (c.Clone? ==> c.mother == m && q == pos + 2) &&
      (c.Cross? ==> c.mother == m && ids[c.father] != ids[m] && UnitOf(src(pos + 1)) < crossoverRate) &&
      (c.Stale? ==>
         0 <= m < |ids| && UnitOf(src(pos + 1)) < crossoverRate && q == pos + 3 + Count(crossoverTries) &&
         forall j :: pos + 2 <= j < q ==> PicksMother(ids, survivalRate, ids[m], src(j)))
  {
    var m := TopIndex(|ids|, survivalRate, src(pos));
    if 0 <= m < |ids| && UnitOf(src(pos + 1)) < crossoverRate {
      FatherSearchMeaning(ids, survivalRate, ids[m], crossoverTries, src, pos + 2);
    }
  }

  // ---------------------------------------------------------------- quotas

  /**
   * The number of children each species spawns in the species loop, given
   * the places `filled` so far of a generation of `size`: its rounded spawn
   * amount, but no more than the places left, and none once the generation
   * is full.
   */
  function Quotas(amounts: seq<real>, size: int, filled: nat): (q: seq<nat>)
    ensures |q| == |amounts|
  {
    if amounts == [] then []
    else
      var n := if filled < size then Min(Count(Round(amounts[0])), size - filled) else 0;
      [n] + Quotas(amounts[1..], size, filled + n)
  }

  /** The children of the first `i` species: the sum of the first `i` counts. */
  function Before(q: seq<nat>, i: nat): nat
    requires i <= |q|
  {
    if i == 0 then 0 else Before(q, i - 1) + q[i - 1]
  }

  /** A count put in front shifts the sums by it. */
  lemma {:induction false} BeforeCons(n: nat, q: seq<nat>, i: nat)
    requires i <= |q|
    ensures Before([n] + q, i + 1) == n + Before(q, i)
    decreases i
  {
    if i > 0 {
      BeforeCons(n, q, i - 1);
      assert ([n] + q)[i] == q[i - 1];
    }
  }

  /** The sums only grow along the sequence. */
  lemma {:induction false} BeforeGrows(q: seq<nat>, i: nat, j: nat)
    requires i <= j <= |q|
    ensures Before(q, i) <= Before(q, j)
    decreases j
  {
    if i < j {
      BeforeGrows(q, i, j - 1);
    }
  }

  /** The quotas never overfill the generation. */
  lemma {:induction false} QuotasFit(amounts: seq<real>, size: int, filled: nat)
    requires filled <= Count(size)
    ensures filled + Before(Quotas(amounts, size, filled), |amounts|) <= Count(size)
    decreases |amounts|
  {
    if amounts != [] {
      var n := if filled < size then Min(Count(Round(amounts[0])), size - filled) else 0;
      var rest := Quotas(amounts[1..], size, filled + n);
      QuotasFit(amounts[1..], size, filled + n);
      BeforeCons(n, rest, |amounts| - 1);
    }
  }

  /** Quota `i` of a run from `filled` is decided by the places after the ones before it. */
  lemma {:induction false} QuotasFrom(amounts: seq<real>, size: int, filled: nat, i: nat)
    requires i < |amounts|
    ensures var q := Quotas(amounts, size, filled);
      var f := filled + Before(q, i);
      q[i] == (if f < size then Min(Count(Round(amounts[i])), size - f) else 0)
    decreases i
  {
    if i > 0 {
      var q := Quotas(amounts, size, filled);
      var n := q[0];
      var rest := Quotas(amounts[1..], size, filled + n);
      assert q == [n] + rest;
      QuotasFrom(amounts[1..], size, filled + n, i - 1);
      BeforeCons(n, rest, i - 1);
      assert amounts[1..][i - 1] == amounts[i];
    }
  }

  /**
   * Quota `j` follows the rule of the species loop: the species' rounded
   * amount, cut to the places its predecessors left, and nothing once they
   * filled the generation.
   */
  predicate QuotaAt(q: seq<nat>, amounts: seq<real>, size: int, j: nat)
  {
    j < |q| && j < |amounts| &&
    q[j] == (if Before(q, j) < size then Min(Count(Round(amounts[j])), size - Before(q, j)) else 0)
  }

  /** The quotas one by one: every quota follows the rule. */
  lemma QuotasMeaning(amounts: seq<real>, size: int, q: seq<nat>)
    requires q == Quotas(amounts, size, 0)
    ensures |q| == |amounts|
    ensures forall j {:trigger QuotaAt(q, amounts, size, j)} :: 0 <= j < |q| ==> QuotaAt(q, amounts, size, j)
  {
    forall j {:trigger QuotaAt(q, amounts, size, j)} | 0 <= j < |q|
      ensures QuotaAt(q, amounts, size, j)
    {
      QuotasFrom(amounts, size, 0, j);
    }
  }

  // ---------------------------------------------------------------- backfill

  /** The cursor at which tournament `j` of a run starts, each taking `c` draws. */
  function Slot(start: nat, c: nat, j: nat): nat
  {
    if j == 0 then start else Slot(start, c, j - 1) + c
  }

  /** Tournament `j` starts `j` times `c` draws after the first. */
  lemma {:induction false} SlotIs(start: nat, c: nat, j: nat)
    ensures Slot(start, c, j) == start + j * c
  {
    if j > 0 {
      SlotIs(start, c, j - 1);
      assert j * c == (j - 1) * c + c;
    }
  }

  /**
   * The winner of the tournament that starts at cursor `pos`, from index 0
   * and best fitness 0; every tournament makes one draw per try, so the
   * tournaments of the backfill start `Count(tries)` draws apart.
   */
  function Winner(fitness: seq<real>, tries: int, src: nat -> Draw, pos: nat): (k: nat)
    requires 1 <= |fitness|
    ensures k < |fitness|
  {
    TournamentWinner(fitness, tries, src, pos);
    TournamentFrom(fitness, tries, Tournament(0, 0.0, pos), src).chosen
  }
}
