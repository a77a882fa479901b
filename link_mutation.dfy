/**
 * The mutations that change link genes in place without changing the
 * network's structure: `ToggleLinkGenes`, `ReenableLinkGenes` and
 * `MutateWeights`.  Each is described as a function of the link list and
 * the random stream; the genome's methods are proved against them.
 */
module LinkMutation {
  import opened Globals
  import opened Genes

  // ---------------------------------------------------------------- toggling

  /** The link at `q` is another enabled link out of the same neuron as the link at `chosen`. */
  predicate IsOtherOutlet(links: seq<LinkGene>, q: nat, chosen: nat)
    requires q < |links| && chosen < |links|
  {
    links[q].from == links[chosen].from && links[q].enabled &&
    links[q].innovationID != links[chosen].innovationID
  }

  /**
   * Advancing the shared iterator `check` past every link that is not another
   * enabled link out of the chosen link's neuron: stops at the first such
   * link, or at the end.
   */
  function AdvanceCheck(links: seq<LinkGene>, check: nat, chosen: nat): (c: nat)
    requires check <= |links| && chosen < |links|
    ensures check <= c <= |links|
    ensures c < |links| ==> IsOtherOutlet(links, c, chosen)
    ensures forall q :: check <= q < c ==> !IsOtherOutlet(links, q, chosen)
    decreases |links| - check
  {
    if check == |links| || IsOtherOutlet(links, check, chosen) then check
    else AdvanceCheck(links, check + 1, chosen)
  }

  /** `(int)RandFloat(0, n)`: a link position chosen by one draw. */
  function PickIndex(d: Draw, n: nat): (r: nat)
    requires 1 <= n
    ensures r < n
  {
    Trunc(RandFloatOf(d, 0.0, n as real))
  }

  /** The links, the shared iterator's position and the stream cursor during toggling. */
  datatype ToggleState = ToggleState(links: seq<LinkGene>, check: nat, pos: nat)

  /**
   * One try of `ToggleLinkGenes`: with the toggle chance, one link is picked;
   * a disabled link is enabled, and an enabled one is disabled only when the
   * shared iterator runs off the end without meeting another enabled link out
   * of the same neuron.
   */
  function ToggleTry(links: seq<LinkGene>, check: nat, chance: real, src: nat -> Draw, pos: nat): ToggleState
    requires check <= |links| && (1 <= |links| || UnitOf(src(pos)) >= chance)
  {
    if UnitOf(src(pos)) < chance then
      var r := PickIndex(src(pos + 1), |links|);
      if links[r].enabled then
        var c := AdvanceCheck(links, check, r);
        if c == |links| then ToggleState(links[r := links[r].(enabled := false)], c, pos + 2)
        else ToggleState(links, c, pos + 2)
      else ToggleState(links[r := links[r].(enabled := true)], check, pos + 2)
    else ToggleState(links, check, pos + 1)
  }

  /**
   * Whether some of `tries` tries over an empty link list fires, and so
   * would pick a link from the empty list: each try that does not fire
   * takes one draw.
   */
  predicate EmptyToggleFires(chance: real, tries: int, src: nat -> Draw, pos: nat)
    decreases tries
  {
    tries > 0 && (UnitOf(src(pos)) < chance || EmptyToggleFires(chance, tries - 1, src, pos + 1))
  }

  /** The tries are defined: the list has a link, or no try fires. */
  predicate ToggleDefined(links: seq<LinkGene>, chance: real, tries: int, src: nat -> Draw, pos: nat)
  {
    1 <= |links| || !EmptyToggleFires(chance, tries, src, pos)
  }

  /** A try over an empty list fires exactly when one of the `tries` draws is below the chance. */
  lemma {:induction false} EmptyToggleFiresMeaning(chance: real, tries: int, src: nat -> Draw, pos: nat)
    ensures EmptyToggleFires(chance, tries, src, pos) <==> exists q :: pos <= q < pos + tries && UnitOf(src(q)) < chance
    decreases tries
  {
    if tries > 0 {
      EmptyToggleFiresMeaning(chance, tries - 1, src, pos + 1);
    }
  }

  /** `tries` successive tries sharing one iterator. */
  function ToggleTries(links: seq<LinkGene>, check: nat, chance: real, tries: int, src: nat -> Draw, pos: nat): (s: ToggleState)
    requires check <= |links| && ToggleDefined(links, chance, tries, src, pos)
    ensures s.check <= |s.links| && |s.links| == |links|
    decreases tries
  {
    if tries <= 0 then ToggleState(links, check, pos)
    else
      var s := ToggleTry(links, check, chance, src, pos);
      ToggleTries(s.links, s.check, chance, tries - 1, src, s.pos)
  }

  /**
   * Over an empty link list, tries that never fire change nothing and take
   * one draw each.
   */
  lemma {:induction false} ToggleEmptyUnchanged(chance: real, tries: int, src: nat -> Draw, pos: nat)
    requires !EmptyToggleFires(chance, tries, src, pos)
    ensures ToggleTries([], 0, chance, tries, src, pos) == ToggleState([], 0, pos + Count(tries))
    decreases tries
  {
    if tries > 0 {
      ToggleEmptyUnchanged(chance, tries - 1, src, pos + 1);
    }
  }

  /** `SameExceptEnabled` is transitive. */
  lemma SameExceptEnabledTrans(a: seq<LinkGene>, b: seq<LinkGene>, c: seq<LinkGene>)
    requires SameExceptEnabled(a, b) && SameExceptEnabled(b, c)
    ensures SameExceptEnabled(a, c)
  {
  }

  /** A try changes nothing but `enabled` flags and never moves the iterator back. */
  lemma ToggleTryKeepsGenes(links: seq<LinkGene>, check: nat, chance: real, src: nat -> Draw, pos: nat)
    requires check <= |links| && (1 <= |links| || UnitOf(src(pos)) >= chance)
    ensures var s := ToggleTry(links, check, chance, src, pos);
      SameExceptEnabled(links, s.links) && check <= s.check <= |links|
  {
  }

  /** Toggling keeps the number, order, endpoints, weights and numbers of the links. */
  lemma {:induction false} ToggleKeepsGenes(links: seq<LinkGene>, check: nat, chance: real, tries: int, src: nat -> Draw, pos: nat)
    requires check <= |links| && ToggleDefined(links, chance, tries, src, pos)
    ensures SameExceptEnabled(links, ToggleTries(links, check, chance, tries, src, pos).links)
    decreases tries
  {
    if tries > 0 {
      var s := ToggleTry(links, check, chance, src, pos);
      ToggleTryKeepsGenes(links, check, chance, src, pos);
      ToggleKeepsGenes(s.links, s.check, chance, tries - 1, src, s.pos);
      SameExceptEnabledTrans(links, s.links, ToggleTries(s.links, s.check, chance, tries - 1, src, s.pos).links);
    }
  }

  /** A try that fires on a disabled link enables it and changes nothing else. */
  lemma ToggleTryEnablesDisabled(links: seq<LinkGene>, check: nat, chance: real, src: nat -> Draw, pos: nat)
    requires check <= |links| && 1 <= |links|
    requires UnitOf(src(pos)) < chance
    requires !links[PickIndex(src(pos + 1), |links|)].enabled
    ensures var r := PickIndex(src(pos + 1), |links|);
      ToggleTry(links, check, chance, src, pos).links == links[r := links[r].(enabled := true)]
  {
  }

  /**
   * A try disables a link only when it fired, picked that enabled link, and no
   * other enabled link out of the same neuron lies at or after the shared
   * iterator's position.
   */
  lemma ToggleTryDisablesOnlyIsolated(links: seq<LinkGene>, check: nat, chance: real, src: nat -> Draw, pos: nat, q: nat)
    requires check <= |links| && (1 <= |links| || UnitOf(src(pos)) >= chance)
    requires q < |links| && links[q].enabled
    requires !ToggleTry(links, check, chance, src, pos).links[q].enabled
    ensures UnitOf(src(pos)) < chance && q == PickIndex(src(pos + 1), |links|)
    ensures forall c :: check <= c < |links| ==> !IsOtherOutlet(links, c, q)
  {
  }

  /**
   * The iterator is shared by all tries: once an earlier try has run it to
   * the end, a try that picks an enabled link disables it even when other
   * enabled links leave the same neuron.
   */
  lemma ToggleTryAfterExhaustedIterator(links: seq<LinkGene>, chance: real, src: nat -> Draw, pos: nat)
    requires 1 <= |links|
    requires UnitOf(src(pos)) < chance
    requires links[PickIndex(src(pos + 1), |links|)].enabled
    ensures var r := PickIndex(src(pos + 1), |links|);
      ToggleTry(links, |links|, chance, src, pos).links == links[r := links[r].(enabled := false)]
  {
  }

  // ------------------------------------------------------------ re-enabling

  /** The number of disabled links at positions `a .. b-1`. */
  function DisabledBetween(links: seq<LinkGene>, a: nat, b: nat): nat
    requires a <= b <= |links|
    decreases b - a
  {
    if a == b then 0
    else (if links[a].enabled then 0 else 1) + DisabledBetween(links, a + 1, b)
  }

  /**
   * `ReenableLinkGenes` from position `k` on: each disabled link consumes one
   * draw and is enabled when the draw is below the chance; enabled links
   * consume nothing.
   */
  function ReenableFrom(links: seq<LinkGene>, k: nat, chance: real, src: nat -> Draw, pos: nat): (r: (seq<LinkGene>, nat))
    requires k <= |links|
    ensures |r.0| == |links|
    decreases |links| - k
  {
    if k == |links| then (links, pos)
    else if !links[k].enabled then
      if UnitOf(src(pos)) < chance then ReenableFrom(links[k := links[k].(enabled := true)], k + 1, chance, src, pos + 1)
      else ReenableFrom(links, k + 1, chance, src, pos + 1)
    else ReenableFrom(links, k + 1, chance, src, pos)
  }

  /** Counting disabled links depends only on the links in the range. */
  lemma {:induction false} DisabledBetweenAgree(a1: seq<LinkGene>, a2: seq<LinkGene>, a: nat, b: nat)
    requires a <= b <= |a1| && b <= |a2|
    requires forall q :: a <= q < b ==> a1[q].enabled == a2[q].enabled
    ensures DisabledBetween(a1, a, b) == DisabledBetween(a2, a, b)
    decreases b - a
  {
    if a < b {
      DisabledBetweenAgree(a1, a2, a + 1, b);
    }
  }

  /**
   * Re-enabling from `k` changes only `enabled` flags at positions `k` and
   * after, never disables a link, consumes one draw per disabled link, and
   * enables the disabled link at `q` exactly when its draw — the one after
   * those of the disabled links before it — is below the chance.
   */
  lemma ReenableOutcome(links: seq<LinkGene>, k: nat, chance: real, src: nat -> Draw, pos: nat)
    requires k <= |links|
    ensures var r := ReenableFrom(links, k, chance, src, pos);
      SameExceptEnabled(links, r.0) &&
      r.1 == pos + DisabledBetween(links, k, |links|) &&
      (forall q :: 0 <= q < k ==> r.0[q] == links[q]) &&
      (forall q :: k <= q < |links| ==>
        r.0[q].enabled == (links[q].enabled || UnitOf(src(pos + DisabledBetween(links, k, q))) < chance))
  {
    ReenableShape(links, k, chance, src, pos);
    ReenableFlags(links, k, chance, src, pos);
  }

  /** One step of `ReenableFrom`: the link at `k`, then the rest. */
  lemma ReenableStep(links: seq<LinkGene>, k: nat, chance: real, src: nat -> Draw, pos: nat)
      returns (next: seq<LinkGene>, pos': nat)
    requires k < |links|
    ensures |next| == |links| && next == links[k := next[k]] && next[k] == links[k].(enabled := next[k].enabled)
    ensures ReenableFrom(links, k, chance, src, pos) == ReenableFrom(next, k + 1, chance, src, pos')
    ensures next[k].enabled == (links[k].enabled || UnitOf(src(pos)) < chance)
    ensures pos' == pos + DisabledBetween(links, k, k + 1)
  {
    next, pos' := links, pos;
    if !links[k].enabled {
      pos' := pos + 1;
      if UnitOf(src(pos)) < chance {
        next := links[k := links[k].(enabled := true)];
      }
    }
  }

  /**
   * Re-enabling from `k` changes only `enabled` flags, only at `k` and
   * after, and consumes one draw per disabled link.
   */
  lemma {:induction false} ReenableShape(links: seq<LinkGene>, k: nat, chance: real, src: nat -> Draw, pos: nat)
    requires k <= |links|
    ensures var r := ReenableFrom(links, k, chance, src, pos);
      SameExceptEnabled(links, r.0) &&
      r.1 == pos + DisabledBetween(links, k, |links|) &&
      (forall q :: 0 <= q < k ==> r.0[q] == links[q])
    decreases |links| - k
  {
    if k < |links| {
      var next, pos' := ReenableStep(links, k, chance, src, pos);
      ReenableShape(next, k + 1, chance, src, pos');
      DisabledBetweenAgree(links, next, k + 1, |links|);
    }
  }

  /** Re-enabling from `k` sets each later flag from its own draw. */
  lemma {:induction false} ReenableFlags(links: seq<LinkGene>, k: nat, chance: real, src: nat -> Draw, pos: nat)
    requires k <= |links|
    ensures var r := ReenableFrom(links, k, chance, src, pos);
      forall q :: k <= q < |links| ==>
        r.0[q].enabled == (links[q].enabled || UnitOf(src(pos + DisabledBetween(links, k, q))) < chance)
    decreases |links| - k
  {
    if k < |links| {
      var next, pos' := ReenableStep(links, k, chance, src, pos);
      ReenableShape(next, k + 1, chance, src, pos');
      ReenableFlags(next, k + 1, chance, src, pos');
      forall q | k + 1 <= q <= |links|
        ensures DisabledBetween(links, k, q) == (pos' - pos) + DisabledBetween(next, k + 1, q)
      {
        DisabledBetweenAgree(links, next, k + 1, q);
      }
    }
  }

  // -------------------------------------------------------- weight mutation

  /**
   * `MutateWeights` from position `k` on: with the mutation rate a link's
   * weight changes; then with the new-weight chance it is replaced by a fresh
   * `RandomClamped()` value, otherwise perturbed by a value in
   * `[-power, power)`.
   */
  function MutateWeightsFrom(links: seq<LinkGene>, k: nat, power: real, rate: real, newChance: real,
                             src: nat -> Draw, pos: nat): (r: (seq<LinkGene>, nat))
    requires k <= |links|
    ensures |r.0| == |links|
    decreases |links| - k
  {
    if k == |links| then (links, pos)
    else
      var (link, pos') := WeightStep(links[k], power, rate, newChance, src, pos);
      MutateWeightsFrom(links[k := link], k + 1, power, rate, newChance, src, pos')
  }

  /**
   * One link of `MutateWeights`: three draws for a perturbed weight, four
   * for a fresh one, one when the link stays as it is.  Only the weight
   * changes, by an allowed move.
   */
  function WeightStep(link: LinkGene, power: real, rate: real, newChance: real,
                      src: nat -> Draw, pos: nat): (r: (LinkGene, nat))
    ensures r.0 == link.(weight := r.0.weight)
    ensures WeightMoveAllowed(link.weight, r.0.weight, power)
    ensures r.1 == pos + (if UnitOf(src(pos)) < rate then if UnitOf(src(pos + 1)) < newChance then 4 else 3 else 1)
  {
    if UnitOf(src(pos)) < rate then
      if UnitOf(src(pos + 1)) < newChance then
        (link.(weight := RandomClampedOf(src(pos + 2), src(pos + 3))), pos + 4)
      else
        (link.(weight := link.weight + RandFloatOf(src(pos + 2), -power, power)), pos + 3)
    else (link, pos + 1)
  }

  /** A new weight is unchanged, a fresh value in (-1, 1), or within `power` of the old one. */
  ghost predicate WeightMoveAllowed(before: real, after: real, power: real)
  {
    after == before || -1.0 < after < 1.0 ||
    (0.0 <= power && before - power <= after <= before + power) ||
    (power < 0.0 && before + power <= after <= before - power)
  }

  /**
   * Weight mutation changes only weights, only at positions `k` and after,
   * each by an allowed move, and consumes at least one draw per link.
   */
  lemma {:induction false} MutateWeightsOutcome(links: seq<LinkGene>, k: nat, power: real, rate: real, newChance: real,
                                               src: nat -> Draw, pos: nat)
    requires k <= |links|
    ensures var r := MutateWeightsFrom(links, k, power, rate, newChance, src, pos);
      SameExceptWeights(links, r.0) &&
      (forall q :: 0 <= q < k ==> r.0[q] == links[q]) &&
      (forall q :: k <= q < |links| ==> WeightMoveAllowed(links[q].weight, r.0[q].weight, power)) &&
      pos + (|links| - k) <= r.1
    decreases |links| - k
  {
    if k < |links| {
      var (link, pos') := WeightStep(links[k], power, rate, newChance, src, pos);
      MutateWeightsOutcome(links[k := link], k + 1, power, rate, newChance, src, pos');
    }
  }
}
