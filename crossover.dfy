/**
 * Crossover of two genomes: the choice of the parent that leads, the merge
 * of the two link lists by innovation number, the gathering of the neuron
 * IDs the offspring needs (`AddNeuronID`), and the offspring's neuron genes
 * recreated from the ledger.  The functions here specify the loop of
 * `UGeneticAlgorithm::Crossover`; the lemmas say what the offspring inherits.
 */
module Mating {
  import opened Globals
  import opened Sorting
  import opened Genes
  import opened Innovation

  /** Which parent leads the merge, and the stream cursor after choosing. */
  datatype Choice = Choice(fatherLeads: bool, pos: nat)

  /**
   * The choice of the fitter parent.  On equal fitness the smaller genome
   * leads; on equal fitness and size a draw is made, but the father is
   * chosen whatever it is.
   */
  function ChooseFitter(motherFitness: real, fatherFitness: real, motherSize: int, fatherSize: int, pos: nat): Choice
  {
    if motherFitness == fatherFitness then
      if motherSize == fatherSize then Choice(true, pos + 1)
      else if motherSize < fatherSize then Choice(false, pos)
      else Choice(true, pos)
    else if motherFitness < fatherFitness then Choice(true, pos)
    else Choice(false, pos)
  }

  /**
   * The father leads exactly when he is fitter, or equally fit and no larger;
   * only a full tie consumes a draw.
   */
  lemma ChooseFitterMeaning(mf: real, ff: real, ms: int, fs: int, pos: nat)
    ensures ChooseFitter(mf, ff, ms, fs, pos).fatherLeads <==> mf < ff || (mf == ff && fs <= ms)
    ensures ChooseFitter(mf, ff, ms, fs, pos).pos == if mf == ff && ms == fs then pos + 1 else pos
  {
  }

  /** `AddNeuronID` as a function: the list with the ID appended unless present. */
  function AddID(id: int, ids: seq<int>): (r: seq<int>)
  {
    if id in ids then ids else ids + [id]
  }

  /** No ID occurs twice. */
  ghost predicate DistinctIDs(ids: seq<int>)
  {
    forall x, y :: 0 <= x < y < |ids| ==> ids[x] != ids[y]
  }

  /** Adding an ID keeps the list free of repeats and adds exactly that ID. */
  lemma AddIDMeaning(id: int, ids: seq<int>)
    ensures id in AddID(id, ids)
    ensures forall x :: x in AddID(id, ids) <==> x in ids || x == id
    ensures DistinctIDs(ids) ==> DistinctIDs(AddID(id, ids))
  {
  }

  /**
   * The state of the merge: positions in the leading and in the other
   * parent's links, the gene selected last, the offspring's links and
   * neuron IDs so far, and the stream cursor.
   */
  datatype Walk = Walk(i: nat, j: nat, selected: LinkGene, links: seq<LinkGene>, ids: seq<int>, pos: nat)

  /**
   * Pushing the selected gene: a disabled gene draws, and is enabled when
   * the draw is below 0.25; the gene then joins the offspring and stays
   * the selected gene.
   */
  function Push(w: Walk, g: LinkGene, src: nat -> Draw): (r: Walk)
    ensures r.selected == g.(enabled := r.selected.enabled)
    ensures r.selected.enabled <==> g.enabled || UnitOf(src(w.pos)) < 0.25
    ensures r.pos == if g.enabled then w.pos else w.pos + 1
    ensures r.links == w.links + [r.selected] && r.i == w.i && r.j == w.j && r.ids == w.ids
  {
    var g' := if !g.enabled && UnitOf(src(w.pos)) < 0.25 then g.(enabled := true) else g;
    w.(selected := g', links := w.links + [g'], pos := if g.enabled then w.pos else w.pos + 1)
  }

  /**
   * One selection: the leading parent's gene is taken when the other parent
   * is exhausted or behind in innovation number; on matching numbers a draw
   * below 0.5 takes the leading gene, otherwise the other one; when the
   * leading parent is exhausted or ahead, the other parent only advances.
   */
  function Pick(a: seq<LinkGene>, b: seq<LinkGene>, w: Walk, src: nat -> Draw): Walk
    requires w.i <= |a| && w.j <= |b| && !(w.i == |a| && w.j == |b|)
  {
    if w.j == |b| then Push(w.(i := w.i + 1), a[w.i], src)
    else if w.i == |a| then w.(j := w.j + 1)
    else if a[w.i].innovationID == b[w.j].innovationID then
      Push(w.(i := w.i + 1, j := w.j + 1, pos := w.pos + 1),
           if UnitOf(src(w.pos)) < 0.5 then a[w.i] else b[w.j], src)
    else if a[w.i].innovationID < b[w.j].innovationID then Push(w.(i := w.i + 1), a[w.i], src)
    else w.(j := w.j + 1)
  }

  /** After every selection, pushed or not, both endpoints of the selected gene are registered. */
  function Register(w: Walk): Walk
  {
    w.(ids := AddID(w.selected.to, AddID(w.selected.from, w.ids)))
  }

  /** One turn of the merge loop. */
  function Step(a: seq<LinkGene>, b: seq<LinkGene>, w: Walk, src: nat -> Draw): (r: Walk)
    requires w.i <= |a| && w.j <= |b| && !(w.i == |a| && w.j == |b|)
    ensures r.i <= |a| && r.j <= |b| && w.i <= r.i && w.j <= r.j && (w.i < r.i || w.j < r.j)
  {
    Register(Pick(a, b, w, src))
  }

  /** The merge loop from `w` until both parents are exhausted. */
  function WalkFrom(a: seq<LinkGene>, b: seq<LinkGene>, w: Walk, src: nat -> Draw): (r: Walk)
    requires w.i <= |a| && w.j <= |b|
    ensures r.i == |a| && r.j == |b|
    decreases |a| - w.i + |b| - w.j
  {
    if w.i == |a| && w.j == |b| then w else WalkFrom(a, b, Step(a, b, w, src), src)
  }

  /** The walk's starting state: the default link gene is selected, nothing gathered. */
  function StartWalk(pos: nat): Walk
  {
    Walk(0, 0, DefaultLinkGene(), [], [], pos)
  }

  /** `g` is `x` with at most its `enabled` flag switched on. */
  predicate FromGene(g: LinkGene, x: LinkGene)
  {
    g == x || g == x.(enabled := true)
  }

  /**
   * An offspring gene standing for the leading parent's gene `x`: that gene,
   * or the other parent's gene with the same innovation number, with at
   * most its `enabled` flag switched on.
   */
  ghost predicate Inherited(g: LinkGene, x: LinkGene, b: seq<LinkGene>)
  {
    FromGene(g, x) || exists jj :: 0 <= jj < |b| && b[jj].innovationID == x.innovationID && FromGene(g, b[jj])
  }

  /** The offspring links gathered so far stand, one for one, for the leading parent's first `w.i` genes. */
  ghost predicate InheritsPrefix(a: seq<LinkGene>, b: seq<LinkGene>, w: Walk)
  {
    w.i <= |a| && |w.links| == w.i && forall k :: 0 <= k < w.i ==> Inherited(w.links[k], a[k], b)
  }

  /** One turn keeps the offspring links in step with the leading parent. */
  lemma StepInherits(a: seq<LinkGene>, b: seq<LinkGene>, w: Walk, src: nat -> Draw)
    requires w.j <= |b| && !(w.i == |a| && w.j == |b|) && InheritsPrefix(a, b, w)
    ensures InheritsPrefix(a, b, Step(a, b, w, src))
  {
    var r := Step(a, b, w, src);
    if r.i == w.i + 1 {
      var g := r.links[w.i];
      assert r.links == w.links + [g];
      if w.j < |b| && a[w.i].innovationID == b[w.j].innovationID && UnitOf(src(w.pos)) >= 0.5 {
        assert FromGene(g, b[w.j]);
      } else {
        assert FromGene(g, a[w.i]);
      }
      assert Inherited(g, a[w.i], b);
    }
  }

  /** The whole walk keeps the offspring links in step with the leading parent. */
  lemma {:induction false} WalkInherits(a: seq<LinkGene>, b: seq<LinkGene>, w: Walk, src: nat -> Draw)
    requires w.j <= |b| && InheritsPrefix(a, b, w)
    ensures InheritsPrefix(a, b, WalkFrom(a, b, w, src))
    decreases |a| - w.i + |b| - w.j
  {
    if !(w.i == |a| && w.j == |b|) {
      StepInherits(a, b, w, src);
      WalkInherits(a, b, Step(a, b, w, src), src);
    }
  }

  /**
   * The offspring's links: as many as the leading parent has, with its
   * innovation numbers in its order, each gene taken from the leading parent
   * or from the other parent's gene with the same number, and at most
   * switched on.
   */
  lemma MergeKeepsLeaderShape(a: seq<LinkGene>, b: seq<LinkGene>, src: nat -> Draw, pos: nat)
    ensures var r := WalkFrom(a, b, StartWalk(pos), src);
      |r.links| == |a| && InnovationIDs(r.links) == InnovationIDs(a) &&
      forall k :: 0 <= k < |a| ==> Inherited(r.links[k], a[k], b)
  {
    WalkInherits(a, b, StartWalk(pos), src);
    var r := WalkFrom(a, b, StartWalk(pos), src);
    forall k | 0 <= k < |a|
      ensures r.links[k].innovationID == a[k].innovationID
    {
      assert Inherited(r.links[k], a[k], b);
    }
  }

  /** `x` is -1 (the default gene's endpoints) or an endpoint of a gene of either parent. */
  ghost predicate Endpoint(x: int, a: seq<LinkGene>, b: seq<LinkGene>)
  {
    x == -1 ||
    (exists k :: 0 <= k < |a| && (a[k].from == x || a[k].to == x)) ||
    (exists k :: 0 <= k < |b| && (b[k].from == x || b[k].to == x))
  }

  /**
   * The neuron IDs gathered so far: no repeats, every endpoint of an
   * offspring link and of the selected gene among them once a turn has been
   * made, and each an endpoint of a parent gene (or the default -1).
   */
  ghost predicate IDsCover(a: seq<LinkGene>, b: seq<LinkGene>, w: Walk)
  {
    DistinctIDs(w.ids) &&
    Endpoint(w.selected.from, a, b) && Endpoint(w.selected.to, a, b) &&
    (forall x :: x in w.ids ==> Endpoint(x, a, b)) &&
    (forall k :: 0 <= k < |w.links| ==> w.links[k].from in w.ids && w.links[k].to in w.ids)
  }

  /** The ID list covers the selected gene's endpoints. */
  ghost predicate CoversSelected(w: Walk)
  {
    w.selected.from in w.ids && w.selected.to in w.ids
  }

  /** The gene a selection picks has the endpoints of a gene of one of the parents. */
  lemma PickEndpoints(a: seq<LinkGene>, b: seq<LinkGene>, w: Walk, src: nat -> Draw)
    requires w.i <= |a| && w.j <= |b| && !(w.i == |a| && w.j == |b|)
    requires Endpoint(w.selected.from, a, b) && Endpoint(w.selected.to, a, b)
    ensures var r := Pick(a, b, w, src);
      Endpoint(r.selected.from, a, b) && Endpoint(r.selected.to, a, b) &&
      r.ids == w.ids && (r.links == w.links || r.links == w.links + [r.selected])
  {
    var r := Pick(a, b, w, src);
    if r.selected != w.selected {
      if w.j < |b| && w.i < |a| && a[w.i].innovationID == b[w.j].innovationID && UnitOf(src(w.pos)) >= 0.5 {
        assert b[w.j].from == r.selected.from && b[w.j].to == r.selected.to;
      } else {
        assert a[w.i].from == r.selected.from && a[w.i].to == r.selected.to;
      }
    }
  }

  /** One turn keeps the ID list covering and free of repeats. */
  lemma StepCovers(a: seq<LinkGene>, b: seq<LinkGene>, w: Walk, src: nat -> Draw)
    requires w.i <= |a| && w.j <= |b| && !(w.i == |a| && w.j == |b|) && IDsCover(a, b, w)
    ensures IDsCover(a, b, Step(a, b, w, src)) && CoversSelected(Step(a, b, w, src))
  {
    var p := Pick(a, b, w, src);
    PickEndpoints(a, b, w, src);
    var r := Register(p);
    AddIDMeaning(p.selected.from, p.ids);
    AddIDMeaning(p.selected.to, AddID(p.selected.from, p.ids));
    forall k | 0 <= k < |r.links|
      ensures r.links[k].from in r.ids && r.links[k].to in r.ids
    {
      if k < |w.links| {
        assert r.links[k] == w.links[k];
      } else {
        assert r.links[k] == p.selected;
      }
    }
  }

  /** The whole walk keeps the ID list covering and free of repeats. */
  lemma {:induction false} WalkCovers(a: seq<LinkGene>, b: seq<LinkGene>, w: Walk, src: nat -> Draw)
    requires w.i <= |a| && w.j <= |b| && IDsCover(a, b, w)
    ensures IDsCover(a, b, WalkFrom(a, b, w, src))
    decreases |a| - w.i + |b| - w.j
  {
    if !(w.i == |a| && w.j == |b|) {
      StepCovers(a, b, w, src);
      WalkCovers(a, b, Step(a, b, w, src), src);
    }
  }

  /** A walk that takes at least one turn registers the last selected gene's endpoints. */
  lemma {:induction false} WalkCoversSelected(a: seq<LinkGene>, b: seq<LinkGene>, w: Walk, src: nat -> Draw)
    requires w.i <= |a| && w.j <= |b| && !(w.i == |a| && w.j == |b|) && IDsCover(a, b, w)
    ensures CoversSelected(WalkFrom(a, b, w, src))
    decreases |a| - w.i + |b| - w.j
  {
    StepCovers(a, b, w, src);
    var s := Step(a, b, w, src);
    if !(s.i == |a| && s.j == |b|) {
      WalkCoversSelected(a, b, s, src);
    }
  }

  /**
   * The offspring's neuron IDs: no repeats, both endpoints of every offspring
   * link among them, and each one an endpoint of a parent gene or -1.  The
   * -1 appears when the walk begins by skipping a gene of the other parent,
   * since the default gene is then still the selected one.
   */
  lemma MergeCoversEndpoints(a: seq<LinkGene>, b: seq<LinkGene>, src: nat -> Draw, pos: nat)
    ensures var r := WalkFrom(a, b, StartWalk(pos), src);
      DistinctIDs(r.ids) &&
      (forall k :: 0 <= k < |r.links| ==> r.links[k].from in r.ids && r.links[k].to in r.ids) &&
      (forall x :: x in r.ids ==> Endpoint(x, a, b))
  {
    WalkCovers(a, b, StartWalk(pos), src);
  }

  /** Two parents whose first innovation numbers differ, the other's smaller, give the offspring the ID -1. */
  lemma SkipFirstRegistersDefault(a: seq<LinkGene>, b: seq<LinkGene>, src: nat -> Draw, pos: nat)
    requires 1 <= |a| && 1 <= |b| && b[0].innovationID < a[0].innovationID
    ensures -1 in WalkFrom(a, b, StartWalk(pos), src).ids
  {
    var s := Step(a, b, StartWalk(pos), src);
    assert -1 in s.ids;
    WalkIDsGrow(a, b, s, src);
  }

  /** The walk never drops a gathered ID. */
  lemma {:induction false} WalkIDsGrow(a: seq<LinkGene>, b: seq<LinkGene>, w: Walk, src: nat -> Draw)
    requires w.i <= |a| && w.j <= |b|
    ensures forall x :: x in w.ids ==> x in WalkFrom(a, b, w, src).ids
    decreases |a| - w.i + |b| - w.j
  {
    if !(w.i == |a| && w.j == |b|) {
      var p := Pick(a, b, w, src);
      AddIDMeaning(p.selected.from, p.ids);
      AddIDMeaning(p.selected.to, AddID(p.selected.from, p.ids));
      WalkIDsGrow(a, b, Step(a, b, w, src), src);
    }
  }

  /** The ascending order of neuron IDs (`TArray<int>::Sort`). */
  function IDKey(x: int): int
  {
    x
  }

  /** A sorted permutation of a list without repeats is strictly ascending. */
  lemma SortedDistinctAscending(ids: seq<int>, sorted: seq<int>)
    requires DistinctIDs(ids) && multiset(sorted) == multiset(ids) && SortedBy(sorted, IDKey)
    ensures forall x, y :: 0 <= x < y < |sorted| ==> sorted[x] < sorted[y]
    ensures forall x :: x in sorted <==> x in ids
  {
    forall x | x in sorted
      ensures x in ids
    {
      assert x in multiset(sorted);
    }
    forall x | x in ids
      ensures x in sorted
    {
      assert x in multiset(ids);
    }
    forall x, y | 0 <= x < y < |sorted|
      ensures sorted[x] < sorted[y]
    {
      assert IDKey(sorted[x]) <= IDKey(sorted[y]);
      DistinctCountsOnce(ids, sorted[x]);
      RepeatCountsTwice(sorted, x, y);
    }
  }

  /** A value at two positions occurs at least twice. */
  lemma RepeatCountsTwice(s: seq<int>, x: nat, y: nat)
    requires x < y < |s|
    ensures s[x] == s[y] ==> multiset(s)[s[x]] >= 2
  {
    assert s[..y] + s[y..] == s;
    assert multiset(s[..y]) + multiset(s[y..]) == multiset(s);
    assert s[..y][x] == s[x];
    assert s[y..][0] == s[y];
  }

  /** In a list without repeats every value occurs at most once. */
  lemma {:induction false} DistinctCountsOnce(ids: seq<int>, v: int)
    requires DistinctIDs(ids)
    ensures multiset(ids)[v] <= 1
  {
    if ids != [] {
      var front := ids[..|ids| - 1];
      assert ids == front + [ids[|ids| - 1]];
      assert DistinctIDs(front) by {
        forall x, y | 0 <= x < y < |front| ensures front[x] != front[y] { assert front[x] == ids[x] && front[y] == ids[y]; }
      }
      DistinctCountsOnce(front, v);
      if ids[|ids| - 1] == v {
        forall x | 0 <= x < |front|
          ensures front[x] != v
        {
          assert front[x] == ids[x];
        }
        assert v !in front;
      }
    }
  }

  /** The offspring's neuron genes: one per ID, each recreated from the ledger. */
  function NeuronsFor(rs: seq<InnovationRecord>, ids: seq<int>): (ns: seq<NeuronGene>)
    ensures |ns| == |ids|
  {
    seq(|ids|, k requires 0 <= k < |ids| => NeuronFromEntries(rs, ids[k]))
  }

  /**
   * When every ID is registered (or is -1, which the default gene carries),
   * the recreated neurons carry exactly those IDs, in order.
   */
  lemma NeuronsForCarryIDs(rs: seq<InnovationRecord>, ids: seq<int>)
    requires forall x :: x in ids ==> x == -1 || Registers(rs, x)
    ensures forall k :: 0 <= k < |ids| ==> NeuronsFor(rs, ids)[k].id == ids[k]
    ensures forall x :: HasNeuron(NeuronsFor(rs, ids), x) <==> x in ids
  {
    var ns := NeuronsFor(rs, ids);
    forall k | 0 <= k < |ids|
      ensures ns[k].id == ids[k]
    {
      assert ids[k] in ids;
    }
    forall x
      ensures HasNeuron(ns, x) <==> x in ids
    {
      if x in ids {
        var k :| 0 <= k < |ids| && ids[k] == x;
        assert ns[k].id == x;
      }
    }
  }
  /** Sorting neuron IDs ascending (`TArray<int>::Sort`). */
  function SortIDs(ids: seq<int>): (r: seq<int>)
    ensures SortedBy(r, IDKey)
    ensures multiset(r) == multiset(ids)
  {
    SortBySortsAndPermutes(ids, IDKey);
    SortBy(ids, IDKey)
  }

  /** The offspring of a crossover: its links, its neurons and the stream cursor after it. */
  datatype Baby = Baby(links: seq<LinkGene>, neurons: seq<NeuronGene>, pos: nat)

  /** The leading parent's links, then the other parent's, for a choice. */
  function Parents(c: Choice, motherLinks: seq<LinkGene>, fatherLinks: seq<LinkGene>): (seq<LinkGene>, seq<LinkGene>)
  {
    if c.fatherLeads then (fatherLinks, motherLinks) else (motherLinks, fatherLinks)
  }

  /**
   * `Crossover` on values: the choice of the leading parent, the merge of
   * both link lists, and one neuron gene per gathered ID, in ascending ID
   * order, recreated from the ledger entries `rs`.
   */
  function Mate(motherFitness: real, fatherFitness: real, motherLinks: seq<LinkGene>, fatherLinks: seq<LinkGene>,
                rs: seq<InnovationRecord>, src: nat -> Draw, pos: nat): Baby
  {
    var c := ChooseFitter(motherFitness, fatherFitness, |motherLinks|, |fatherLinks|, pos);
    var (a, b) := Parents(c, motherLinks, fatherLinks);
    var w := WalkFrom(a, b, StartWalk(c.pos), src);
    Baby(w.links, NeuronsFor(rs, SortIDs(w.ids)), w.pos)
  }

  /** Every endpoint of a gene of either parent is a neuron ID the ledger entries register. */
  ghost predicate EndpointsRegistered(rs: seq<InnovationRecord>, a: seq<LinkGene>, b: seq<LinkGene>)
  {
    forall x :: Endpoint(x, a, b) ==> x == -1 || Registers(rs, x)
  }

  /**
   * What a crossover produces: as many links as the leading parent, with its
   * innovation numbers in its order, each inherited from the leading gene or
   * from the other parent's gene with the same number; and, when the
   * parents' endpoints are registered, neurons with strictly ascending IDs,
   * each the endpoint of a parent gene or -1, that every offspring link
   * resolves against.
   */
  lemma MateMeaning(mf: real, ff: real, ml: seq<LinkGene>, fl: seq<LinkGene>, rs: seq<InnovationRecord>, src: nat -> Draw, pos: nat)
    ensures var (a, b) := Parents(ChooseFitter(mf, ff, |ml|, |fl|, pos), ml, fl);
      var r := Mate(mf, ff, ml, fl, rs, src, pos);
      |r.links| == |a| && InnovationIDs(r.links) == InnovationIDs(a) &&
      (forall k :: 0 <= k < |a| ==> Inherited(r.links[k], a[k], b))
    ensures var r := Mate(mf, ff, ml, fl, rs, src, pos);
      EndpointsRegistered(rs, ml, fl) ==>
        (forall x, y :: 0 <= x < y < |r.neurons| ==> r.neurons[x].id < r.neurons[y].id) &&
        (forall k :: 0 <= k < |r.neurons| ==> Endpoint(r.neurons[k].id, ml, fl)) &&
        LinksResolve(r.neurons, r.links)
  {
    var c := ChooseFitter(mf, ff, |ml|, |fl|, pos);
    var (a, b) := Parents(c, ml, fl);
    MergeKeepsLeaderShape(a, b, src, c.pos);
    if EndpointsRegistered(rs, ml, fl) {
      var w := WalkFrom(a, b, StartWalk(c.pos), src);
      MergeCoversEndpoints(a, b, src, c.pos);
      var sorted := SortIDs(w.ids);
      SortedDistinctAscending(w.ids, sorted);
      forall x | x in sorted
        ensures x == -1 || Registers(rs, x)
      {
        assert Endpoint(x, ml, fl);
      }
      NeuronsForCarryIDs(rs, sorted);
      var ns := NeuronsFor(rs, sorted);
      forall k | 0 <= k < |ns|
        ensures Endpoint(ns[k].id, ml, fl)
      {
        assert sorted[k] in w.ids;
      }
    }
  }
}
