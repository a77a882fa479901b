/**
 * The two structural mutations of a genome, `MutateAddNode` and
 * `MutateAddLink`, as functions of the genome's gene lists, the innovation
 * ledger and the random stream.  The genome's methods are proved against
 * them; the lemmas here say what the mutations do to the genes and to the
 * ledger, and which invariants they keep.
 */
module StructuralMutation {
  import opened Globals
  import opened Genes
  import opened Innovation

  /** The gene lists, the ledger and the stream cursor after a mutation. */
  datatype Grown = Grown(neurons: seq<NeuronGene>, links: seq<LinkGene>, ledger: Ledger, pos: nat)

  // ------------------------------------------------------------- add a node

  /** A link `MutateAddNode` may split: enabled, and not leaving a bias neuron. */
  predicate Splittable(ns: seq<NeuronGene>, ls: seq<LinkGene>, k: int)
    requires LinksResolve(ns, ls) && 0 <= k < |ls|
  {
    ls[k].enabled && ns[NeuronPos(ns, ls[k].from)].neuronType != Bias
  }

  /**
   * The search for a link to split: each try draws one link position; an
   * unsplittable link costs a try, the first splittable one ends the search.
   * The result is that position, or -1 once the tries are spent.
   */
  function FindSplitLink(ns: seq<NeuronGene>, ls: seq<LinkGene>, tries: int, src: nat -> Draw, pos: nat): (r: (int, nat))
    requires LinksResolve(ns, ls) && (tries <= 0 || 1 <= |ls|)
    ensures r.0 == -1 || (0 <= r.0 < |ls| && Splittable(ns, ls, r.0))
    decreases tries
  {
    if tries <= 0 then (-1, pos)
    else
      var k := RandIntOf(src(pos), 0, |ls| - 1);
      if !Splittable(ns, ls, k) then FindSplitLink(ns, ls, tries - 1, src, pos + 1)
      else (k, pos + 1)
  }

  /** The new neuron's position: midway between the endpoints of the split link. */
  function Midpoint(ns: seq<NeuronGene>, sel: LinkGene): (xy: (real, real))
    requires HasNeuron(ns, sel.from) && HasNeuron(ns, sel.to)
  {
    var a, b := ns[NeuronPos(ns, sel.from)], ns[NeuronPos(ns, sel.to)];
    ((a.splitX + b.splitX) / 2.0, (a.splitY + b.splitY) / 2.0)
  }

  /**
   * The ledger already holds a neuron innovation for splitting `from -> to`
   * whose neuron the genome does not yet have, so that neuron ID is reused.
   */
  predicate Reuses(ns: seq<NeuronGene>, l: Ledger, from: int, to: int)
    requires l.Indexed()
  {
    var innov := FindInnovation(l.records, from, to, NewNeuron);
    FindInnovationIsPosition(l, from, to, NewNeuron);
    innov >= 0 && !HasNeuron(ns, l.records[innov].neuronID)
  }

  /** The neuron ID recorded for splitting `from -> to`, when it is reused. */
  function ReusedID(ns: seq<NeuronGene>, l: Ledger, from: int, to: int): int
    requires l.Indexed() && Reuses(ns, l, from, to)
  {
    FindInnovationIsPosition(l, from, to, NewNeuron);
    l.records[FindInnovation(l.records, from, to, NewNeuron)].neuronID
  }

  /**
   * Splitting link `k`: a hidden neuron at the midpoint and two enabled links
   * through it.  A fresh split takes the next neuron ID, records the neuron
   * and both links, and gives the incoming link weight 1 and the outgoing one
   * the old weight.  A reused split records nothing, takes its link numbers
   * from the ledger (-1 when absent) and gives the weights the other way round.
   * The split link itself stays as it was, enabled.
   */
  function SplitLink(ns: seq<NeuronGene>, ls: seq<LinkGene>, l: Ledger, k: int, p: nat): (g: Grown)
    requires LinksResolve(ns, ls) && l.Indexed() && 0 <= k < |ls|
  {
    var sel := ls[k];
    var xy := Midpoint(ns, sel);
    if !Reuses(ns, l, sel.from, sel.to) then
      var gene := NeuronGene(l.nextNeuronID, Hidden, xy.0, xy.1);
      var l1 := l.AddNeuron(gene, sel.from, sel.to);
      var l2 := l1.AddLink(sel.from, gene.id);
      Grown(ns + [gene],
        ls + [LinkGene(sel.from, gene.id, 1.0, true, l1.nextInnovationID, false),
              LinkGene(gene.id, sel.to, sel.weight, true, l2.nextInnovationID, false)],
        l2.AddLink(gene.id, sel.to), p)
    else
      var id := ReusedID(ns, l, sel.from, sel.to);
      Grown(ns + [NeuronGene(id, Hidden, xy.0, xy.1)],
        ls + [LinkGene(sel.from, id, sel.weight, true, FindInnovation(l.records, sel.from, id, NewLink), false),
              LinkGene(id, sel.to, 1.0, true, FindInnovation(l.records, id, sel.to, NewLink), false)],
        l, p)
  }

  /**
   * `MutateAddNode`: one draw against the chance (the mutation happens when
   * the draw is not above it), then the search, then the split.
   */
  function AddNode(ns: seq<NeuronGene>, ls: seq<LinkGene>, l: Ledger, chance: real, tries: int, src: nat -> Draw, pos: nat): (g: Grown)
    requires LinksResolve(ns, ls) && l.Indexed()
    requires UnitOf(src(pos)) > chance || tries <= 0 || 1 <= |ls|
  {
    if UnitOf(src(pos)) > chance then Grown(ns, ls, l, pos + 1)
    else
      var found := FindSplitLink(ns, ls, tries, src, pos + 1);
      if found.0 < 0 then Grown(ns, ls, l, found.1)
      else SplitLink(ns, ls, l, found.0, found.1)
  }

  /** A failed search spent one draw per try, and every draw picked an unsplittable link. */
  lemma {:induction false} FindSplitLinkFails(ns: seq<NeuronGene>, ls: seq<LinkGene>, tries: int, src: nat -> Draw, pos: nat)
    requires LinksResolve(ns, ls) && (tries <= 0 || 1 <= |ls|)
    requires FindSplitLink(ns, ls, tries, src, pos).0 == -1
    ensures FindSplitLink(ns, ls, tries, src, pos).1 == pos + Count(tries)
    ensures forall q :: pos <= q < pos + Count(tries) ==>
      !Splittable(ns, ls, RandIntOf(src(q), 0, |ls| - 1))
    decreases tries
  {
    if tries > 0 {
      FindSplitLinkFails(ns, ls, tries - 1, src, pos + 1);
    }
  }

  /** A successful search ends at the first draw that picked a splittable link. */
  lemma {:induction false} FindSplitLinkSucceeds(ns: seq<NeuronGene>, ls: seq<LinkGene>, tries: int, src: nat -> Draw, pos: nat)
    requires LinksResolve(ns, ls) && (tries <= 0 || 1 <= |ls|)
    requires FindSplitLink(ns, ls, tries, src, pos).0 >= 0
    ensures var r := FindSplitLink(ns, ls, tries, src, pos);
      pos < r.1 <= pos + Count(tries) && r.0 == RandIntOf(src(r.1 - 1), 0, |ls| - 1) &&
      forall q :: pos <= q < r.1 - 1 ==> !Splittable(ns, ls, RandIntOf(src(q), 0, |ls| - 1))
    decreases tries
  {
    var k := RandIntOf(src(pos), 0, |ls| - 1);
    if !Splittable(ns, ls, k) {
      FindSplitLinkSucceeds(ns, ls, tries - 1, src, pos + 1);
    }
  }

  /**
   * What a split adds: the old genes stay a prefix; one hidden neuron at the
   * midpoint of link `k`'s endpoints; a link from `k`'s source into it and a
   * link from it to `k`'s target, both enabled and not recurrent, one with
   * weight 1 and the other with `k`'s weight.
   */
  ghost predicate SplitsLink(ns: seq<NeuronGene>, ls: seq<LinkGene>, k: int, g: Grown)
    requires LinksResolve(ns, ls) && 0 <= k < |ls|
  {
    var sel := ls[k];
    |g.neurons| == |ns| + 1 && g.neurons[..|ns|] == ns &&
    |g.links| == |ls| + 2 && g.links[..|ls|] == ls &&
    var gene, into, out := g.neurons[|ns|], g.links[|ls|], g.links[|ls| + 1];
    gene.neuronType == Hidden && (gene.splitX, gene.splitY) == Midpoint(ns, sel) &&
    into.from == sel.from && into.to == gene.id && into.enabled && !into.recurrent &&
    out.from == gene.id && out.to == sel.to && out.enabled && !out.recurrent &&
    ((into.weight == 1.0 && out.weight == sel.weight) || (into.weight == sel.weight && out.weight == 1.0))
  }

  /**
   * `MutateAddNode` either changes nothing but the stream cursor, or splits
   * an enabled link that does not leave a bias neuron.
   */
  lemma AddNodeOutcome(ns: seq<NeuronGene>, ls: seq<LinkGene>, l: Ledger, chance: real, tries: int, src: nat -> Draw, pos: nat)
    requires LinksResolve(ns, ls) && l.Indexed()
    requires UnitOf(src(pos)) > chance || tries <= 0 || 1 <= |ls|
    ensures var g := AddNode(ns, ls, l, chance, tries, src, pos);
      (g.neurons == ns && g.links == ls && g.ledger == l) ||
      (UnitOf(src(pos)) <= chance && exists k :: 0 <= k < |ls| && Splittable(ns, ls, k) && SplitsLink(ns, ls, k, g))
  {
    var g := AddNode(ns, ls, l, chance, tries, src, pos);
    if UnitOf(src(pos)) <= chance {
      var found := FindSplitLink(ns, ls, tries, src, pos + 1);
      if found.0 >= 0 {
        assert SplitsLink(ns, ls, found.0, g);
      }
    }
  }

  /**
   * The ledger side of a split.  A fresh split gives the new neuron the next
   * neuron ID and records, in order, the neuron and the two links, so the
   * links carry the two numbers after the neuron's.  A reused split takes the
   * recorded neuron ID, which the genome did not have, and leaves the ledger
   * as it was.
   */
  lemma SplitLinkLedger(ns: seq<NeuronGene>, ls: seq<LinkGene>, l: Ledger, k: int, p: nat)
    requires LinksResolve(ns, ls) && l.Indexed() && 0 <= k < |ls|
    ensures var g, sel := SplitLink(ns, ls, l, k, p), ls[k];
      var id := g.neurons[|ns|].id;
      SplitsLink(ns, ls, k, g) &&
      (!Reuses(ns, l, sel.from, sel.to) ==>
        id == l.nextNeuronID && g.links[|ls|].weight == 1.0 && g.links[|ls| + 1].weight == sel.weight &&
        g.links[|ls|].innovationID == l.nextInnovationID + 1 &&
        g.links[|ls| + 1].innovationID == l.nextInnovationID + 2 &&
        g.ledger == l.AddNeuron(g.neurons[|ns|], sel.from, sel.to).AddLink(sel.from, id).AddLink(id, sel.to)) &&
      (Reuses(ns, l, sel.from, sel.to) ==>
        id == ReusedID(ns, l, sel.from, sel.to) && !HasNeuron(ns, id) && g.ledger == l &&
        g.links[|ls|].weight == sel.weight && g.links[|ls| + 1].weight == 1.0 &&
        g.links[|ls|].innovationID == FindInnovation(l.records, sel.from, id, NewLink) &&
        g.links[|ls| + 1].innovationID == FindInnovation(l.records, id, sel.to, NewLink))
  {
  }

  /** Adding a neuron gene keeps every neuron lookup that succeeded. */
  lemma HasNeuronGrows(ns: seq<NeuronGene>, extra: seq<NeuronGene>, id: int)
    requires HasNeuron(ns, id)
    ensures HasNeuron(ns + extra, id)
  {
    var p :| 0 <= p < |ns| && ns[p].id == id;
    assert (ns + extra)[p].id == id;
  }

  /** Extending is transitive. */
  lemma ExtendsTrans(a: Ledger, b: Ledger, c: Ledger)
    requires Extends(b, a) && Extends(c, b)
    ensures Extends(c, a)
  {
    assert c.records[..|a.records|] == c.records[..|b.records|][..|a.records|];
  }

  /**
   * The ledger side of a split keeps the ledger invariant and only grows the
   * ledger; the new neuron's ID is one the genome does not have, and it is -1
   * or below the new neuron counter.
   */
  lemma SplitLedgerKeepsValid(ns: seq<NeuronGene>, ls: seq<LinkGene>, l: Ledger, k: int, p: nat)
    requires l.Valid() && LinksResolve(ns, ls) && IDsBelow(ns, l.nextNeuronID) && 0 <= k < |ls|
    ensures var g := SplitLink(ns, ls, l, k, p);
      var id := g.neurons[|ns|].id;
      g.ledger.Valid() && Extends(g.ledger, l) && !HasNeuron(ns, id) &&
      (id == -1 || 0 <= id < g.ledger.nextNeuronID)
  {
    var g := SplitLink(ns, ls, l, k, p);
    var sel := ls[k];
    SplitLinkLedger(ns, ls, l, k, p);
    var gene := g.neurons[|ns|];
    if !Reuses(ns, l, sel.from, sel.to) {
      var l1 := l.AddNeuron(gene, sel.from, sel.to);
      var l2 := l1.AddLink(sel.from, gene.id);
      AddNeuronKeepsValid(l, gene, sel.from, sel.to);
      AddLinkKeepsValid(l1, sel.from, gene.id);
      AddLinkKeepsValid(l2, gene.id, sel.to);
      ExtendsTrans(l, l1, l2);
      ExtendsTrans(l, l2, g.ledger);
    } else {
      FindInnovationIsPosition(l, sel.from, sel.to, NewNeuron);
    }
  }

  /**
   * Appending one neuron gene with a new ID and two links into and out of it
   * from neurons already present keeps every genome invariant.
   */
  lemma {:induction false} GrowKeepsInvariants(ns: seq<NeuronGene>, ls: seq<LinkGene>, gene: NeuronGene, into: LinkGene, out: LinkGene, bound: int)
    requires LinksResolve(ns, ls) && IDsBelow(ns, bound) && !HasNeuron(ns, gene.id)
    requires gene.id == -1 || 0 <= gene.id < bound
    requires HasNeuron(ns, into.from) && into.to == gene.id && out.from == gene.id && HasNeuron(ns, out.to)
    ensures LinksResolve(ns + [gene], ls + [into, out]) && IDsBelow(ns + [gene], bound)
    ensures DistinctNeuronIDs(ns) ==> DistinctNeuronIDs(ns + [gene])
    ensures DistinctEndpoints(ls) ==> DistinctEndpoints(ls + [into, out])
  {
    var ns', ls' := ns + [gene], ls + [into, out];
    assert ns'[|ns|] == gene;
    forall j | 0 <= j < |ls'|
      ensures HasNeuron(ns', ls'[j].from) && HasNeuron(ns', ls'[j].to)
    {
      if j < |ls| {
        assert ls'[j] == ls[j];
        HasNeuronGrows(ns, [gene], ls[j].from);
        HasNeuronGrows(ns, [gene], ls[j].to);
      } else {
        HasNeuronGrows(ns, [gene], into.from);
        HasNeuronGrows(ns, [gene], out.to);
      }
    }
    forall q | 0 <= q < |ns'|
      ensures ns'[q].id == -1 || 0 <= ns'[q].id < bound
    {
      if q < |ns| {
        assert ns'[q] == ns[q];
      }
    }
    if DistinctNeuronIDs(ns) {
      forall p1, p2 | 0 <= p1 < p2 < |ns'|
        ensures ns'[p1].id != ns'[p2].id
      {
        assert ns'[p1] == ns[p1];
        if p2 < |ns| {
          assert ns'[p2] == ns[p2];
        }
      }
    }
    if DistinctEndpoints(ls) {
      assert into.from != gene.id;
      forall k1, k2 | 0 <= k1 < k2 < |ls'|
        ensures ls'[k1].from != ls'[k2].from || ls'[k1].to != ls'[k2].to
      {
        if k2 < |ls| {
          assert ls'[k1] == ls[k1] && ls'[k2] == ls[k2];
        } else if k1 < |ls| {
          assert ls'[k1] == ls[k1];
          assert HasNeuron(ns, ls[k1].from) && HasNeuron(ns, ls[k1].to);
        }
      }
    }
  }

  /**
   * Splitting keeps the genome invariants: the ledger stays valid and only
   * grows, every link still resolves, neuron IDs stay below the ledger's
   * counter and pairwise distinct, and no two links share both endpoints.
   */
  lemma SplitLinkKeepsInvariants(ns: seq<NeuronGene>, ls: seq<LinkGene>, l: Ledger, k: int, p: nat)
    requires l.Valid() && LinksResolve(ns, ls) && IDsBelow(ns, l.nextNeuronID) && 0 <= k < |ls|
    ensures var g := SplitLink(ns, ls, l, k, p);
      g.ledger.Valid() && Extends(g.ledger, l) &&
      LinksResolve(g.neurons, g.links) && IDsBelow(g.neurons, g.ledger.nextNeuronID) &&
      (DistinctNeuronIDs(ns) ==> DistinctNeuronIDs(g.neurons)) &&
      (DistinctEndpoints(ls) ==> DistinctEndpoints(g.links))
  {
    var g := SplitLink(ns, ls, l, k, p);
    SplitLinkLedger(ns, ls, l, k, p);
    SplitLedgerKeepsValid(ns, ls, l, k, p);
    assert IDsBelow(ns, g.ledger.nextNeuronID);
    assert g.neurons == ns + [g.neurons[|ns|]];
    assert g.links == ls + [g.links[|ls|], g.links[|ls| + 1]];
    GrowKeepsInvariants(ns, ls, g.neurons[|ns|], g.links[|ls|], g.links[|ls| + 1], g.ledger.nextNeuronID);
  }

  /** `MutateAddNode` keeps the genome invariants. */
  lemma AddNodeKeepsInvariants(ns: seq<NeuronGene>, ls: seq<LinkGene>, l: Ledger, chance: real, tries: int, src: nat -> Draw, pos: nat)
    requires l.Valid() && LinksResolve(ns, ls) && IDsBelow(ns, l.nextNeuronID)
    requires UnitOf(src(pos)) > chance || tries <= 0 || 1 <= |ls|
    ensures var g := AddNode(ns, ls, l, chance, tries, src, pos);
      g.ledger.Valid() && Extends(g.ledger, l) &&
      LinksResolve(g.neurons, g.links) && IDsBelow(g.neurons, g.ledger.nextNeuronID) &&
      (DistinctNeuronIDs(ns) ==> DistinctNeuronIDs(g.neurons)) &&
      (DistinctEndpoints(ls) ==> DistinctEndpoints(g.links))
  {
    if UnitOf(src(pos)) <= chance {
      var found := FindSplitLink(ns, ls, tries, src, pos + 1);
      if found.0 >= 0 {
        SplitLinkKeepsInvariants(ns, ls, l, found.0, found.1);
      }
    }
  }

  // ------------------------------------------------------------- add a link

  /**
   * The search for two neurons to connect: each try draws any neuron, then a
   * neuron at position `nI + 1` or later (past the inputs and the bias); a
   * pair that is one neuron, or already linked, costs a try.  The result is
   * the pair's IDs, or (-1, -1) once the tries are spent.
   */
  function FindLinkPair(ns: seq<NeuronGene>, ls: seq<LinkGene>, nI: int, tries: int, src: nat -> Draw, pos: nat): (r: (int, int, nat))
    requires tries <= 0 || (0 <= nI && nI + 2 <= |ns|)
    ensures (r.0 == -1 && r.1 == -1) ||
      (HasNeuron(ns, r.0) && (exists q :: 0 <= q < |ns| && nI < q && ns[q].id == r.1) &&
       r.0 != r.1 && !HasLink(ls, r.0, r.1))
    ensures pos <= r.2
    decreases tries
  {
    if tries <= 0 then (-1, -1, pos)
    else
      var p1 := RandIntOf(src(pos), 0, |ns| - 1);
      var p2 := RandIntOf(src(pos + 1), nI + 1, |ns| - 1);
      var n1, n2 := ns[p1].id, ns[p2].id;
      if n1 == n2 || HasLink(ls, n1, n2) then FindLinkPair(ns, ls, nI, tries - 1, src, pos + 2)
      else (n1, n2, pos + 2)
  }

  /**
   * `MutateAddLink`: one draw against the chance, the search, then a new
   * enabled link between the pair (unless either ID is negative) with a
   * weight drawn in (-1, 1).  A link already in the ledger keeps its number
   * and leaves the ledger unchanged; a new one takes the next number and is
   * recorded.  The link is recurrent when its source lies higher than its
   * target.
   */
  function AddLink(ns: seq<NeuronGene>, ls: seq<LinkGene>, nI: int, l: Ledger, chance: real, tries: int, src: nat -> Draw, pos: nat): (g: Grown)
    requires UnitOf(src(pos)) > chance || tries <= 0 || (0 <= nI && nI + 2 <= |ns|)
  {
    if UnitOf(src(pos)) > chance then Grown(ns, ls, l, pos + 1)
    else
      var pick := FindLinkPair(ns, ls, nI, tries, src, pos + 1);
      var n1, n2, p := pick.0, pick.1, pick.2;
      if n1 < 0 || n2 < 0 then Grown(ns, ls, l, p)
      else
        assert HasNeuron(ns, n2);
        Connect(ns, ls, l, n1, n2, src, p)
  }

  /**
   * The link `MutateAddLink` appends once the pair is found: enabled, its
   * weight drawn with `RandomClamped()`, recurrent when its source lies
   * higher than its target, numbered by the ledger or with the next number.
   */
  function Connect(ns: seq<NeuronGene>, ls: seq<LinkGene>, l: Ledger, n1: int, n2: int, src: nat -> Draw, p: nat): Grown
    requires HasNeuron(ns, n1) && HasNeuron(ns, n2)
  {
    var innov := FindInnovation(l.records, n1, n2, NewLink);
    var recurrent := ns[NeuronPos(ns, n1)].splitY > ns[NeuronPos(ns, n2)].splitY;
    var w := RandomClampedOf(src(p), src(p + 1));
    if innov < 0 then Grown(ns, ls + [LinkGene(n1, n2, w, true, l.nextInnovationID, recurrent)], l.AddLink(n1, n2), p + 2)
    else Grown(ns, ls + [LinkGene(n1, n2, w, true, innov, recurrent)], l, p + 2)
  }

  /**
   * What `MutateAddLink` does: the neurons never change; either nothing else
   * changes, or exactly one link is appended, enabled, between two distinct
   * non-negative neuron IDs of the genome that were not linked before, its
   * target drawn past the inputs and the bias, its weight in (-1, 1), and
   * recurrent exactly when its source lies higher than its target.  Its
   * number is the ledger's number for that link when there is one (the
   * ledger then unchanged), and otherwise the next number, recorded.
   */
  lemma AddLinkOutcome(ns: seq<NeuronGene>, ls: seq<LinkGene>, nI: int, l: Ledger, chance: real, tries: int, src: nat -> Draw, pos: nat)
    requires UnitOf(src(pos)) > chance || tries <= 0 || (0 <= nI && nI + 2 <= |ns|)
    ensures var g := AddLink(ns, ls, nI, l, chance, tries, src, pos);
      g.neurons == ns &&
      ((g.links == ls && g.ledger == l) ||
       (|g.links| == |ls| + 1 && g.links[..|ls|] == ls &&
        var e := g.links[|ls|];
        var found := FindInnovation(l.records, e.from, e.to, NewLink);
        UnitOf(src(pos)) <= chance &&
        0 <= e.from && 0 <= e.to && e.from != e.to && e.enabled && -1.0 < e.weight < 1.0 &&
        HasNeuron(ns, e.from) && (exists q :: 0 <= q < |ns| && nI < q && ns[q].id == e.to) &&
        !HasLink(ls, e.from, e.to) &&
        (e.recurrent <==> ns[NeuronPos(ns, e.from)].splitY > ns[NeuronPos(ns, e.to)].splitY) &&
        (found >= 0 ==> e.innovationID == found && g.ledger == l) &&
        (found < 0 ==> e.innovationID == l.nextInnovationID && g.ledger == l.AddLink(e.from, e.to))))
  {
  }

  /**
   * `MutateAddLink` keeps the genome invariants: the ledger stays valid and
   * only grows, every link still resolves, and no two links share both
   * endpoints.
   */
  lemma AddLinkKeepsInvariants(ns: seq<NeuronGene>, ls: seq<LinkGene>, nI: int, l: Ledger, chance: real, tries: int, src: nat -> Draw, pos: nat)
    requires UnitOf(src(pos)) > chance || tries <= 0 || (0 <= nI && nI + 2 <= |ns|)
    requires l.Valid() && LinksResolve(ns, ls)
    ensures var g := AddLink(ns, ls, nI, l, chance, tries, src, pos);
      g.ledger.Valid() && Extends(g.ledger, l) && LinksResolve(g.neurons, g.links) &&
      (DistinctEndpoints(ls) ==> DistinctEndpoints(g.links))
  {
    var g := AddLink(ns, ls, nI, l, chance, tries, src, pos);
    AddLinkOutcome(ns, ls, nI, l, chance, tries, src, pos);
    if g.links != ls {
      var e := g.links[|ls|];
      assert HasNeuron(ns, e.to);
      if FindInnovation(l.records, e.from, e.to, NewLink) < 0 {
        AddLinkKeepsValid(l, e.from, e.to);
      }
      forall j | 0 <= j < |g.links|
        ensures HasNeuron(ns, g.links[j].from) && HasNeuron(ns, g.links[j].to)
      {
        if j < |ls| {
          assert g.links[j] == ls[j];
        }
      }
      if DistinctEndpoints(ls) {
        forall k1, k2 | 0 <= k1 < k2 < |g.links|
          ensures g.links[k1].from != g.links[k2].from || g.links[k1].to != g.links[k2].to
        {
          assert g.links[k1] == ls[k1];
          if k2 < |ls| {
            assert g.links[k2] == ls[k2];
          }
        }
      }
    }
  }
}
