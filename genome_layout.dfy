/**
 * The start genome built by `InitializeStandard`: the input neurons, one bias
 * neuron and the output neurons, fully connected from every input and the
 * bias to every output, and what that layout means for the innovation ledger
 * started from it.
 */
module GenomeLayout {
  import opened Globals
  import opened Genes
  import opened Innovation

  /** Input neuron `k` of `nI`: ID `k`, spread along the bottom row. */
  function InputGene(nI: int, k: int): NeuronGene
    requires 0 < nI
  {
    NeuronGene(k, Input, 0.1 + k as real * (0.8 / nI as real), 0.0)
  }

  /** Output neuron `k` of `nO`: ID `nI + 1 + k`, spread along the top row. */
  function OutputGene(nI: int, nO: int, k: int): NeuronGene
    requires 0 < nO
  {
    NeuronGene(k + nI + 1, Output, (k + 1) as real * (1.0 / (nO + 1) as real), 1.0)
  }

  /** The first `n` input neurons. */
  function InputGenes(nI: int, n: nat): (r: seq<NeuronGene>)
    requires n <= Count(nI)
    ensures |r| == n && forall k :: 0 <= k < n ==> r[k] == InputGene(nI, k)
  {
    if n == 0 then [] else InputGenes(nI, n - 1) + [InputGene(nI, n - 1)]
  }

  /** The first `n` output neurons. */
  function OutputGenes(nI: int, nO: int, n: nat): (r: seq<NeuronGene>)
    requires n <= Count(nO)
    ensures |r| == n && forall k :: 0 <= k < n ==> r[k] == OutputGene(nI, nO, k)
  {
    if n == 0 then [] else OutputGenes(nI, nO, n - 1) + [OutputGene(nI, nO, n - 1)]
  }

  /**
   * The neurons `InitializeStandard` appends: inputs `0 .. nI-1` spread along
   * the bottom row, the bias with ID `nI`, then the outputs `nI+1 .. nI+nO`
   * spread along the top row.
   */
  function StandardNeurons(nI: int, nO: int): (ns: seq<NeuronGene>)
    ensures |ns| == Count(nI) + 1 + Count(nO)
  {
    InputGenes(nI, Count(nI)) + [NeuronGene(nI, Bias, 1.0, 0.0)] + OutputGenes(nI, nO, Count(nO))
  }

  /**
   * Start link number `t` (counting from 0): from the neuron at position `i`
   * to the output at position `nI + 1 + j`, enabled, with the weight of the
   * `t`-th `RandomClamped()` call and innovation number `nI + nO + 2 + t`.
   */
  function StartLink(ns: seq<NeuronGene>, nI: int, nO: int, i: nat, j: nat, t: nat, src: nat -> Draw, p: nat): LinkGene
    requires i <= nI && nI + j + 1 < |ns|
  {
    LinkGene(ns[i].id, ns[nI + j + 1].id, RandomClampedOf(src(p + 2 * t), src(p + 2 * t + 1)),
      true, nI + nO + 1 + (t + 1), false)
  }

  /** The first `n` links of row `i`, whose first link is start link number `t0`. */
  function StandardRow(ns: seq<NeuronGene>, nI: int, nO: int, i: nat, t0: nat, n: nat, src: nat -> Draw, p: nat): (row: seq<LinkGene>)
    requires i <= nI && n <= Count(nO) && nI + Count(nO) < |ns|
    ensures |row| == n
  {
    if n == 0 then [] else StandardRow(ns, nI, nO, i, t0, n - 1, src, p) + [StartLink(ns, nI, nO, i, n - 1, t0 + n - 1, src, p)]
  }

  /** Link `j` of a row is start link number `t0 + j`. */
  lemma {:induction false} StandardRowElements(ns: seq<NeuronGene>, nI: int, nO: int, i: nat, t0: nat, n: nat, src: nat -> Draw, p: nat)
    requires i <= nI && n <= Count(nO) && nI + Count(nO) < |ns|
    ensures forall j :: 0 <= j < n ==> StandardRow(ns, nI, nO, i, t0, n, src, p)[j] == StartLink(ns, nI, nO, i, j, t0 + j, src, p)
  {
    if n > 0 {
      StandardRowElements(ns, nI, nO, i, t0, n - 1, src, p);
    }
  }

  /** The first `rows` rows of start links: from every input and the bias to every output. */
  function StandardLinks(ns: seq<NeuronGene>, nI: int, nO: int, rows: nat, src: nat -> Draw, p: nat): (ls: seq<LinkGene>)
    requires rows <= Count(nI + 1) && nI + Count(nO) < |ns|
    ensures |ls| == rows * Count(nO)
  {
    if rows == 0 then []
    else StandardLinks(ns, nI, nO, rows - 1, src, p) + StandardRow(ns, nI, nO, rows - 1, (rows - 1) * Count(nO), Count(nO), src, p)
  }

  /** The standard neuron list: neuron `k` has ID `k`; inputs, then the bias, then the outputs. */
  lemma StandardNeuronsLayout(nI: int, nO: int)
    requires 0 <= nI && 0 <= nO
    ensures forall k :: 0 <= k < |StandardNeurons(nI, nO)| ==> StandardNeurons(nI, nO)[k].id == k
    ensures forall k :: 0 <= k < nI ==>
      StandardNeurons(nI, nO)[k].neuronType == Input && StandardNeurons(nI, nO)[k].splitY == 0.0
    ensures StandardNeurons(nI, nO)[nI].neuronType == Bias
    ensures forall k :: nI < k < |StandardNeurons(nI, nO)| ==>
      StandardNeurons(nI, nO)[k].neuronType == Output && StandardNeurons(nI, nO)[k].splitY == 1.0
  {
  }

  /**
   * Start link `k` (of those in the first `rows` rows) is enabled, has
   * innovation number `nI + nO + 2 + k` and runs from an input or the bias of
   * one of those rows to an output.
   */
  ghost predicate StartLinkAt(ls: seq<LinkGene>, nI: int, nO: int, rows: int, k: int)
    requires 0 <= k < |ls|
  {
    ls[k].enabled && !ls[k].recurrent && ls[k].innovationID == nI + nO + 2 + k &&
    0 <= ls[k].from < rows && nI + 1 <= ls[k].to <= nI + nO
  }

  /** One element of a start-link row. */
  lemma StandardRowAt(nI: int, nO: int, i: nat, t0: nat, j: nat, src: nat -> Draw, p: nat)
    requires 0 <= nI && 0 <= nO && i <= nI && j < nO
    ensures var row := StandardRow(StandardNeurons(nI, nO), nI, nO, i, t0, nO, src, p);
      row[j].enabled && !row[j].recurrent && row[j].innovationID == nI + nO + 2 + (t0 + j) &&
      row[j].from == i && row[j].to == nI + 1 + j
  {
    StandardNeuronsLayout(nI, nO);
    StandardRowElements(StandardNeurons(nI, nO), nI, nO, i, t0, nO, src, p);
  }

  /**
   * The start links over the standard neurons: every link satisfies
   * `StartLinkAt`, so innovation numbers rise by one from `nI + nO + 2`, and
   * no two start links share both endpoints.
   */
  lemma StandardLinksLayout(nI: int, nO: int, rows: nat, src: nat -> Draw, p: nat)
    requires 0 <= nI && 0 <= nO && rows <= nI + 1
    ensures var ls := StandardLinks(StandardNeurons(nI, nO), nI, nO, rows, src, p);
      (forall k :: 0 <= k < |ls| ==> StartLinkAt(ls, nI, nO, rows, k)) && DistinctEndpoints(ls)
  {
    StandardLinksAt(nI, nO, rows, src, p);
    StandardLinksDistinct(nI, nO, rows, src, p);
  }

  /** The last row of the first `rows` rows of start links, element by element. */
  lemma StandardLastRow(nI: int, nO: int, rows: nat, src: nat -> Draw, p: nat)
    requires 0 <= nI && 0 <= nO && 0 < rows <= nI + 1
    ensures var ns := StandardNeurons(nI, nO);
      StandardLinks(ns, nI, nO, rows, src, p) ==
        StandardLinks(ns, nI, nO, rows - 1, src, p) + StandardRow(ns, nI, nO, rows - 1, (rows - 1) * nO, nO, src, p)
    ensures var row := StandardRow(StandardNeurons(nI, nO), nI, nO, rows - 1, (rows - 1) * nO, nO, src, p);
      forall j :: 0 <= j < |row| ==>
        row[j].enabled && !row[j].recurrent && row[j].innovationID == nI + nO + 2 + ((rows - 1) * nO + j) &&
        row[j].from == rows - 1 && row[j].to == nI + 1 + j
  {
    var base := (rows - 1) * nO;
    var row := StandardRow(StandardNeurons(nI, nO), nI, nO, rows - 1, base, nO, src, p);
    forall j | 0 <= j < |row|
      ensures row[j].enabled && !row[j].recurrent && row[j].innovationID == nI + nO + 2 + (base + j) &&
        row[j].from == rows - 1 && row[j].to == nI + 1 + j
    {
      StandardRowAt(nI, nO, rows - 1, base, j, src, p);
    }
  }

  /** Every start link of the first `rows` rows satisfies `StartLinkAt`. */
  lemma {:induction false} StandardLinksAt(nI: int, nO: int, rows: nat, src: nat -> Draw, p: nat)
    requires 0 <= nI && 0 <= nO && rows <= nI + 1
    ensures var ls := StandardLinks(StandardNeurons(nI, nO), nI, nO, rows, src, p);
      forall k :: 0 <= k < |ls| ==> StartLinkAt(ls, nI, nO, rows, k)
  {
    var ns := StandardNeurons(nI, nO);
    if rows > 0 {
      StandardLinksAt(nI, nO, rows - 1, src, p);
      StandardLastRow(nI, nO, rows, src, p);
      var front := StandardLinks(ns, nI, nO, rows - 1, src, p);
      var base := (rows - 1) * nO;
      var row := StandardRow(ns, nI, nO, rows - 1, base, nO, src, p);
      var ls := front + row;
      assert |front| == base;
      forall k | 0 <= k < |ls|
        ensures StartLinkAt(ls, nI, nO, rows, k)
      {
        if k < |front| {
          assert ls[k] == front[k];
          assert StartLinkAt(front, nI, nO, rows - 1, k);
        } else {
          assert ls[k] == row[k - base];
        }
      }
    }
  }

  /** No two start links of the first `rows` rows share both endpoints. */
  lemma {:induction false} StandardLinksDistinct(nI: int, nO: int, rows: nat, src: nat -> Draw, p: nat)
    requires 0 <= nI && 0 <= nO && rows <= nI + 1
    ensures DistinctEndpoints(StandardLinks(StandardNeurons(nI, nO), nI, nO, rows, src, p))
  {
    var ns := StandardNeurons(nI, nO);
    if rows > 0 {
      StandardLinksDistinct(nI, nO, rows - 1, src, p);
      StandardLinksAt(nI, nO, rows - 1, src, p);
      StandardLastRow(nI, nO, rows, src, p);
      var front := StandardLinks(ns, nI, nO, rows - 1, src, p);
      var base := (rows - 1) * nO;
      var row := StandardRow(ns, nI, nO, rows - 1, base, nO, src, p);
      forall k | 0 <= k < |front|
        ensures front[k].from < rows - 1
      {
        assert StartLinkAt(front, nI, nO, rows - 1, k);
      }
      AppendRowDistinct(front, row, rows - 1, nI + 1);
    }
  }

  /**
   * Appending a row of links that all start at `r`, past every start of the
   * links before them, and end at consecutive neurons from `t`, keeps the
   * endpoints distinct.
   */
  lemma AppendRowDistinct(front: seq<LinkGene>, row: seq<LinkGene>, r: int, t: int)
    requires DistinctEndpoints(front)
    requires forall k :: 0 <= k < |front| ==> front[k].from < r
    requires forall j :: 0 <= j < |row| ==> row[j].from == r && row[j].to == t + j
    ensures DistinctEndpoints(front + row)
  {
    var ls := front + row;
    forall k1, k2 | 0 <= k1 < k2 < |ls|
      ensures ls[k1].from != ls[k2].from || ls[k1].to != ls[k2].to
    {
      if k2 < |front| {
        assert ls[k1] == front[k1] && ls[k2] == front[k2];
      } else if k1 < |front| {
        assert ls[k1] == front[k1] && ls[k2] == row[k2 - |front|];
      } else {
        assert ls[k1] == row[k1 - |front|] && ls[k2] == row[k2 - |front|];
      }
    }
  }

  /** Every start link's endpoints are neurons of the standard layout. */
  lemma StandardLinksResolve(nI: int, nO: int, src: nat -> Draw, p: nat)
    requires 0 <= nI && 0 <= nO
    ensures LinksResolve(StandardNeurons(nI, nO),
      StandardLinks(StandardNeurons(nI, nO), nI, nO, nI + 1, src, p))
  {
    var ns := StandardNeurons(nI, nO);
    var ls := StandardLinks(ns, nI, nO, nI + 1, src, p);
    StandardLinksLayout(nI, nO, nI + 1, src, p);
    StandardNeuronsLayout(nI, nO);
    forall k | 0 <= k < |ls|
      ensures HasNeuron(ns, ls[k].from) && HasNeuron(ns, ls[k].to)
    {
      assert StartLinkAt(ls, nI, nO, nI + 1, k);
      assert ns[ls[k].from].id == ls[k].from;
      assert ns[ls[k].to].id == ls[k].to;
    }
  }

  /**
   * The ledger started from a standard genome numbers start link `k` as
   * `N + k` (N the neuron count), one less than the genome's own number for
   * that link, and its next fresh number equals the genome's last start-link
   * number, so the first new innovation collides with an existing gene's number.
   */
  lemma StartLedgerOffByOne(nI: int, nO: int, src: nat -> Draw, p: nat)
    requires 0 <= nI && 1 <= nO
    ensures var ns := StandardNeurons(nI, nO);
      var ls := StandardLinks(ns, nI, nO, nI + 1, src, p);
      var rs := StartRecords(ns, ls);
      (forall k :: 0 <= k < |ls| ==> FindInnovation(rs, ls[k].from, ls[k].to, NewLink) == ls[k].innovationID - 1) &&
      |ls| >= 1 && ls[|ls| - 1].innovationID == |ns| + |ls|
  {
    var ns := StandardNeurons(nI, nO);
    var ls := StandardLinks(ns, nI, nO, nI + 1, src, p);
    StandardLinksLayout(nI, nO, nI + 1, src, p);
    assert |ls| >= 1 by {
      assert |ls| == (nI + 1) * nO;
      assert (nI + 1) * nO >= 1 * 1;
    }
    assert StartLinkAt(ls, nI, nO, nI + 1, |ls| - 1);
    forall k | 0 <= k < |ls|
      ensures FindInnovation(StartRecords(ns, ls), ls[k].from, ls[k].to, NewLink) == ls[k].innovationID - 1
    {
      assert StartLinkAt(ls, nI, nO, nI + 1, k);
      StartLinkNumber(ns, ls, k);
    }
  }

  /** In a ledger started from links with distinct endpoints, start link `k` is found at entry `|ns| + k`. */
  lemma StartLinkNumber(ns: seq<NeuronGene>, ls: seq<LinkGene>, k: nat)
    requires DistinctEndpoints(ls) && k < |ls|
    ensures FindInnovation(StartRecords(ns, ls), ls[k].from, ls[k].to, NewLink) == |ns| + k
  {
    var rs := StartRecords(ns, ls);
    var at := |ns| + k;
    assert rs[at] == LinkRecord(ls[k].from, ls[k].to, at);
    forall j | 0 <= j < at
      ensures !Matches(rs[j], ls[k].from, ls[k].to, NewLink)
    {
      if j >= |ns| {
        assert rs[j] == LinkRecord(ls[j - |ns|].from, ls[j - |ns|].to, j);
      } else {
        assert rs[j] == NeuronRecord(ns[j], j, -1, -1);
      }
    }
    FirstMatchIs(rs, ls[k].from, ls[k].to, NewLink, at);
  }

  /** The first match is at `at` when `at` matches and nothing before it does. */
  lemma FirstMatchIs(rs: seq<InnovationRecord>, from: int, to: int, t: InnovationType, at: nat)
    requires at < |rs| && Matches(rs[at], from, to, t)
    requires forall j :: 0 <= j < at ==> !Matches(rs[j], from, to, t)
    ensures FirstMatch(rs, from, to, t, 0) == at
  {
  }
}
