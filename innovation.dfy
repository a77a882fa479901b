/**
 * The innovation ledger (`UInnovation`): the population-wide record of every
 * structural innovation, so that the same new neuron or new link arising in
 * two genomes receives the same number.
 *
 * The pure `Ledger` value describes the ledger's state and how each
 * operation changes it; the class `InnovationList` is the mutable ledger
 * whose methods are proved against those functions.
 */
module Innovation {
  import opened Globals
  import opened Genes

  /** `innovation_type`. */
  datatype InnovationType = NewNeuron | NewLink

  /** `FSInnovation`: one entry of the ledger. */
  datatype InnovationRecord = InnovationRecord(
    innovationID: int,
    innovationType: InnovationType,
    fromNeuron: int,
    toNeuron: int,
    neuronID: int,
    neuronType: NeuronType,
    splitX: real,
    splitY: real)

  /** The entry for a new link: no neuron, type `noType`, split values 0. */
  function LinkRecord(from: int, to: int, id: int): (r: InnovationRecord)
    ensures r.innovationType == NewLink && r.innovationID == id
    ensures r.fromNeuron == from && r.toNeuron == to
    ensures r.neuronID == -1 && r.neuronType == NoType && r.splitX == 0.0 && r.splitY == 0.0
  {
    InnovationRecord(id, NewLink, from, to, -1, NoType, 0.0, 0.0)
  }

  /** The entry for a new neuron: copies the gene's ID, type and split values. */
  function NeuronRecord(g: NeuronGene, id: int, from: int, to: int): (r: InnovationRecord)
    ensures r.innovationType == NewNeuron && r.innovationID == id
    ensures r.fromNeuron == from && r.toNeuron == to
    ensures r.neuronID == g.id && r.neuronType == g.neuronType
    ensures r.splitX == g.splitX && r.splitY == g.splitY
  {
    InnovationRecord(id, NewNeuron, from, to, g.id, g.neuronType, g.splitX, g.splitY)
  }

  /** An entry describes the innovation of the given kind between the given neurons. */
  predicate Matches(r: InnovationRecord, from: int, to: int, t: InnovationType)
  {
    r.innovationType == t && r.toNeuron == to && r.fromNeuron == from
  }

  /** The position of the first matching entry at or after `i`, or `|rs|` when there is none. */
  function FirstMatch(rs: seq<InnovationRecord>, from: int, to: int, t: InnovationType, i: nat): (k: nat)
    requires i <= |rs|
    ensures i <= k <= |rs|
    ensures k < |rs| ==> Matches(rs[k], from, to, t)
    ensures forall j :: i <= j < k ==> !Matches(rs[j], from, to, t)
    decreases |rs| - i
  {
    if i == |rs| then |rs|
    else if Matches(rs[i], from, to, t) then i
    else FirstMatch(rs, from, to, t, i + 1)
  }

  /** `CheckForInnovation` as a function: the number of the first matching entry, or -1. */
  function FindInnovation(rs: seq<InnovationRecord>, from: int, to: int, t: InnovationType): (id: int)
    ensures (forall k :: 0 <= k < |rs| ==> !Matches(rs[k], from, to, t)) ==> id == -1
    ensures (exists k :: 0 <= k < |rs| && Matches(rs[k], from, to, t)) ==>
      exists k :: 0 <= k < |rs| && Matches(rs[k], from, to, t) && id == rs[k].innovationID &&
        forall j :: 0 <= j < k ==> !Matches(rs[j], from, to, t)
  {
    var k := FirstMatch(rs, from, to, t, 0);
    if k < |rs| then rs[k].innovationID else -1
  }

  /** Some neuron entry carries the given neuron ID. */
  ghost predicate Registers(rs: seq<InnovationRecord>, neuronID: int)
  {
    exists k :: 0 <= k < |rs| && rs[k].innovationType == NewNeuron && rs[k].neuronID == neuronID
  }

  /** The position of the first neuron entry at or after `i` carrying `neuronID`, or `|rs|`. */
  function FirstNeuronEntry(rs: seq<InnovationRecord>, neuronID: int, i: nat): (k: nat)
    requires i <= |rs|
    ensures i <= k <= |rs|
    ensures k < |rs| ==> rs[k].innovationType == NewNeuron && rs[k].neuronID == neuronID
    ensures forall j :: i <= j < k ==> !(rs[j].innovationType == NewNeuron && rs[j].neuronID == neuronID)
    decreases |rs| - i
  {
    if i == |rs| then |rs|
    else if rs[i].innovationType == NewNeuron && rs[i].neuronID == neuronID then i
    else FirstNeuronEntry(rs, neuronID, i + 1)
  }

  /**
   * `CreateNeuronFromID` as a function: a copy of the first neuron entry with
   * that ID, or the default gene when the ID was never registered.
   */
  function NeuronFromEntries(rs: seq<InnovationRecord>, neuronID: int): (g: NeuronGene)
    ensures Registers(rs, neuronID) ==> g.id == neuronID
    ensures !Registers(rs, neuronID) ==> g == DefaultNeuronGene()
    ensures g.id == neuronID || g == DefaultNeuronGene()
    ensures Registers(rs, neuronID) ==>
      exists k :: 0 <= k < |rs| && rs[k].innovationType == NewNeuron && rs[k].neuronID == neuronID &&
        g == NeuronGene(neuronID, rs[k].neuronType, rs[k].splitX, rs[k].splitY)
  {
    var k := FirstNeuronEntry(rs, neuronID, 0);
    if k < |rs| then NeuronGene(neuronID, rs[k].neuronType, rs[k].splitX, rs[k].splitY)
    else DefaultNeuronGene()
  }

  /** The ledger's state: its entries and its two counters. */
  datatype Ledger = Ledger(records: seq<InnovationRecord>, nextNeuronID: int, nextInnovationID: int)
  {
    /** Entry `k` carries innovation number `k`; the next number is the entry count. */
    ghost predicate Indexed()
    {
      nextInnovationID == |records| &&
      forall k :: 0 <= k < |records| ==> records[k].innovationID == k
    }

    /**
     * The ledger invariant: entries are numbered by position, every neuron ID
     * below the neuron counter is registered, every neuron entry carries an ID
     * below the counter (or -1), and link entries carry no neuron.
     */
    ghost predicate Valid()
    {
      Indexed() &&
      0 <= nextNeuronID &&
      (forall id :: 0 <= id < nextNeuronID ==> Registers(records, id)) &&
      (forall k :: 0 <= k < |records| && records[k].innovationType == NewNeuron ==>
        -1 <= records[k].neuronID < nextNeuronID) &&
      (forall k :: 0 <= k < |records| && records[k].innovationType == NewLink ==>
        records[k].neuronID == -1)
    }

    /** The state after `CreateNewLinkInnovation(from, to)`. */
    function AddLink(from: int, to: int): (l: Ledger)
      ensures l.records == records + [LinkRecord(from, to, nextInnovationID)]
      ensures l.nextNeuronID == nextNeuronID && l.nextInnovationID == nextInnovationID + 1
    {
      Ledger(records + [LinkRecord(from, to, nextInnovationID)], nextNeuronID, nextInnovationID + 1)
    }

    /** The state after `CreateNewNeuronInnovation(g, from, to)`. */
    function AddNeuron(g: NeuronGene, from: int, to: int): (l: Ledger)
      ensures l.records == records + [NeuronRecord(g, nextInnovationID, from, to)]
      ensures l.nextNeuronID == nextNeuronID + 1 && l.nextInnovationID == nextInnovationID + 1
    {
      Ledger(records + [NeuronRecord(g, nextInnovationID, from, to)], nextNeuronID + 1, nextInnovationID + 1)
    }
  }

  /** `l` grew from `earlier`: the earlier entries are a prefix and the neuron counter did not fall. */
  ghost predicate Extends(l: Ledger, earlier: Ledger)
  {
    |earlier.records| <= |l.records| && l.records[..|earlier.records|] == earlier.records &&
    earlier.nextNeuronID <= l.nextNeuronID
  }

  /** Recording a link keeps the ledger invariant and extends the ledger. */
  lemma {:induction false} AddLinkKeepsValid(l: Ledger, from: int, to: int)
    requires l.Valid()
    ensures l.AddLink(from, to).Valid()
    ensures Extends(l.AddLink(from, to), l)
  {
    var n := l.AddLink(from, to);
    forall id | 0 <= id < n.nextNeuronID
      ensures Registers(n.records, id)
    {
      assert Registers(l.records, id);
      var k :| 0 <= k < |l.records| && l.records[k].innovationType == NewNeuron && l.records[k].neuronID == id;
      assert n.records[k] == l.records[k];
    }
  }

  /** Recording a neuron whose ID is the next neuron ID keeps the invariant and extends the ledger. */
  lemma {:induction false} AddNeuronKeepsValid(l: Ledger, g: NeuronGene, from: int, to: int)
    requires l.Valid() && g.id == l.nextNeuronID
    ensures l.AddNeuron(g, from, to).Valid()
    ensures Extends(l.AddNeuron(g, from, to), l)
  {
    var n := l.AddNeuron(g, from, to);
    forall id | 0 <= id < n.nextNeuronID
      ensures Registers(n.records, id)
    {
      if id == g.id {
        assert n.records[|l.records|].neuronID == id;
      } else {
        assert Registers(l.records, id);
        var k :| 0 <= k < |l.records| && l.records[k].innovationType == NewNeuron && l.records[k].neuronID == id;
        assert n.records[k] == l.records[k];
      }
    }
  }

  /** In an indexed ledger the number found for an innovation is the position of its entry. */
  lemma FindInnovationIsPosition(l: Ledger, from: int, to: int, t: InnovationType)
    requires l.Indexed()
    ensures -1 <= FindInnovation(l.records, from, to, t) < |l.records|
    ensures FindInnovation(l.records, from, to, t) >= 0 ==>
      Matches(l.records[FindInnovation(l.records, from, to, t)], from, to, t)
  {
  }

  /** The entries `Initialize` records for a start genome: neurons first, then links. */
  function StartRecords(startNeurons: seq<NeuronGene>, startLinks: seq<LinkGene>): (rs: seq<InnovationRecord>)
    ensures |rs| == |startNeurons| + |startLinks|
  {
    seq(|startNeurons|, k requires 0 <= k < |startNeurons| => NeuronRecord(startNeurons[k], k, -1, -1)) +
    seq(|startLinks|, k requires 0 <= k < |startLinks| =>
      LinkRecord(startLinks[k].from, startLinks[k].to, |startNeurons| + k))
  }

  /**
   * A ledger started from neurons numbered 0, 1, 2, ... in order satisfies the
   * ledger invariant, so the entry of start link `k` carries number `|neurons| + k`.
   */
  lemma {:induction false} StartLedgerValid(startNeurons: seq<NeuronGene>, startLinks: seq<LinkGene>)
    requires forall k :: 0 <= k < |startNeurons| ==> startNeurons[k].id == k
    ensures Ledger(StartRecords(startNeurons, startLinks), |startNeurons|, |startNeurons| + |startLinks|).Valid()
  {
    var rs := StartRecords(startNeurons, startLinks);
    forall id | 0 <= id < |startNeurons|
      ensures Registers(rs, id)
    {
      assert rs[id].innovationType == NewNeuron && rs[id].neuronID == id;
    }
  }

  /** `UInnovation`: the mutable ledger. */
  class InnovationList {
    var innovations: seq<InnovationRecord>
    var nextNeuronID: int
    var nextInnovationID: int

    /** The ledger's state as a value. */
    function State(): Ledger
      reads this
    {
      Ledger(innovations, nextNeuronID, nextInnovationID)
    }

    ghost predicate Valid()
      reads this
    {
      State().Valid()
    }

    /** An empty ledger; both counters start at zero. */
    constructor ()
      ensures innovations == [] && nextNeuronID == 0 && nextInnovationID == 0
    {
      innovations := [];
      nextNeuronID := 0;
      nextInnovationID := 0;
    }

    /**
     * `Initialize`: resets both counters, then records every start neuron and
     * every start link in turn.  Earlier entries are not removed.
     */
    method Initialize(startLinks: seq<LinkGene>, startNeurons: seq<NeuronGene>)
      modifies this
      ensures innovations == old(innovations) + StartRecords(startNeurons, startLinks)
      ensures nextNeuronID == |startNeurons| && nextInnovationID == |startNeurons| + |startLinks|
      ensures old(innovations) == [] && (forall k :: 0 <= k < |startNeurons| ==> startNeurons[k].id == k)
        ==> Valid()
    {
      ghost var start := innovations;
      nextNeuronID := 0;
      nextInnovationID := 0;
      var k := 0;
      while k < |startNeurons|
        invariant 0 <= k <= |startNeurons|
        invariant nextNeuronID == k && nextInnovationID == k
        invariant innovations == start + seq(k, j requires 0 <= j < k => NeuronRecord(startNeurons[j], j, -1, -1))
      {
        var _ := CreateNewNeuronInnovation(startNeurons[k]);
        k := k + 1;
      }
      k := 0;
      while k < |startLinks|
        invariant 0 <= k <= |startLinks|
        invariant nextNeuronID == |startNeurons| && nextInnovationID == |startNeurons| + k
        invariant innovations == start +
          seq(|startNeurons|, j requires 0 <= j < |startNeurons| => NeuronRecord(startNeurons[j], j, -1, -1)) +
          seq(k, j requires 0 <= j < k => LinkRecord(startLinks[j].from, startLinks[j].to, |startNeurons| + j))
      {
        var _ := CreateNewLinkInnovation(startLinks[k].from, startLinks[k].to);
        k := k + 1;
      }
      if start == [] && forall j :: 0 <= j < |startNeurons| ==> startNeurons[j].id == j {
        assert innovations == StartRecords(startNeurons, startLinks);
        StartLedgerValid(startNeurons, startLinks);
      }
    }

    /** `CheckForInnovation`: the number of the first matching entry, or -1. */
    method CheckForInnovation(from: int, to: int, t: InnovationType) returns (id: int)
      ensures id == FindInnovation(innovations, from, to, t)
    {
      var k := 0;
      while k < |innovations|
        invariant 0 <= k <= |innovations|
        invariant FirstMatch(innovations, from, to, t, 0) == FirstMatch(innovations, from, to, t, k)
      {
        var cur := innovations[k];
        if cur.innovationType == t && cur.toNeuron == to && cur.fromNeuron == from {
          return cur.innovationID;
        }
        k := k + 1;
      }
      return -1;
    }

    /** `CreateNewLinkInnovation`: appends a link entry and returns its number. */
    method CreateNewLinkInnovation(from: int, to: int) returns (id: int)
      modifies this
      ensures State() == old(State()).AddLink(from, to)
      ensures id == old(nextInnovationID)
      ensures old(Valid()) ==> Valid() && Extends(State(), old(State()))
    {
      ghost var before := State();
      innovations := innovations + [LinkRecord(from, to, nextInnovationID)];
      id := nextInnovationID;
      nextInnovationID := nextInnovationID + 1;
      if before.Valid() {
        AddLinkKeepsValid(before, from, to);
      }
    }

    /**
     * `CreateNewNeuronInnovation`: appends a neuron entry, advances the neuron
     * counter and returns the entry's number.
     */
    method CreateNewNeuronInnovation(g: NeuronGene, from: int := -1, to: int := -1) returns (id: int)
      modifies this
      ensures State() == old(State()).AddNeuron(g, from, to)
      ensures id == old(nextInnovationID)
      ensures old(Valid()) && g.id == old(nextNeuronID) ==> Valid() && Extends(State(), old(State()))
    {
      ghost var before := State();
      innovations := innovations + [NeuronRecord(g, nextInnovationID, from, to)];
      nextNeuronID := nextNeuronID + 1;
      id := nextInnovationID;
      nextInnovationID := nextInnovationID + 1;
      if before.Valid() && g.id == before.nextNeuronID {
        AddNeuronKeepsValid(before, g, from, to);
      }
    }

    /** `CreateNeuronFromID`: a copy of the registered neuron, or the default gene. */
    method CreateNeuronFromID(neuronID: int) returns (g: NeuronGene)
      ensures g == NeuronFromEntries(innovations, neuronID)
    {
      var k := 0;
      while k < |innovations|
        invariant 0 <= k <= |innovations|
        invariant FirstNeuronEntry(innovations, neuronID, 0) == FirstNeuronEntry(innovations, neuronID, k)
      {
        var cur := innovations[k];
        if cur.innovationType == NewNeuron && cur.neuronID == neuronID {
          return NeuronGene(neuronID, cur.neuronType, cur.splitX, cur.splitY);
        }
        k := k + 1;
      }
      return DefaultNeuronGene();
    }

    /**
     * `GetNeuronID`: the neuron ID stored in the entry at the given position;
     * in a valid ledger that is -1 for a link entry and a registered ID
     * (or -1) for a neuron entry.
     */
    function GetNeuronID(innovationID: int): (r: int)
      requires 0 <= innovationID < |innovations|
      reads this
      ensures Valid() && innovations[innovationID].innovationType == NewLink ==> r == -1
      ensures Valid() && innovations[innovationID].innovationType == NewNeuron ==> -1 <= r < nextNeuronID
    {
      innovations[innovationID].neuronID
    }

    /** `Clear`: removes every entry but keeps both counters. */
    method Clear()
      modifies this`innovations
      ensures innovations == [] && nextNeuronID == old(nextNeuronID) && nextInnovationID == old(nextInnovationID)
    {
      innovations := [];
    }

    /** `GetNextInnovationID`. */
    function GetNextInnovationID(): int
      reads this
    {
      nextInnovationID
    }

    /** `GetNextNeuronID`. */
    function GetNextNeuronID(): int
      reads this
    {
      nextNeuronID
    }
  }

  /** Clearing a ledger that holds entries breaks the numbering of later entries. */
  lemma ClearBreaksIndexing(l: Ledger)
    requires l.Indexed() && l.nextInnovationID > 0
    ensures !Ledger([], l.nextNeuronID, l.nextInnovationID).Indexed()
  {
  }
}
