# NEAT engine of NEATShooter, modelled in Dafny

NEATShooter evolves the neural networks that steer its spaceships with
NEAT (NeuroEvolution of Augmenting Topologies). This project models the
engine's sequential part and proves properties of it:

- the innovation ledger;
- the genome with its mutations and its compatibility distance;
- species bookkeeping with fitness sharing;
- the genetic algorithm: culling, speciation, spawn amounts, the
  reproduction loop with crossover and tournament backfill, and the
  split-depth table;
- the phenotype's forward pass.

The model follows the C++ code as written, including its quirks. Each
quirk is proved as a property of the model:

- `InitializeWeights` changes no weight.
- `MutateAddNode` leaves the split link enabled.
- `ToggleLinkGenes` keeps one link iterator across all its tries.
- On a full tie, crossover picks the father.
- The elite copy keeps its old ID.
- The 10% threshold floor never fires for a threshold that is not negative.
- The ledger numbers the start links one lower than the genomes do.
- The compatibility score divides by zero when no gene matches (a NaN score).
- `GetTopGenome` can index past the end of a species' member list.

Modules, in dependency order:

| module | file | models |
|---|---|---|
| `Globals` | globals.dfy | `Globals.h`: `Round`, `BiggerInt`, the random helpers and the `rand()` stream as an `Rng` object |
| `Genes` | genes.dfy | the neuron and link genes of `Genotype.h` |
| `Parameters` | parameters.dfy | the parameter defaults |
| `Innovation` | innovation.dfy | `Innovation.h` and `Innovation.cpp` |
| `GenomeLayout` | genome_layout.dfy | the start genome of `InitializeStandard` |
| `Sorting` | sorting.dfy | `TArray::Sort`, modelled by an insertion sort; only the order and the permutation are stated |
| `Ranking` | ranking.dfy | the fittest-first order of genomes |
| `Genotype` | genome.dfy | the `UGenome` class |
| `Compatibility` | compatibility.dfy | the merge in `GetCompatibilityScore` |
| `LinkMutation` | link_mutation.dfy | the toggle, re-enable and weight mutations |
| `StructuralMutation` | structural_mutation.dfy | add-node and add-link |
| `Speciation` | species.dfy | the `USpecies` class |
| `Phenotype` | phenotype.dfy | `UNeuralNet`, `UNeuron`, `ULink` |
| `Selection` | generation.dfy | split-depth table, tournament, threshold, first-fit speciation, offspring share |
| `Breeding` | breeding.dfy | the mutation sequence applied to a child |
| `Reproduction` | reproduction.dfy | the choices of the reproduction loop: mother, father, crossover, quotas, backfill |
| `Mating` | crossover.dfy | crossover |
| `Evolution` | evolution.dfy | the `UGeneticAlgorithm` class |

How the C++ maps onto Dafny:

- **Ownership.** Objects whose fields the C++ updates in place become Dafny classes: `Genome`, `InnovationList`, `Species`, `NeuralNet`, `GeneticAlgorithm` and `Rng`. Their `TArray` fields become `seq` fields that the methods reassign. The phenotype's neuron outputs become an `array<real>`.
- **Randomness.** Every call to `rand()` reads the next value of a fixed stream, `Rng.source`, at the cursor `Rng.pos`. The function-level specifications take the stream and the cursor as inputs.
- **Methods and their specifications.** Most methods are proved equal to a function on values, and those functions' properties are proved as lemmas. Where a step updates several objects at once, the method's contract states the new state directly. Speciation names the first compatible species of each genome (`FirstFit`). The reproduction loop names each species' children: how many (`Quotas`), the elite copy first, then, turn by turn (`SpawnNext`), the child `ChildChoice` picks and `Mutated` mutates. The contracts of the whole loop (`SpawnSpecies`, `SpawnAll`) state the counts, the order, soundness and the elite copy, not the content of each later child. The backfill names the tournament winners (`Winner`).
- **Undefined behaviour.** Where the C++ has undefined behaviour (an index out of range, a division by zero), the generation step returns `Failure`. The lower-level steps yield `null`, `-1` or a NaN score instead.

## Model

| member | source | states |
|---|---|---|
| Globals.Trunc | Source/NEATShooter/Globals.h:79 | the C++ cast `(int)v`: the integer next to `v` towards zero |
| Globals.Round | Source/NEATShooter/Globals.h:77-91 | floor when the fraction is below one half and floor + 1 otherwise, for `v >= 0`; truncation toward zero for negative `v` |
| Globals.RoundNonNegativeIsNearest | Source/NEATShooter/Globals.h:77-91 | for `v >= 0` the result lies within one half of `v` |
| Globals.RoundNegativeTruncates | Source/NEATShooter/Globals.h:79-85 | negative values truncate: `Round(-0.7) == 0` and `Round(-1.5) == -1` |
| Globals.BiggerInt | Source/NEATShooter/Globals.h:143-161 | the result is one of the arguments and at least both, so it is their maximum; the `-1` branch is unreachable |
| Globals.DefaultSplitDepth | Source/NEATShooter/Globals.h:104 | the default split-depth entry has value 0 and depth -1 |
| Globals.UnitOf | Source/NEATShooter/Globals.h:137 | a draw divided by `RAND_MAX + 1` lies in [0, 1) |
| Globals.RandFloatOf | Source/NEATShooter/Globals.h:131-140 | the result lies in [min, max) when min < max, equals min when they are equal, and lies in (max, min] when max < min |
| Globals.ScaleBelow | Source/NEATShooter/Globals.h:137-139 | a unit draw scaled by a positive span lies in [0, span) |
| Globals.ScaleAbove | Source/NEATShooter/Globals.h:137-139 | a unit draw scaled by a negative span lies in (span, 0] |
| Globals.CMod | Source/NEATShooter/Globals.h:128 | the C remainder of a non-negative value: below the absolute value of the divisor, and Dafny's `%` for a positive divisor |
| Globals.RandIntOf | Source/NEATShooter/Globals.h:128 | in [x, y] whenever x <= y; for y + 1 < x the modulus is negative and the result lies in [x, 2x - y - 1) |
| Globals.RandomClampedOf | Source/NEATShooter/Globals.h:175 | the difference of two unit draws lies strictly between -1 and 1 |
| Globals.RandBoolOf | Source/NEATShooter/Globals.h:164-172 | true exactly when the draw modulo 10 is below 5, that is `RandInt(1, 10) <= 5` |
| Globals.Rng.constructor | Source/NEATShooter/Globals.h:128 | a stream read from its first value |
| Globals.Rng.Rand | Source/NEATShooter/Globals.h:128 | returns the value at the cursor and advances the cursor by one |
| Globals.Rng.RandFloat | Source/NEATShooter/Globals.h:131-140 | one draw, scaled to [min, max) |
| Globals.Rng.RandUnit | Source/NEATShooter/Globals.h:131-140 | `RandFloat()` with its default range [0, 1): one draw |
| Globals.Rng.RandInt | Source/NEATShooter/Globals.h:128 | one draw, reduced to the range as `RandIntOf` says |
| Globals.Rng.RandomClamped | Source/NEATShooter/Globals.h:175 | two draws, first minus second |
| Genes.DefaultNeuronGene | Source/NEATShooter/Genotype.h:48 | the default neuron gene: ID -1, no type, split coordinates -1 |
| Genes.MakeNeuronGene | Source/NEATShooter/Genotype.h:49 | the constructor stores type, ID and coordinates and drops the activation argument |
| Genes.DefaultLinkGene | Source/NEATShooter/Genotype.h:79 | the default link gene: endpoints -1, weight -1, disabled, innovation -1, not recurrent |
| Genes.InnovationIDs | Source/NEATShooter/Genotype.h:83-86 | the innovation numbers of a link list, in order: the only key the link order compares |
| Genes.SortLinks | Source/NEATShooter/Genotype.h:83-86 | sorting links by `operator<` yields ascending innovation numbers and a permutation of the links |
| Genes.NeuronPosFrom | Source/NEATShooter/Genotype.cpp:519-531 | the first position at or after `i` holding the ID, or -1 when there is none |
| Genes.NeuronPos | Source/NEATShooter/Genotype.cpp:519-531 | the first position holding the ID; -1 exactly when the genome lacks it |
| Parameters.DefaultParams | Source/NEATShooter/Parameters.cpp:21-63 | the engine's parameter defaults (population 100, survival rate 0.4, ...) |
| Parameters.DefaultParamsOk | Source/NEATShooter/Parameters.cpp:21-63 | the defaults satisfy `Params.Ok()` (a population of at least one, at most that many recorded best genomes, a survival rate in [0, 0.5)), the condition under which `CopyTop`, `FindFather` and `MateOrClone` never fail |
| Innovation.LinkRecord | Source/NEATShooter/Innovation.h:63-64 | a link record: type new link, neuron ID -1, no neuron type, split coordinates 0 |
| Innovation.NeuronRecord | Source/NEATShooter/Innovation.h:67-68 | a neuron record copies the gene's ID, type and split coordinates |
| Innovation.FirstMatch | Source/NEATShooter/Innovation.cpp:42-58 | the first position at or after `i` with that signature (from, to, type), or the end |
| Innovation.FindInnovation | Source/NEATShooter/Innovation.cpp:42-58 | -1 when no record has the signature; otherwise the innovation ID of the first record that does |
| Innovation.FirstNeuronEntry | Source/NEATShooter/Innovation.cpp:77-94 | the first new-neuron record at or after `i` for that neuron ID, or the end |
| Innovation.NeuronFromEntries | Source/NEATShooter/Innovation.cpp:77-94 | the recorded type and coordinates under the requested ID when a new-neuron record has that ID, and the default gene otherwise |
| Innovation.Ledger.AddLink | Source/NEATShooter/Innovation.cpp:60-66 | appends one link record under the next innovation number; only that counter grows |
| Innovation.Ledger.AddNeuron | Source/NEATShooter/Innovation.cpp:68-75 | appends one neuron record under the next innovation number; both counters grow by one |
| Innovation.AddLinkKeepsValid | Source/NEATShooter/Innovation.cpp:62-65 | a link record keeps innovation ID == list index and extends the ledger |
| Innovation.AddNeuronKeepsValid | Source/NEATShooter/Innovation.cpp:70-74 | a neuron record under the next neuron ID keeps the ledger valid and extends it |
| Innovation.FindInnovationIsPosition | Source/NEATShooter/Innovation.cpp:42-58 | in an indexed ledger the ID found is a position of a record with that signature |
| Innovation.StartRecords | Source/NEATShooter/Innovation.cpp:24-40 | one record per start neuron and start link |
| Innovation.StartLedgerValid | Source/NEATShooter/Innovation.cpp:24-40 | a ledger started from neurons numbered by position is valid: entry k has ID k, neurons first |
| Innovation.InnovationList.constructor | Source/NEATShooter/Innovation.cpp:20-22 | an empty ledger with both counters at 0 |
| Innovation.InnovationList.Initialize | Source/NEATShooter/Innovation.cpp:24-40 | appends the start records; neuron counter = \|neurons\|, innovation counter = \|neurons\| + \|links\|; valid when it started empty and the neuron IDs equal their positions |
| Innovation.InnovationList.CheckForInnovation | Source/NEATShooter/Innovation.cpp:42-58 | read-only: the ID of the first record with the signature, or -1 |
| Innovation.InnovationList.CreateNewLinkInnovation | Source/NEATShooter/Innovation.cpp:60-66 | returns the old innovation counter and appends under it; neuron counter untouched; validity kept and the ledger extended |
| Innovation.InnovationList.CreateNewNeuronInnovation | Source/NEATShooter/Innovation.cpp:68-75 | returns the old innovation counter; both counters grow; the stored neuron ID is the gene's; validity kept when the gene carries the next neuron ID |
| Innovation.InnovationList.CreateNeuronFromID | Source/NEATShooter/Innovation.cpp:77-94 | the gene rebuilt from the first new-neuron record for the ID, or the default gene |
| Innovation.InnovationList.GetNeuronID | Source/NEATShooter/Innovation.h:106 | in a valid ledger: -1 for a link record, a neuron ID below the counter for a neuron record |
| Innovation.InnovationList.Clear | Source/NEATShooter/Innovation.h:107 | empties the records and keeps both counters |
| Innovation.ClearBreaksIndexing | Source/NEATShooter/Innovation.h:107-109 | after `Clear` on a ledger that has issued numbers, ID == index no longer holds |
| GenomeLayout.InputGenes | Source/NEATShooter/Genotype.cpp:50-53 | the input neurons, one per input, in order |
| GenomeLayout.OutputGenes | Source/NEATShooter/Genotype.cpp:61-64 | the output neurons, one per output, in order |
| GenomeLayout.StandardNeurons | Source/NEATShooter/Genotype.cpp:48-64 | inputs + 1 bias + outputs neurons |
| GenomeLayout.StandardRow | Source/NEATShooter/Genotype.cpp:70-77 | a row of n start links (one per output for a full row) |
| GenomeLayout.StandardLinks | Source/NEATShooter/Genotype.cpp:67-78 | (rows) × outputs start links |
| GenomeLayout.StandardNeuronsLayout | Source/NEATShooter/Genotype.cpp:48-64 | IDs 0.. in order; inputs at depth 0, then the bias, then outputs at depth 1 |
| GenomeLayout.StandardRowAt | Source/NEATShooter/Genotype.cpp:70-77 | each row link is enabled, not recurrent, from the row's neuron to output j, numbered nI + nO + 2 + its index |
| GenomeLayout.StandardLinksLayout | Source/NEATShooter/Genotype.cpp:67-78 | every start link has that shape and no two share both endpoints |
| GenomeLayout.StandardLastRow | Source/NEATShooter/Genotype.cpp:67-78 | the start links are those of the earlier rows followed by the last row |
| GenomeLayout.StandardLinksAt | Source/NEATShooter/Genotype.cpp:67-78 | start link k is enabled, not recurrent, numbered nI + nO + 2 + k, and runs from one of the row neurons to an output |
| GenomeLayout.StandardLinksDistinct | Source/NEATShooter/Genotype.cpp:67-78 | no two start links share both endpoints |
| GenomeLayout.StandardLinksResolve | Source/NEATShooter/Genotype.cpp:36-81 | every start link's endpoints are neurons of the start genome |
| GenomeLayout.StartLedgerOffByOne | Source/NEATShooter/Innovation.cpp:35-39 | the ledger holds each start link one number lower than the genome carries it, and the ledger's next number equals the last start link's number |
| GenomeLayout.StartLinkNumber | Source/NEATShooter/Innovation.cpp:35-39 | start link k is recorded under \|neurons\| + k |
| Sorting.InsertByPermutes | Source/NEATShooter/Genotype.cpp:533-536 | inserting adds exactly that element |
| Sorting.InsertBySorted | Source/NEATShooter/Genotype.cpp:533-536 | inserting into a sorted list keeps it sorted |
| Sorting.SortBySortsAndPermutes | Source/NEATShooter/Genotype.cpp:533-536 | the sort result is sorted by the key and a permutation of the input |
| Ranking.SortByFitness | Source/NEATShooter/Genotype.h:152-155 | the genomes reordered fittest first, as a permutation |
| Ranking.InsertByFitness | Source/NEATShooter/Species.cpp:71-74 | one genome inserted into a fittest-first list: a permutation with it added, still fittest first |
| Ranking.InsertKeepsOrder | Source/NEATShooter/Genotype.h:152-155 | placing a genome after the fitter ones and before the less fit keeps the order |
| Genotype.NetLink | Source/NEATShooter/Genotype.cpp:486-492 | a phenotype link reads two neurons of the net |
| Genotype.LinksInto | Source/NEATShooter/Genotype.cpp:478-501 | every incoming link of a neuron reads a neuron of the net |
| Genotype.NetNeurons | Source/NEATShooter/Genotype.cpp:466-475 | one phenotype neuron per neuron gene |
| Genotype.LinksIntoExactly | Source/NEATShooter/Genotype.cpp:478-501 | a link enters the neuron at p exactly when some enabled gene ending there gives rise to it |
| Genotype.LinksOutOfExactly | Source/NEATShooter/Genotype.cpp:478-501 | a link leaves the neuron at p exactly when some enabled gene starting there gives rise to it |
| Genotype.NetNeuronsWellFormed | Source/NEATShooter/Genotype.cpp:460-504 | the wired net reads only its own neurons, and each enabled gene is among the incoming links of its target and the outgoing links of its source |
| Genotype.NetNeuronsStep | Source/NEATShooter/Genotype.cpp:478-501 | wiring one more gene appends its link to the source's out-links and the target's in-links, or nothing for a disabled gene |
| Genotype.RowMaxBounds | Source/NEATShooter/Genotype.cpp:548-556 | the inner depth loop yields the largest matching table depth above its start value |
| Genotype.NetMaxBounds | Source/NEATShooter/Genotype.cpp:543-560 | the outer depth loop yields at least its start value and at least every matching table depth |
| Genotype.NetDepthMeaning | Source/NEATShooter/Genotype.cpp:543-560 | the depth is 2 + the largest table depth whose value equals some neuron's split-y, hence at least 2 |
| Genotype.Genome.constructor | Source/NEATShooter/Genotype.cpp:25-34 | an empty genome with every number 0 |
| Genotype.Genome.Copy | Source/NEATShooter/GeneticAlgorithm.cpp:119 | `NewObject` with a template: a copy of every field, the phenotype reference included |
| Genotype.Genome.InitializeStandard | Source/NEATShooter/Genotype.cpp:36-81 | appends the standard neurons and the fully connected start links; each weight is `RandomClamped()`, two draws per link |
| Genotype.Genome.AddStandardNeurons | Source/NEATShooter/Genotype.cpp:48-64 | appends the inputs, the bias and the outputs |
| Genotype.Genome.AddInputNeurons | Source/NEATShooter/Genotype.cpp:48-53 | appends the input neurons, spread along the bottom row |
| Genotype.Genome.AddOutputNeurons | Source/NEATShooter/Genotype.cpp:58-64 | appends the output neurons, spread along the top row |
| Genotype.Genome.AddStandardLinks | Source/NEATShooter/Genotype.cpp:66-78 | appends the start links row by row; two draws per link |
| Genotype.Genome.AddStartRow | Source/NEATShooter/Genotype.cpp:70-77 | appends one row of start links and advances the link number by the number of outputs |
| Genotype.Genome.InitializeCustom | Source/NEATShooter/Genotype.cpp:83-95 | stores the given genes and counts, clears fitness and spawn amount |
| Genotype.Genome.InitializeWeights | Source/NEATShooter/Genotype.cpp:97-103 | one draw per link, and no weight changes, because the loop writes to copies |
| Genotype.Genome.GenomeAlreadyHasNeuronID | Source/NEATShooter/Genotype.cpp:373-383 | true exactly when some neuron gene has the ID |
| Genotype.Genome.DuplicateLink | Source/NEATShooter/Genotype.cpp:506-517 | true exactly when a link joins the two neurons in that direction |
| Genotype.Genome.GetNeuronPosFromID | Source/NEATShooter/Genotype.cpp:519-531 | the first position with the ID, or -1 |
| Genotype.Genome.GetCompatibilityScore | Source/NEATShooter/Genotype.cpp:385-458 | the two-index loop computes the merge walk's counts and score |
| Genotype.Genome.ToggleLinkGenes | Source/NEATShooter/Genotype.cpp:105-140 | links and cursor end as `ToggleTries` says: the tries share one scan position over the links; any list is accepted on which no try picks from an empty list |
| Genotype.Genome.ReenableLinkGenes | Source/NEATShooter/Genotype.cpp:142-154 | one draw per disabled link, enabled when below the chance |
| Genotype.Genome.MutateWeights | Source/NEATShooter/Genotype.cpp:156-174 | per link: a draw against the rate, a draw against the new-weight chance, then a fresh or perturbed weight |
| Genotype.Genome.MutateWeight | Source/NEATShooter/Genotype.cpp:160-172 | one link's round of the weight mutation |
| Genotype.Genome.ReplaceWeight | Source/NEATShooter/Genotype.cpp:165 | only that link's weight changes, to `RandomClamped()` |
| Genotype.Genome.PerturbWeight | Source/NEATShooter/Genotype.cpp:169 | only that link's weight changes, moved by a draw in [-power, power) |
| Genotype.Genome.MutateAddNode | Source/NEATShooter/Genotype.cpp:176-293 | neurons, links and ledger end as the add-node specification says |
| Genotype.Genome.FindLinkToSplit | Source/NEATShooter/Genotype.cpp:188-212 | the search loop: up to `tries` draws, stopping at the first splittable link |
| Genotype.Genome.SplitLinkAt | Source/NEATShooter/Genotype.cpp:214-292 | the split of the chosen link, as `SplitLink` says |
| Genotype.Genome.AddFreshSplit | Source/NEATShooter/Genotype.cpp:245-266 | a new hidden neuron under the next neuron ID and three ledger entries; the in-link has weight 1 |
| Genotype.Genome.AddReusedSplit | Source/NEATShooter/Genotype.cpp:269-292 | the recorded neuron ID reused, links numbered from the ledger, ledger unchanged; the out-link has weight 1 |
| Genotype.Genome.MutateAddLink | Source/NEATShooter/Genotype.cpp:295-371 | neurons, links, ledger and stream end as the add-link specification says |
| Genotype.Genome.ConnectNeurons | Source/NEATShooter/Genotype.cpp:339-370 | the link appended once a pair is found |
| Genotype.Genome.AppendLink | Source/NEATShooter/Genotype.cpp:351-370 | the new link gets the ledger's number for it, or the next number, which is then recorded |
| Genotype.Genome.FindNeuronPair | Source/NEATShooter/Genotype.cpp:310-337 | the pair search loop as `FindLinkPair` says |
| Genotype.Genome.TryNeuronPair | Source/NEATShooter/Genotype.cpp:312-336 | one round of the search; a hit ends the search, a miss leaves one try fewer |
| Genotype.Genome.CreatePhenotype | Source/NEATShooter/Genotype.cpp:460-504 | a fresh valid net whose neurons are the wired genes, with the genome's depth |
| Genotype.Genome.DeletePhenotype | Source/NEATShooter/Genotype.cpp:538-541 | the phenotype reference is dropped |
| Genotype.Genome.SortGenes | Source/NEATShooter/Genotype.cpp:533-536 | the links sorted by innovation number, the same genes as before |
| Genotype.Genome.CalculateNetDepth | Source/NEATShooter/Genotype.cpp:543-560 | depth = 2 + the largest matching table depth (see `NetDepthMeaning`) |
| Compatibility.TallyCounts | Source/NEATShooter/Genotype.cpp:385-445 | excess + disjoint + 2 × matching = the genes walked; matching is at most either side; the weight difference is not negative |
| Compatibility.TallySymmetric | Source/NEATShooter/Genotype.cpp:385-445 | swapping the genomes leaves counts and the weight sum unchanged |
| Compatibility.CompatibilitySymmetric | Source/NEATShooter/Genotype.cpp:385-458 | the distance is symmetric |
| Compatibility.DisjointGenomesNoMatch | Source/NEATShooter/Genotype.cpp:410-434 | genomes sharing no innovation number have no matching gene |
| Compatibility.NaNScore | Source/NEATShooter/Genotype.cpp:455 | the score is NaN exactly when nothing matches, in particular for disjoint genomes |
| Compatibility.TallySelf | Source/NEATShooter/Genotype.cpp:385-445 | a link list walked against itself: every gene matches, no excess, no disjoint, no weight difference |
| Compatibility.SelfCompatibility | Source/NEATShooter/Genotype.cpp:385-458 | a genome with a link is at distance 0 from itself |
| Compatibility.ScoreNonNegative | Source/NEATShooter/Genotype.cpp:448-457 | with non-negative coefficients a numeric score is not negative |
| LinkMutation.AdvanceCheck | Source/NEATShooter/Genotype.cpp:118-127 | the scan stops at the next other enabled link from the same source, or at the end |
| LinkMutation.PickIndex | Source/NEATShooter/Genotype.cpp:113 | the drawn position lies among the links |
| LinkMutation.ToggleTries | Source/NEATShooter/Genotype.cpp:105-140 | the tries in turn, defined whenever the list has a link or no try fires; the scan position stays within the list and the length is kept |
| LinkMutation.EmptyToggleFiresMeaning | Source/NEATShooter/Genotype.cpp:109-114 | on an empty link list a try picks from the list exactly when one of the `tries` draws is below the chance |
| LinkMutation.ToggleEmptyUnchanged | Source/NEATShooter/Genotype.cpp:105-140 | on an empty link list, tries that never fire change nothing and take one draw each |
| LinkMutation.ToggleTryKeepsGenes | Source/NEATShooter/Genotype.cpp:110-138 | one try changes only enabled flags, and the scan only moves forward |
| LinkMutation.ToggleKeepsGenes | Source/NEATShooter/Genotype.cpp:105-140 | count, order, endpoints, IDs and weights are preserved |
| LinkMutation.ToggleTryEnablesDisabled | Source/NEATShooter/Genotype.cpp:129-135 | a chosen disabled link is always enabled, and nothing else changes |
| LinkMutation.ToggleTryDisablesOnlyIsolated | Source/NEATShooter/Genotype.cpp:116-128 | a link is disabled only when it was chosen and the rest of the scan finds no other enabled link from its source |
| LinkMutation.ToggleTryAfterExhaustedIterator | Source/NEATShooter/Genotype.cpp:107-127 | once the shared iterator is at the end, any chosen enabled link is disabled |
| LinkMutation.ReenableOutcome | Source/NEATShooter/Genotype.cpp:142-154 | only flags change; one draw per disabled link; link q ends enabled iff it was, or its draw is below the chance |
| LinkMutation.ReenableStep | Source/NEATShooter/Genotype.cpp:144-153 | one round of the re-enable loop |
| LinkMutation.ReenableShape | Source/NEATShooter/Genotype.cpp:142-154 | only flags change, and the cursor moves by the number of disabled links |
| LinkMutation.ReenableFlags | Source/NEATShooter/Genotype.cpp:142-154 | the new flag of every link |
| LinkMutation.WeightStep | Source/NEATShooter/Genotype.cpp:160-172 | only the weight changes: either fresh in (-1, 1) or moved by less than the power; 1, 3 or 4 draws |
| LinkMutation.MutateWeightsOutcome | Source/NEATShooter/Genotype.cpp:156-174 | only weights change, each within the allowed move; at least one draw per link |
| StructuralMutation.FindSplitLink | Source/NEATShooter/Genotype.cpp:188-212 | either no link (-1) or a splittable one: enabled and not from the bias |
| StructuralMutation.FindSplitLinkFails | Source/NEATShooter/Genotype.cpp:188-212 | failure means every one of the `tries` draws hit an unsplittable link |
| StructuralMutation.FindSplitLinkSucceeds | Source/NEATShooter/Genotype.cpp:188-212 | success means the last draw picked the link and every earlier draw missed |
| StructuralMutation.AddNodeOutcome | Source/NEATShooter/Genotype.cpp:176-293 | either nothing changes, or after a draw within the chance a splittable link is split |
| StructuralMutation.SplitLinkLedger | Source/NEATShooter/Genotype.cpp:228-292 | the split keeps the old links (the split link stays enabled) and adds a hidden neuron at the midpoint. A fresh split: three ledger entries, link IDs +1 and +2, in-weight 1. A reused split: ledger unchanged, out-weight 1 |
| StructuralMutation.SplitLedgerKeepsValid | Source/NEATShooter/Genotype.cpp:228-292 | the ledger stays valid and extended, and the new neuron ID is new to the genome |
| StructuralMutation.GrowKeepsInvariants | Source/NEATShooter/Genotype.cpp:245-292 | a neuron and two links through it keep links resolving, IDs below the counter, IDs and endpoints distinct |
| StructuralMutation.SplitLinkKeepsInvariants | Source/NEATShooter/Genotype.cpp:214-292 | the split keeps the genome and ledger invariants |
| StructuralMutation.AddNodeKeepsInvariants | Source/NEATShooter/Genotype.cpp:176-293 | add-node keeps the genome and ledger invariants |
| StructuralMutation.FindLinkPair | Source/NEATShooter/Genotype.cpp:310-337 | no pair (-1, -1), or two distinct unlinked neurons with the target past the inputs and the bias |
| StructuralMutation.AddLinkOutcome | Source/NEATShooter/Genotype.cpp:295-371 | neurons unchanged. Either nothing changes, or exactly one enabled link is appended: source != target, target past the inputs, no such link before, weight in (-1, 1), recurrent iff source split-y > target split-y. The ledger grows only for a new signature |
| StructuralMutation.AddLinkKeepsInvariants | Source/NEATShooter/Genotype.cpp:295-371 | add-link keeps the ledger valid and extended, links resolving and endpoints distinct |
| Speciation.ScaleKeepsOrder | Source/NEATShooter/Species.cpp:41-62 | scaling by a positive factor keeps order |
| Speciation.SharingKeepsOrder | Source/NEATShooter/Species.cpp:41-62 | sharing keeps the fitness order within a species |
| Speciation.SharingBounds | Source/NEATShooter/Species.cpp:41-62 | young species share at least f/n, old ones between 0 and f/n, others exactly f/n |
| Speciation.YoungShare | Source/NEATShooter/Species.cpp:48-51 | a young species with a non-negative bonus shares at least an even split |
| Speciation.OldShare | Source/NEATShooter/Species.cpp:53-56 | an old species with a penalty in [0, 1] shares at most an even split, never below 0 |
| Speciation.SpawnSumNonNegative | Source/NEATShooter/Species.cpp:85-91 | non-negative spawn amounts sum to a non-negative total |
| Speciation.SpawnSumAppend | Source/NEATShooter/Species.cpp:85-91 | the sum splits over concatenation |
| Speciation.TopIndexInBounds | Source/NEATShooter/Species.cpp:93-109 | with a survival rate in [0, 0.5) the drawn index is a member of any species of two or more |
| Speciation.TopIndexOverrun | Source/NEATShooter/Species.cpp:102-106 | with survival rate 0.8, a two-member species can draw index 2, past its end |
| Speciation.TopGenomeFound | Source/NEATShooter/Species.cpp:93-109 | under valid parameters, a top genome is always found |
| Speciation.Species.constructor | Source/NEATShooter/Species.cpp:24-26 | no members, no leader, every number 0 |
| Speciation.Species.Initialize | Source/NEATShooter/Species.cpp:28-39 | members = [first], leader = first, best = its fitness, age, stagnation and spawn amount 0 |
| Speciation.Species.AdjustFitnessScores | Source/NEATShooter/Species.cpp:41-62 | every member's species fitness becomes its shared fitness; raw fitness unchanged |
| Speciation.Species.AddMember | Source/NEATShooter/Species.cpp:64-75 | members gain the genome and stay fittest first; leader, best and stagnation reset only for a strictly fitter genome |
| Speciation.Species.Purge | Source/NEATShooter/Species.cpp:77-83 | members emptied, age and stagnation + 1, spawn amount 0; leader and best kept |
| Speciation.Species.CalculateSpawnAmount | Source/NEATShooter/Species.cpp:85-91 | the members' spawn amounts are added to the old amount, not written over it |
| Speciation.Species.GetTopGenome | Source/NEATShooter/Species.cpp:93-109 | member 0 of a one-member species; otherwise the member at `RandInt(0, (int)(rate·n) + 1)`, or null past the end |
| Speciation.Species.GetLeaderFitness | Source/NEATShooter/Species.cpp:111-114 | the leader's current fitness |
| Phenotype.FrontCount | Source/NEATShooter/Phenotype.cpp:53-67 | the count of input and bias neurons before position i |
| Phenotype.SetInputs | Source/NEATShooter/Phenotype.cpp:53-67 | loading the inputs keeps the length of the outputs |
| Phenotype.ComputeFrom | Source/NEATShooter/Phenotype.cpp:70-90 | computing keeps the length of the outputs |
| Phenotype.Pass | Source/NEATShooter/Phenotype.cpp:49-91 | a pass keeps the length of the outputs |
| Phenotype.RunFrom | Source/NEATShooter/Phenotype.cpp:47-91 | the passes keep the length of the outputs |
| Phenotype.OutputPositions | Source/NEATShooter/Phenotype.cpp:84-87 | the positions of the output neurons from j on |
| Phenotype.ComputeKeepsEarlier | Source/NEATShooter/Phenotype.cpp:70-90 | computing from position j leaves the earlier outputs alone |
| Phenotype.ReportedAreOutputNeurons | Source/NEATShooter/Phenotype.cpp:49-87 | a pass reports the new outputs of exactly the output-type neurons, in list order |
| Phenotype.FrontLoadedKeepsInputs | Source/NEATShooter/Phenotype.cpp:53-67 | with inputs and bias first: input i gets input value i, and the bias gets 1 |
| Phenotype.FrontCountOfPrefix | Source/NEATShooter/Phenotype.cpp:53-67 | with inputs and bias first, the front count before position i is i |
| Phenotype.ZeroDepthSnapshotReportsNothing | Source/NEATShooter/Phenotype.cpp:36-47 | a snapshot run of a depth-0 net returns no outputs |
| Phenotype.TwoInputExample | Source/NEATShooter/Phenotype.cpp:32-106 | worked example, not a general property: a two-input, one-output net in active mode returns sigmoid(w0·x0 + w1·x1 + wb) |
| Phenotype.TwoInputPass | Source/NEATShooter/Phenotype.cpp:47-91 | worked example (step of `TwoInputExample`): the single pass of that net |
| Phenotype.TwoInputSum | Source/NEATShooter/Phenotype.cpp:74-79 | worked example (step of `TwoInputExample`): the weighted input sum of its output neuron |
| Phenotype.MisplacedFrontExample | Source/NEATShooter/Phenotype.cpp:53-90 | a net whose first neuron is neither an input nor the bias: computing starts at the count of input and bias neurons, so the first neuron is never computed and the bias is overwritten with sigmoid(0) |
| Phenotype.NeuralNet.constructor | Source/NEATShooter/Phenotype.cpp:20-24 | an empty valid net |
| Phenotype.NeuralNet.Initialize | Source/NEATShooter/Phenotype.cpp:26-30 | stores neurons and depth; every neuron output starts at 0 |
| Phenotype.NeuralNet.Update | Source/NEATShooter/Phenotype.cpp:32-106 | depth passes in snapshot mode, one in active mode; returns the last pass's outputs; active keeps the state, snapshot zeroes it |
| Phenotype.NeuralNet.PassInPlace | Source/NEATShooter/Phenotype.cpp:49-91 | one pass on the output array |
| Phenotype.NeuralNet.SetInputsInPlace | Source/NEATShooter/Phenotype.cpp:53-67 | the input loop over the array; returns where computing starts |
| Phenotype.NeuralNet.SumIn | Source/NEATShooter/Phenotype.cpp:74-79 | the sum of weight × source output over the incoming links |
| Phenotype.NeuralNet.ComputeInPlace | Source/NEATShooter/Phenotype.cpp:70-90 | the compute loop over the array, with the outputs collected |
| Selection.SplitAppendsPreorder | Source/NEATShooter/GeneticAlgorithm.cpp:629-649 | appending to the static table adds the preorder of the split tree |
| Selection.SplitHead | Source/NEATShooter/GeneticAlgorithm.cpp:636-640 | the first entry is the midpoint at depth d + 1 |
| Selection.Pow2Eight | Source/NEATShooter/GeneticAlgorithm.cpp:633 | arithmetic helper for `StartTableSize`, not a property of the source: 2^8 = 256 |
| Selection.SplitSize | Source/NEATShooter/GeneticAlgorithm.cpp:629-649 | a split from depth d adds 2^(8-d) - 1 entries |
| Selection.SplitValues | Source/NEATShooter/GeneticAlgorithm.cpp:629-649 | every value lies strictly inside the interval |
| Selection.SplitLayers | Source/NEATShooter/GeneticAlgorithm.cpp:629-649 | depths run from d + 1 to 8 |
| Selection.StartTableSize | Source/NEATShooter/GeneticAlgorithm.cpp:60 | `Split(0, 1, 0)` adds 255 entries |
| Selection.StartTableHead | Source/NEATShooter/GeneticAlgorithm.cpp:60 | its first entry is (0.5, 1) |
| Selection.StartTableEntries | Source/NEATShooter/GeneticAlgorithm.cpp:60 | its values lie in (0, 1) and its depths in 1..8 |
| Selection.TournamentMeaning | Source/NEATShooter/GeneticAlgorithm.cpp:535-555 | one draw per try; the winner is kept or replaced only by a strictly fitter sampled genome, and is at least as fit as every sample |
| Selection.TournamentWinner | Source/NEATShooter/GeneticAlgorithm.cpp:535-555 | the tournament starts from index 0 with best fitness 0: the winner is index 0 when no sample has positive fitness, and otherwise index 0 or a positively fit sample at least as fit as every sample |
| Selection.ThresholdFloorVacuous | Source/NEATShooter/GeneticAlgorithm.cpp:343-374 | for a non-negative threshold: kept, × 1.1 or × 0.9, and the 10% floor never applies; for a negative one at target it always does |
| Selection.FirstFitFrom | Source/NEATShooter/GeneticAlgorithm.cpp:249-265 | -1 or a leader position at or after k |
| Selection.FirstFit | Source/NEATShooter/GeneticAlgorithm.cpp:249-265 | -1 or a leader position |
| Selection.FirstFitFromMeaning | Source/NEATShooter/GeneticAlgorithm.cpp:249-265 | -1 exactly when no leader is compatible; otherwise the first compatible leader |
| Selection.EmptyGenomeStartsSpecies | Source/NEATShooter/GeneticAlgorithm.cpp:249-275 | a genome with no links is never compatible (its scores are NaN) and founds a species |
| Selection.Offspring | Source/NEATShooter/GeneticAlgorithm.cpp:294-299 | species fitness over the average, floored at 0 |
| Reproduction.FatherSearch | Source/NEATShooter/GeneticAlgorithm.cpp:138-146 | the father's position (or -1 where a draw reads past the members) and the cursor after the search |
| Reproduction.FatherFound | Source/NEATShooter/GeneticAlgorithm.cpp:138-146 | under valid parameters the search over a non-empty species finds a father |
| Reproduction.FatherSearchMeaning | Source/NEATShooter/GeneticAlgorithm.cpp:138-146 | one draw per round, at most tries + 1; every draw but the last picked the mother's ID; the last read past the members, or picked a father whose ID differs unless the tries ran out |
| Reproduction.ChildChoice | Source/NEATShooter/GeneticAlgorithm.cpp:133-158 | the choice of a turn: a copy, a crossover or the previous child, by member positions, and the cursor after it |
| Reproduction.ChildChoiceMeaning | Source/NEATShooter/GeneticAlgorithm.cpp:133-158 | a copy exactly when the mother is found and the crossover draw is not below the rate; a crossover only of different IDs; the previous child only after every father draw of all the tries picked the mother's ID |
| Reproduction.Quotas | Source/NEATShooter/GeneticAlgorithm.cpp:103-188 | one count per species |
| Reproduction.QuotasFit | Source/NEATShooter/GeneticAlgorithm.cpp:103-188 | the counts never exceed the population size |
| Reproduction.QuotasFrom | Source/NEATShooter/GeneticAlgorithm.cpp:106-188 | count i is the rounded amount cut to the places the earlier species left, or 0 once they filled the generation |
| Reproduction.QuotasMeaning | Source/NEATShooter/GeneticAlgorithm.cpp:103-188 | every count follows that rule |
| Reproduction.SlotIs | Source/NEATShooter/GeneticAlgorithm.cpp:198-204 | tournament j starts j × tries draws after the first |
| Reproduction.Winner | Source/NEATShooter/GeneticAlgorithm.cpp:202 | the tournament started at a cursor picks an index of the population |
| Breeding.SameEndpointsResolve | Source/NEATShooter/GeneticAlgorithm.cpp:167-169 | links with the same endpoints still resolve |
| Breeding.PermutedLinksResolve | Source/NEATShooter/GeneticAlgorithm.cpp:172 | sorting keeps the links resolving |
| Breeding.IDsBelowGrows | Source/NEATShooter/GeneticAlgorithm.cpp:161-166 | a neuron bound stays a bound when the counter grows |
| Breeding.TuneKeepsEndpoints | Source/NEATShooter/GeneticAlgorithm.cpp:167-169 | weight, toggle and re-enable mutation keep every link's endpoints |
| Breeding.GrowSound | Source/NEATShooter/GeneticAlgorithm.cpp:161-166 | add-node then add-link keep the ledger and genome invariants |
| Breeding.MutatedSound | Source/NEATShooter/GeneticAlgorithm.cpp:161-172 | the whole mutation sequence keeps them |
| Mating.ChooseFitterMeaning | Source/NEATShooter/GeneticAlgorithm.cpp:393-438 | the father leads iff he is fitter, or equally fit with no more links; a full tie costs one draw and picks the father |
| Mating.AddIDMeaning | Source/NEATShooter/GeneticAlgorithm.cpp:609-627 | the ID is present afterwards, nothing else is added, and distinct lists stay distinct |
| Mating.Push | Source/NEATShooter/GeneticAlgorithm.cpp:510-516 | the gene is appended, re-enabled iff enabled or its draw < 0.25 |
| Mating.Step | Source/NEATShooter/GeneticAlgorithm.cpp:457-520 | each round advances at least one of the two positions |
| Mating.WalkFrom | Source/NEATShooter/GeneticAlgorithm.cpp:457-520 | the walk ends at the end of both lists |
| Mating.StepInherits | Source/NEATShooter/GeneticAlgorithm.cpp:457-520 | each round keeps the child's links inherited from the leader's prefix |
| Mating.WalkInherits | Source/NEATShooter/GeneticAlgorithm.cpp:457-520 | the walk keeps that |
| Mating.MergeKeepsLeaderShape | Source/NEATShooter/GeneticAlgorithm.cpp:446-520 | the child has the fitter parent's length and innovation-ID sequence; each gene comes from the leader or its match |
| Mating.PickEndpoints | Source/NEATShooter/GeneticAlgorithm.cpp:466-508 | a pick selects a gene whose endpoints come from a parent |
| Mating.StepCovers | Source/NEATShooter/GeneticAlgorithm.cpp:518-519 | each round registers the selected gene's endpoints |
| Mating.WalkCovers | Source/NEATShooter/GeneticAlgorithm.cpp:457-520 | every link's endpoints stay registered |
| Mating.WalkCoversSelected | Source/NEATShooter/GeneticAlgorithm.cpp:518-519 | the last selected gene's endpoints are registered |
| Mating.MergeCoversEndpoints | Source/NEATShooter/GeneticAlgorithm.cpp:451-520 | the IDs are distinct, include both endpoints of every link, and are parent endpoints or -1 |
| Mating.SkipFirstRegistersDefault | Source/NEATShooter/GeneticAlgorithm.cpp:451 | when the first step skips, -1 from the default gene is registered |
| Mating.WalkIDsGrow | Source/NEATShooter/GeneticAlgorithm.cpp:518-519 | the registered IDs only grow |
| Mating.SortedDistinctAscending | Source/NEATShooter/GeneticAlgorithm.cpp:522 | sorted distinct IDs are strictly ascending, with the same elements |
| Mating.RepeatCountsTwice | Source/NEATShooter/GeneticAlgorithm.cpp:522 | a repeated value occurs twice in the multiset |
| Mating.DistinctCountsOnce | Source/NEATShooter/GeneticAlgorithm.cpp:522 | a distinct list holds each value at most once |
| Mating.NeuronsFor | Source/NEATShooter/GeneticAlgorithm.cpp:524-527 | one neuron gene per ID |
| Mating.NeuronsForCarryIDs | Source/NEATShooter/GeneticAlgorithm.cpp:524-527 | with registered IDs, gene k carries ID k and the genome holds exactly those IDs |
| Mating.SortIDs | Source/NEATShooter/GeneticAlgorithm.cpp:522 | sorted ascending and a permutation |
| Mating.MateMeaning | Source/NEATShooter/GeneticAlgorithm.cpp:384-533 | the child keeps the fitter parent's innovation-ID sequence; its neuron IDs ascend strictly, are parent endpoints, and resolve every link |
| Evolution.EnrolledWithin | Source/NEATShooter/GeneticAlgorithm.cpp:246-278 | members of drawn species are drawn |
| Evolution.AllSoundGrows | Source/NEATShooter/GeneticAlgorithm.cpp:161-166 | soundness survives a growing counter |
| Evolution.AllSoundJoin | Source/NEATShooter/GeneticAlgorithm.cpp:179 | joining two sound lists |
| Evolution.SetSoundGrows | Source/NEATShooter/GeneticAlgorithm.cpp:161-166 | for sets |
| Evolution.SoundGrows | Source/NEATShooter/GeneticAlgorithm.cpp:161-166 | for one genome |
| Evolution.EndpointBelow | Source/NEATShooter/GeneticAlgorithm.cpp:518-527 | an endpoint of a sound genome is -1 or below the counter |
| Evolution.ParentEndpointBelow | Source/NEATShooter/GeneticAlgorithm.cpp:518-527 | so is an endpoint of either parent |
| Evolution.MateSound | Source/NEATShooter/GeneticAlgorithm.cpp:384-533 | a child of sound parents is sound with distinct neuron IDs |
| Evolution.DyingMeaning | Source/NEATShooter/GeneticAlgorithm.cpp:317-328 | exactly the doomed species are queued |
| Evolution.WithoutNothing | Source/NEATShooter/GeneticAlgorithm.cpp:330-334 | removing nothing keeps the list |
| Evolution.WithoutMeaning | Source/NEATShooter/GeneticAlgorithm.cpp:330-334 | removal keeps exactly the species not queued |
| Evolution.EmptiedDrawn | Source/NEATShooter/GeneticAlgorithm.cpp:317-334 | purged species with known leaders stay drawn after removal |
| Evolution.WithoutSplits | Source/NEATShooter/GeneticAlgorithm.cpp:330-334 | removal splits over concatenation |
| Evolution.WithoutOneMore | Source/NEATShooter/GeneticAlgorithm.cpp:330-334 | removing one more queued species |
| Evolution.CullMeaning | Source/NEATShooter/GeneticAlgorithm.cpp:309-334 | survivors are exactly the species not doomed |
| Evolution.WithoutKeepsDistinct | Source/NEATShooter/GeneticAlgorithm.cpp:330-334 | removal keeps species distinct |
| Evolution.Fitnesses | Source/NEATShooter/GeneticAlgorithm.cpp:535-555 | the fitness of each genome in order |
| Evolution.PoolAppend | Source/NEATShooter/GeneticAlgorithm.cpp:274 | a new species adds its members to the pool |
| Evolution.PoolSplit | Source/NEATShooter/GeneticAlgorithm.cpp:259 | the pool splits around one species |
| Evolution.LeaderLinks | Source/NEATShooter/GeneticAlgorithm.cpp:251-252 | the leaders' link lists in order |
| Evolution.SpawnAmounts | Source/NEATShooter/GeneticAlgorithm.cpp:303-306 | the species' spawn amounts in order |
| Evolution.Ages | Source/NEATShooter/GeneticAlgorithm.cpp:317-319 | one age per species, taken before purging |
| Evolution.Stagnation | Source/NEATShooter/GeneticAlgorithm.cpp:317-319 | one stagnation count per species, taken before purging |
| Evolution.NothingPurged | Source/NEATShooter/GeneticAlgorithm.cpp:317-319 | before purging, snapshots equal the state |
| Evolution.NewSpecies | Source/NEATShooter/GeneticAlgorithm.cpp:270-271 | a fresh species led by the genome, with it alone |
| Evolution.GeneticAlgorithm.constructor | Source/NEATShooter/GeneticAlgorithm.cpp:27-29 | no genome, no species, an empty ledger; valid |
| Evolution.GeneticAlgorithm.Initialize | Source/NEATShooter/GeneticAlgorithm.cpp:31-61 | counters reset; popSize fresh start genomes appended, genome j with ID j, the standard neurons and the start links drawn at `StartCursor(.., j)`; `rng` left at the cursor after the last one, 3 draws per start link and genome when the list was empty; the known set grows by the new genomes; the ledger started from genome 0 and the split table built, or both left unchanged when the list is empty (`ok` false); only these fields and `rng`'s cursor change, so species, best genomes and parameters are kept; valid |
| Evolution.GeneticAlgorithm.StartPopulation | Source/NEATShooter/GeneticAlgorithm.cpp:31-61 | the state changes of `Initialize`: counters, start genomes, known set, final cursor, ledger and split table, the last two unchanged when the list is empty |
| Evolution.GeneticAlgorithm.StartTables | Source/NEATShooter/GeneticAlgorithm.cpp:55-60 | with a first genome: a fresh ledger from its genes and the split table; without one, neither changes |
| Evolution.GeneticAlgorithm.StartedValid | Source/NEATShooter/GeneticAlgorithm.cpp:45-60 | a list of start genomes only, with a ledger started from genome 0, is a valid algorithm state |
| Evolution.GeneticAlgorithm.StartedFromAt | Source/NEATShooter/GeneticAlgorithm.cpp:45-53 | genome j of a `StartedFrom` list is start genome j, with StartLinkCount links, those drawn at `StartCursor(.., j)` |
| Evolution.StartCursorFromEmpty | Source/NEATShooter/GeneticAlgorithm.cpp:45-53 | started on an empty list, start genome i is built at cursor p + 3·L·i, L the start link count |
| Evolution.GeneticAlgorithm.ResetCounters | Source/NEATShooter/GeneticAlgorithm.cpp:33-40 | generation 1, the population size stored, species counter and fitness totals 0 |
| Evolution.GeneticAlgorithm.BuildSplitDepths | Source/NEATShooter/GeneticAlgorithm.cpp:60 | the split table is `Split(0, 1, 0)` appended to the static table |
| Evolution.GeneticAlgorithm.StartValid | Source/NEATShooter/GeneticAlgorithm.cpp:45-60 | start genomes with a ledger started from genome 0 form a valid algorithm state |
| Evolution.GeneticAlgorithm.AddStartGenomes | Source/NEATShooter/GeneticAlgorithm.cpp:45-53 | popSize fresh genomes appended and made known; genome j is start genome j with its links drawn at `StartCursor(.., j)`; `rng` at the cursor after the last one |
| Evolution.GeneticAlgorithm.BuildStartGenomes | Source/NEATShooter/GeneticAlgorithm.cpp:45-53 | the loop: start genome i made at `StartCursor(.., i)`, then the weight draws of list position i, an old genome's count while i is below their number |
| Evolution.GeneticAlgorithm.NewStartTurn | Source/NEATShooter/GeneticAlgorithm.cpp:47-51 | one turn extends `StartedFrom` by start genome i and moves the cursor to `StartCursor(.., i + 1)` |
| Evolution.GeneticAlgorithm.NewStartGenome | Source/NEATShooter/GeneticAlgorithm.cpp:47-52 | a fresh standard genome with that ID, its start links drawn at the cursor, which moves on two draws per start link |
| Evolution.GeneticAlgorithm.StartLedger | Source/NEATShooter/GeneticAlgorithm.cpp:56-57 | a fresh ledger from genome 0's genes, valid for a standard genome |
| Evolution.GeneticAlgorithm.Split | Source/NEATShooter/GeneticAlgorithm.cpp:629-649 | appends the preorder to the static table and returns it |
| Evolution.GeneticAlgorithm.AddNeuronID | Source/NEATShooter/GeneticAlgorithm.cpp:609-627 | true iff present; appends it only when absent |
| Evolution.GeneticAlgorithm.Crossover | Source/NEATShooter/GeneticAlgorithm.cpp:384-533 | a fresh child with the links and neurons `Mate` gives, ID -1, the mother's input and output counts |
| Evolution.GeneticAlgorithm.ChooseLeader | Source/NEATShooter/GeneticAlgorithm.cpp:393-438 | the parent choice as `ChooseFitter` says |
| Evolution.GeneticAlgorithm.MergeLinks | Source/NEATShooter/GeneticAlgorithm.cpp:457-520 | the merge loop as `WalkFrom` says |
| Evolution.GeneticAlgorithm.MergeStep | Source/NEATShooter/GeneticAlgorithm.cpp:459-519 | one round of it |
| Evolution.GeneticAlgorithm.PickGene | Source/NEATShooter/GeneticAlgorithm.cpp:466-508 | the gene choice of a round |
| Evolution.GeneticAlgorithm.PushGene | Source/NEATShooter/GeneticAlgorithm.cpp:510-516 | the append of a round |
| Evolution.GeneticAlgorithm.NeuronsFromIDs | Source/NEATShooter/GeneticAlgorithm.cpp:524-527 | one ledger-built gene per ID |
| Evolution.GeneticAlgorithm.CloneLeader | Source/NEATShooter/GeneticAlgorithm.cpp:117-121 | a fresh copy of the leader, keeping its ID |
| Evolution.GeneticAlgorithm.BreedChild | Source/NEATShooter/GeneticAlgorithm.cpp:123-176 | a one-member species gives a fresh unmutated copy of its member, with no draw and the ledger unchanged. Otherwise the child `ChildChoice` picks, with the genes `ChildGenes` gives, mutated as `Mutated` says and its links sorted; it is the previous child itself exactly when the father search ended on the mother's ID; fails exactly where the choice reads past the members or a mutation indexes an empty list. The child takes the next genome ID |
| Evolution.GeneticAlgorithm.BreedMany | Source/NEATShooter/GeneticAlgorithm.cpp:130-172 | for a species of other than one member: the chosen child mutated as `Mutated` says, links sorted; the previous child exactly in the stale case |
| Evolution.GeneticAlgorithm.BreedTurn | Source/NEATShooter/GeneticAlgorithm.cpp:123-176 | a turn of `BreedChild` as the species loop uses it, with its whole outcome (`Bred`): the copy of a one-member species with no draw and the ledger unchanged; otherwise the child `ChildChoice` picks, mutated as `Mutated` says, links sorted, the previous child exactly in the stale case, failing exactly where that choice or mutation does. Appended to the children so far, it keeps them all sound and the leader's elite copy first; the next genome ID is taken |
| Evolution.GeneticAlgorithm.Epoch | Source/NEATShooter/GeneticAlgorithm.cpp:63-225 | on success: valid, the ledger extended, exactly popSize genomes each old or fresh, generation + 1, one fresh net per genome wired from it |
| Evolution.GeneticAlgorithm.BreedAndInstall | Source/NEATShooter/GeneticAlgorithm.cpp:96-225 | the reproduction and install half of `Epoch` |
| Evolution.GeneticAlgorithm.Evaluate | Source/NEATShooter/GeneticAlgorithm.cpp:70-83 | the evaluation half: valid, the same genomes reordered |
| Evolution.GeneticAlgorithm.SortAndSpeciate | Source/NEATShooter/GeneticAlgorithm.cpp:80-83 | sorting and speciation keep validity and the genomes |
| Evolution.GeneticAlgorithm.ResetAndScore | Source/NEATShooter/GeneticAlgorithm.cpp:71-77 | `Culled` from the old species, ages and stagnation; totals 0 and every phenotype dropped; then the scores assigned in order; fails exactly when scores are fewer than genomes |
| Evolution.GeneticAlgorithm.Install | Source/NEATShooter/GeneticAlgorithm.cpp:207-222 | the next generation replaces the old; one fresh net per genome; generation + 1 |
| Evolution.GeneticAlgorithm.ResetValid | Source/NEATShooter/GeneticAlgorithm.cpp:309-341 | culling keeps validity; the species are `Culled` from the old species, ages and stagnation; totals 0 and every phenotype dropped |
| Evolution.GeneticAlgorithm.SortValid | Source/NEATShooter/GeneticAlgorithm.cpp:557-571 | sorting keeps validity and the genomes |
| Evolution.GeneticAlgorithm.Replace | Source/NEATShooter/GeneticAlgorithm.cpp:208-209 | the genomes become the next generation |
| Evolution.GeneticAlgorithm.NextGeneration | Source/NEATShooter/GeneticAlgorithm.cpp:222 | generation + 1 |
| Evolution.GeneticAlgorithm.MakePhenotypes | Source/NEATShooter/GeneticAlgorithm.cpp:212-219 | one fresh net per genome, wired from it with its table depth |
| Evolution.GeneticAlgorithm.MakePhenotype | Source/NEATShooter/GeneticAlgorithm.cpp:216-218 | depth set, then the phenotype wired |
| Evolution.GeneticAlgorithm.Breed | Source/NEATShooter/GeneticAlgorithm.cpp:96-205 | exactly popSize sound genomes: each species' quota of fresh children (as `Quotas` counts) in species order, each run led by the leader's elite copy, then existing genomes |
| Evolution.GeneticAlgorithm.Complete | Source/NEATShooter/GeneticAlgorithm.cpp:195-205 | the backfill keeps the children and their elite copies in place and tops up with existing genomes to popSize |
| Evolution.GeneticAlgorithm.PopulationSound | Source/NEATShooter/GeneticAlgorithm.cpp:96-205 | under the population invariant every genome of the population is sound |
| Evolution.GeneticAlgorithm.SpawnAll | Source/NEATShooter/GeneticAlgorithm.cpp:103-189 | the species loop: species i contributes `Quotas`' count i (its rounded spawn amount, cut to the places left, none once the generation is full) of fresh sound children, in species order, each run led by the leader's elite copy |
| Evolution.GeneticAlgorithm.SpawnLoop | Source/NEATShooter/GeneticAlgorithm.cpp:103-189 | the loop over species: the children of every species appended in order, as many as its quota |
| Evolution.GeneticAlgorithm.SpawnInto | Source/NEATShooter/GeneticAlgorithm.cpp:105-188 | one species' children appended after those of the species before it, as many as its quota |
| Evolution.GeneticAlgorithm.Backfill | Source/NEATShooter/GeneticAlgorithm.cpp:195-205 | nothing drawn when the generation is full; otherwise the places left are filled in order, place j with the winner of the tournament at its cursor (`Winner` at `Slot(j)`); fails exactly when places are left and the population is empty |
| Evolution.GeneticAlgorithm.FillByTournament | Source/NEATShooter/GeneticAlgorithm.cpp:198-204 | the tournament loop: one winner appended per place left, each the winner `Winner` gives at its cursor |
| Evolution.GeneticAlgorithm.SpawnSpecies | Source/NEATShooter/GeneticAlgorithm.cpp:109-187 | min(Round(spawn amount), room) fresh sound children; the first is the elite copy of the leader, keeping its ID (unless the second turn took it as the stale previous child); one genome ID per child after it |
| Evolution.GeneticAlgorithm.SpawnNext | Source/NEATShooter/GeneticAlgorithm.cpp:122-181 | a later turn: the earlier children kept and one appended, which is the copy of a one-member species (no draw, ledger unchanged) or else the child `ChildChoice` picks, mutated as `Mutated` says and its links sorted, the previous child exactly in the stale case; fails exactly where that choice or mutation does; the elite copy stays in place |
| Evolution.GeneticAlgorithm.SpawnTurn | Source/NEATShooter/GeneticAlgorithm.cpp:122-181 | the part of a later turn the species loop carries forward: one child appended, fresh or the previous one, all children sound, the elite copy in place, one more genome ID |
| Evolution.GeneticAlgorithm.NameChild | Source/NEATShooter/GeneticAlgorithm.cpp:175-176 | next genome ID given and bumped |
| Evolution.GeneticAlgorithm.CloneTop | Source/NEATShooter/GeneticAlgorithm.cpp:125-128 | a fresh copy of the only member, no draw |
| Evolution.GeneticAlgorithm.MutateSound | Source/NEATShooter/GeneticAlgorithm.cpp:161-172 | mutation keeps the child sound and the ledger extended |
| Evolution.GeneticAlgorithm.MateOrClone | Source/NEATShooter/GeneticAlgorithm.cpp:130-158 | the child `ChildChoice` picks with the genes `ChildGenes` gives: the mother's copy when the crossover draw is not below the rate, `Mate` of mother and a father of another ID, or the previous child itself when the search ended on the mother's ID; fails exactly where a top genome is read past the members |
| Evolution.GeneticAlgorithm.CrossOrStale | Source/NEATShooter/GeneticAlgorithm.cpp:137-153 | after the father search as `FatherSearch` says: with another ID the fresh child `Mate` gives, with the mother's ID the previous child |
| Evolution.GeneticAlgorithm.CopyTop | Source/NEATShooter/GeneticAlgorithm.cpp:133 | a fresh sound copy (ID included) of the member at `TopDraw`'s index, the cursor moved as it says; fails exactly when that index is past the members |
| Evolution.GeneticAlgorithm.FindFather | Source/NEATShooter/GeneticAlgorithm.cpp:138-146 | a fresh copy of the member `FatherSearch` finds: redrawn while the ID is the mother's and tries remain; fails exactly when a draw reads past the members |
| Evolution.GeneticAlgorithm.MutateChild | Source/NEATShooter/GeneticAlgorithm.cpp:161-172 | the mutation sequence as `Mutated` says, links sorted |
| Evolution.GeneticAlgorithm.GrowChild | Source/NEATShooter/GeneticAlgorithm.cpp:161-166 | add-node (below the neuron limit) then add-link |
| Evolution.GeneticAlgorithm.TuneChild | Source/NEATShooter/GeneticAlgorithm.cpp:167-169 | weights, toggle and re-enable as `Tune` says; false exactly when a toggle try picks from an empty link list |
| Evolution.GeneticAlgorithm.TournamentSelection | Source/NEATShooter/GeneticAlgorithm.cpp:535-555 | the genome the tournament picks |
| Evolution.GeneticAlgorithm.AdjustCompatibilityThreshold | Source/NEATShooter/GeneticAlgorithm.cpp:343-374 | only the threshold changes, as `AdjustedThreshold` says |
| Evolution.GeneticAlgorithm.SortAndRecord | Source/NEATShooter/GeneticAlgorithm.cpp:557-571 | fittest first, a permutation; best-ever updated on >=, so it never decreases and bounds every fitness; best genomes recorded |
| Evolution.GeneticAlgorithm.StoreBestGenomes | Source/NEATShooter/GeneticAlgorithm.cpp:573-582 | the first numBestOrganisms genomes |
| Evolution.GeneticAlgorithm.ResetAndKill | Source/NEATShooter/GeneticAlgorithm.cpp:309-341 | totals 0; every species purged, exactly the doomed removed, survivors in order; phenotypes dropped |
| Evolution.GeneticAlgorithm.CullAndClear | Source/NEATShooter/GeneticAlgorithm.cpp:314-340 | cull then drop phenotypes |
| Evolution.GeneticAlgorithm.ResetTotals | Source/NEATShooter/GeneticAlgorithm.cpp:311-312 | both totals 0 |
| Evolution.GeneticAlgorithm.ClearPhenotypes | Source/NEATShooter/GeneticAlgorithm.cpp:336-340 | phenotypes dropped, culling kept |
| Evolution.GeneticAlgorithm.CullSpecies | Source/NEATShooter/GeneticAlgorithm.cpp:314-334 | purge and remove |
| Evolution.GeneticAlgorithm.RemoveDoomed | Source/NEATShooter/GeneticAlgorithm.cpp:330-334 | removing the queued species completes the cull |
| Evolution.GeneticAlgorithm.RemoveSpecies | Source/NEATShooter/GeneticAlgorithm.cpp:330-334 | the species list without the queued ones |
| Evolution.GeneticAlgorithm.PurgeSpecies | Source/NEATShooter/GeneticAlgorithm.cpp:317-328 | every species purged and the doomed queued in order |
| Evolution.GeneticAlgorithm.PurgeAt | Source/NEATShooter/GeneticAlgorithm.cpp:319-327 | one round of that loop |
| Evolution.GeneticAlgorithm.DeletePhenotypes | Source/NEATShooter/GeneticAlgorithm.cpp:336-340 | every genome's phenotype dropped |
| Evolution.GeneticAlgorithm.AssignFitness | Source/NEATShooter/GeneticAlgorithm.cpp:74-77 | genome k gets score k (the last write for a genome listed twice) |
| Evolution.GeneticAlgorithm.FindSpecies | Source/NEATShooter/GeneticAlgorithm.cpp:249-265 | the first compatible species, as `FirstFit` says |
| Evolution.GeneticAlgorithm.Settle | Source/NEATShooter/GeneticAlgorithm.cpp:254-275 | joins the species found, or founds one with the next species ID; the pool gains the genome |
| Evolution.GeneticAlgorithm.Speciate | Source/NEATShooter/GeneticAlgorithm.cpp:246-278 | every genome lands in one species: the pool grows by exactly the genomes; new species appended |
| Evolution.GeneticAlgorithm.SeatNext | Source/NEATShooter/GeneticAlgorithm.cpp:248-277 | genome i joins species k = `FirstFit` of the old leaders (its member list gains it, it carries that ID), or founds a new species under the next species ID when k = -1 |
| Evolution.GeneticAlgorithm.SeatTurn | Source/NEATShooter/GeneticAlgorithm.cpp:248-277 | one turn of the loop: the pool grows by genome i, founded species appended |
| Evolution.GeneticAlgorithm.Seat | Source/NEATShooter/GeneticAlgorithm.cpp:248-277 | genome i joins species k = `FirstFit` of the leaders, or founds one under the next species ID when k = -1; the pool grows by it |
| Evolution.GeneticAlgorithm.AdjustSpeciesFitnesses | Source/NEATShooter/GeneticAlgorithm.cpp:376-382 | every member carries its last species' share |
| Evolution.GeneticAlgorithm.AdjustAt | Source/NEATShooter/GeneticAlgorithm.cpp:378-381 | one species' sharing |
| Evolution.GeneticAlgorithm.SpeciateAndCalculateSpawnAmounts | Source/NEATShooter/GeneticAlgorithm.cpp:238-307 | ends speciated and shared; average = total / n; fails iff the population is empty or the average is 0; else offspring shares and species spawn sums |
| Evolution.GeneticAlgorithm.SpeciateAndShare | Source/NEATShooter/GeneticAlgorithm.cpp:243-289 | the threshold adjusted, then speciation and sharing: the speciated state, new species appended, old spawn amounts kept |
| Evolution.GeneticAlgorithm.SpeciateThenShare | Source/NEATShooter/GeneticAlgorithm.cpp:246-287 | speciation then sharing and the total |
| Evolution.GeneticAlgorithm.SpeciateAll | Source/NEATShooter/GeneticAlgorithm.cpp:246-278 | the speciation loop keeps the population valid: the pool grows by the genomes, new species are appended |
| Evolution.GeneticAlgorithm.ShareValid | Source/NEATShooter/GeneticAlgorithm.cpp:281-287 | sharing and the total keep validity |
| Evolution.GeneticAlgorithm.ShareFitness | Source/NEATShooter/GeneticAlgorithm.cpp:281-287 | sharing then the total |
| Evolution.GeneticAlgorithm.ShareWithin | Source/NEATShooter/GeneticAlgorithm.cpp:281 | sharing within species |
| Evolution.GeneticAlgorithm.ShareOutValid | Source/NEATShooter/GeneticAlgorithm.cpp:289-306 | average, offspring and spawn amounts keep validity |
| Evolution.GeneticAlgorithm.ShareOutSpeciated | Source/NEATShooter/GeneticAlgorithm.cpp:289-306 | they keep the speciated state |
| Evolution.GeneticAlgorithm.ShareOutKeeping | Source/NEATShooter/GeneticAlgorithm.cpp:289-306 | they change nothing else |
| Evolution.GeneticAlgorithm.ShareOut | Source/NEATShooter/GeneticAlgorithm.cpp:289-306 | average, offspring shares, species spawn sums |
| Evolution.GeneticAlgorithm.AddUpFitness | Source/NEATShooter/GeneticAlgorithm.cpp:284-287 | the total gains every genome's species fitness |
| Evolution.GeneticAlgorithm.AssignOffspring | Source/NEATShooter/GeneticAlgorithm.cpp:292-300 | each genome's spawn amount is its offspring share |
| Evolution.GeneticAlgorithm.CalculateSpawnAmounts | Source/NEATShooter/GeneticAlgorithm.cpp:303-306 | every species adds its members' spawn amounts |
| Evolution.GeneticAlgorithm.JoinSpecies | Source/NEATShooter/GeneticAlgorithm.cpp:258-259 | the genome joins species k, marked with its ID |
| Evolution.GeneticAlgorithm.EnlistAmong | Source/NEATShooter/GeneticAlgorithm.cpp:258-259 | the other species keep their members |
| Evolution.GeneticAlgorithm.Enlist | Source/NEATShooter/GeneticAlgorithm.cpp:258-259 | marked and added |
| Evolution.GeneticAlgorithm.FoundSpecies | Source/NEATShooter/GeneticAlgorithm.cpp:267-275 | a new species with the genome, the next species ID, appended |
| Evolution.GeneticAlgorithm.CreateSpecies | Source/NEATShooter/GeneticAlgorithm.cpp:270-273 | creation and the ID bump |
| Evolution.GeneticAlgorithm.AppendSpecies | Source/NEATShooter/GeneticAlgorithm.cpp:274 | appended at the end |

## Specification functions

These functions define, as values, what the source computes. Their
properties are stated by the members named in the third column, each of
which has a row in the table above.

| function | source | properties in |
|---|---|---|
| Compatibility.TallyFrom | Source/NEATShooter/Genotype.cpp:401-449 | TallyCounts, TallySelf, TallySymmetric, DisjointGenomesNoMatch |
| Compatibility.CompatibilityScore | Source/NEATShooter/Genotype.cpp:385-458 | CompatibilitySymmetric, SelfCompatibility, ScoreNonNegative, NaNScore, Genome.GetCompatibilityScore |
| StructuralMutation.AddNode | Source/NEATShooter/Genotype.cpp:176-293 | AddNodeOutcome, AddNodeKeepsInvariants, Genome.MutateAddNode |
| StructuralMutation.SplitLink | Source/NEATShooter/Genotype.cpp:214-292 | SplitLinkLedger, SplitLinkKeepsInvariants, SplitLedgerKeepsValid, Genome.SplitLinkAt |
| StructuralMutation.Connect | Source/NEATShooter/Genotype.cpp:339-370 | Genome.ConnectNeurons |
| Mating.Mate | Source/NEATShooter/GeneticAlgorithm.cpp:384-533 | MateMeaning, MateSound, GeneticAlgorithm.Crossover |
| Mating.ChooseFitter | Source/NEATShooter/GeneticAlgorithm.cpp:393-438 | ChooseFitterMeaning, GeneticAlgorithm.ChooseLeader |
| Mating.AddID | Source/NEATShooter/GeneticAlgorithm.cpp:609-627 | AddIDMeaning, GeneticAlgorithm.AddNeuronID |
| Breeding.Mutated | Source/NEATShooter/GeneticAlgorithm.cpp:161-172 | MutatedSound, GeneticAlgorithm.MutateChild, GeneticAlgorithm.MutateSound |
| Breeding.Grow | Source/NEATShooter/GeneticAlgorithm.cpp:161-166 | GrowSound, GeneticAlgorithm.GrowChild |
| Breeding.Tune | Source/NEATShooter/GeneticAlgorithm.cpp:167-169 | TuneKeepsEndpoints, GeneticAlgorithm.TuneChild |
| LinkMutation.ToggleTry | Source/NEATShooter/Genotype.cpp:105-140 | ToggleTryKeepsGenes, ToggleTryEnablesDisabled, ToggleTryDisablesOnlyIsolated, ToggleTryAfterExhaustedIterator |
| LinkMutation.ReenableFrom | Source/NEATShooter/Genotype.cpp:142-154 | ReenableShape, ReenableFlags, ReenableStep, ReenableOutcome, Genome.ReenableLinkGenes |
| LinkMutation.MutateWeightsFrom | Source/NEATShooter/Genotype.cpp:156-174 | MutateWeightsOutcome, Genome.MutateWeights |
| Selection.TournamentFrom | Source/NEATShooter/GeneticAlgorithm.cpp:535-555 | TournamentMeaning, TournamentWinner, GeneticAlgorithm.TournamentSelection |
| Selection.AdjustedThreshold | Source/NEATShooter/GeneticAlgorithm.cpp:343-374 | ThresholdFloorVacuous, GeneticAlgorithm.AdjustCompatibilityThreshold |
| Selection.Doomed | Source/NEATShooter/GeneticAlgorithm.cpp:330-334 | DyingMeaning, CullMeaning |
| Selection.SplitAppend | Source/NEATShooter/GeneticAlgorithm.cpp:629-649 | SplitAppendsPreorder, GeneticAlgorithm.Split |
| Speciation.SharedFitness | Source/NEATShooter/Species.cpp:41-62 | YoungShare, OldShare, SharingBounds, SharingKeepsOrder, Species.AdjustFitnessScores |
| Speciation.AgedFitness | Source/NEATShooter/Species.cpp:47-56 | through SharedFitness |
| Speciation.TopIndex | Source/NEATShooter/Species.cpp:102-106 | TopIndexInBounds, TopIndexOverrun, Species.GetTopGenome |
| Speciation.TopDraw | Source/NEATShooter/Species.cpp:93-109 | TopGenomeFound, GeneticAlgorithm.CopyTop |
| Evolution.ChildGenes | Source/NEATShooter/GeneticAlgorithm.cpp:130-158 | GeneticAlgorithm.MateOrClone, GeneticAlgorithm.CrossOrStale |
| Evolution.GeneticAlgorithm.Bred | Source/NEATShooter/GeneticAlgorithm.cpp:122-172 | GeneticAlgorithm.BreedChild, GeneticAlgorithm.BreedTurn, GeneticAlgorithm.SpawnNext |
| Evolution.GeneticAlgorithm.Culled | Source/NEATShooter/GeneticAlgorithm.cpp:309-341 | GeneticAlgorithm.ResetAndKill, GeneticAlgorithm.ResetAndScore, GeneticAlgorithm.ResetValid |
| Evolution.GeneticAlgorithm.Speciated | Source/NEATShooter/GeneticAlgorithm.cpp:248-306 | GeneticAlgorithm.SpeciateAndShare, GeneticAlgorithm.SpeciateAndCalculateSpawnAmounts |
| Evolution.GeneticAlgorithm.NetOf | Source/NEATShooter/Genotype.cpp:460-504 | GeneticAlgorithm.MakePhenotype, GeneticAlgorithm.Install, GeneticAlgorithm.Epoch |
| Evolution.GeneticAlgorithm.StartedFrom | Source/NEATShooter/GeneticAlgorithm.cpp:45-53 | StartedFromAt, GeneticAlgorithm.AddStartGenomes, GeneticAlgorithm.Initialize |
| Evolution.StartCursor | Source/NEATShooter/GeneticAlgorithm.cpp:45-53 | StartCursorFromEmpty, GeneticAlgorithm.BuildStartGenomes |

## Left out

- Randomness: `rand()` is an unbounded stream of values in [0, 32767]. The model does not capture the C library's generator or seeding.
- Floating point: weights, fitness and coordinates are `real`. Float rounding, overflow, `exp` and the `float`/`double` mix of `RandFloat` are not modelled.
- `Sigmoid` is a parameter: the activation stays uninterpreted. Its numeric behaviour (Globals.h:71-74) is not modelled.
- Parameters are a value with the defaults of Parameters.cpp; loading them from the ini file is not modelled. The game mode object that carried them is replaced by `Params` and `Rng` arguments.
- Engine on-screen messages and logging are not modelled. This includes the fitness-count warning at GeneticAlgorithm.cpp:65-68; its undefined read past the scores becomes the `Failure` of `ResetAndScore`.
- Statistics are not modelled: `GetGenomeStats` and the average link and neuron counters (GeneticAlgorithm.cpp:86-93, 651-660).
- The plain getters and setters are not listed members: `GetGenotypes`, `GetBestPhenotype`, `GetLastGenerationsBestPhenotypes`, `SetFitness`, and the genome and species `Get*`/`Set*` other than `GetLeaderFitness` (modelled because it reads through the leader). They read or write one field, and the model does so directly.
- `GetSplitY` (Genotype.h:220) is a plain read by position and has no contract beyond its precondition.
- Memory management is not modelled: garbage collection, UPROPERTY ownership, and the leaked heap link copy in `MutateAddNode`. That copy appears only as the split link staying enabled.
- The static split table is the `staticSplits` field.
- Evolution.GeneticAlgorithm.Epoch: after a `Failure`, nothing is stated about the state. A failure stands for undefined behaviour in the C++:
  - an add-node mutation drawn on an empty link list, or a toggle try that picks from one;
  - too few neurons for add-link;
  - `GetTopGenome` past the end;
  - a tournament on an empty population;
  - a zero average adjusted fitness;
  - fewer scores than genomes;
  - fewer genomes than `numBestOrganisms`.
- Evolution.GeneticAlgorithm.Epoch: the next generation may list one object twice, as the C++ can through a stale child or a tournament winner. So fitness and sharing are stated for the last write to a genome, not for every listed position.
- Evolution.GeneticAlgorithm.Speciate: states that every genome lands in a species and that new species are appended. Which species each genome joins (the first compatible leader, else a new species) is stated one genome at a time, in `Seat` and `SeatNext`.
- Evolution.GeneticAlgorithm.AdjustSpeciesFitnesses: the shared fitness is stated for genomes that the algorithm knows.
- Evolution.GeneticAlgorithm.Initialize: when the genome list is still empty after the start loop (no earlier genomes and `populationSize` at most 0), the C++ reads `m_Genomes[0]` of an empty array (GeneticAlgorithm.cpp:56), which is undefined. The model returns `ok == false` there and leaves the ledger and the split table unchanged.
- Genotype.Genome.ToggleLinkGenes: requires that no try picks a link from an empty list. Such a try evaluates `m_Links[(int)RandFloat(0, 0)]`, a read of an empty array (undefined); tries whose draw is not below the chance, and calls with no tries, are modelled.
- Genotype.Genome.GetCompatibilityScore: the NaN comparisons of the C++ are modelled by a `NaN` score that is never compatible.
- Speciation.Species.GetTopGenome: a division by zero in `RandInt` (survival rate · n = -2) and a read past the end both yield `null`.
- Genotype.Genome.MutateAddNode: requires a link whenever the mutation is drawn and a try is left. On an empty list the C++ draws `RandInt(0, -1)` (a remainder by zero). The requirement that every link resolve to a neuron excludes the read at `m_Neurons[-1]`.
- Genotype.Genome.MutateAddLink: requires `0 <= numInputs` and at least `numInputs + 2` neurons whenever the mutation is drawn and a try is left. Otherwise the second `RandInt` can index past the neuron list.
- `USpecies::operator<` is never used.
- The phenotype link's recurrent flag is stored but never read during `Update`.
- Phenotype.NeuralNet.Update: requires an input value for every input neuron, counting input and bias neurons in list order. A shorter `vInputs` is an out-of-range read at Phenotype.cpp:57 (undefined).
- Globals.Rng.RandomClamped: takes the left operand's draw first. C++ leaves the evaluation order of `RandFloat() - RandFloat()` (Globals.h:175) unspecified, so a compiler may draw the right operand first; the range (-1, 1) holds either way.
- Evolution.GeneticAlgorithm.Epoch: on success states validity, a ledger that extends the old one, the population size, old-or-fresh genomes, the generation counter and one network per genome. The contracts of its steps (`ResetAndScore`, `SpeciateAndCalculateSpawnAmounts`, `SpawnAll`, `Breed`) are not combined into one statement of what a whole generation produces.
- Evolution.GeneticAlgorithm.Evaluate: states validity and the multiset of genomes only. The culling and the scores are stated by `ResetAndScore`; the ranking, species and spawn amounts by the steps of `SortAndSpeciate`.
- Evolution.GeneticAlgorithm.SortAndSpeciate: states validity and the multiset of genomes only. The species each genome joins is stated by `Speciate`, `Seat` and `SeatNext`, and the spawn amounts by `SpeciateAndCalculateSpawnAmounts`.
- Evolution.GeneticAlgorithm.BreedAndInstall: states what `Epoch` states, not which children are bred. Those are stated by `SpawnAll` and `Breed`.
- Evolution.GeneticAlgorithm.SpawnSpecies: states each later child's genes only per turn, by `SpawnNext`; over the whole loop it states the count, freshness, soundness, the genome IDs and the elite copy.
- Evolution.GeneticAlgorithm.Breed: states the backfilled places only as genomes of the old population. Which tournament winner fills each place is stated by `Backfill`, whose start cursor `Breed` does not name.
