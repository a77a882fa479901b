/**
 * The tunable parameters of the evolutionary algorithm (the engine's
 * `UParameters` object, restricted to the values the NEAT core reads).
 * The configuration file may override every default, so the algorithm is
 * modelled for arbitrary values and `Ok` names what it relies on.
 */
module Parameters {

  datatype Params = Params(
    populationSize: int,
    numTriesForSelection: int,
    numBestOrganisms: int,
    chanceAddLink: real,
    numTriesAddLink: int,
    chanceAddNode: real,
    numTriesAddNode: int,
    weightMutationRate: real,
    maxWeightMutationPower: real,
    newWeightChance: real,
    compatibilityThreshold: real,
    newSpeciesFitnessBonus: real,
    newSpeciesFitnessBonusAgeCutoff: int,
    speciesFitnessPenaltyAge: int,
    oldAgePenalty: real,
    numGensAllowedNoImprovement: int,
    survivalRate: real,
    maxPermittedNeurons: int,
    crossoverRate: real,
    crossoverTries: int,
    speciesTarget: int,
    numTriesToggle: int,
    toggleLinkRate: real,
    enableLinkRate: real,
    excessCoeff: real,
    disjointCoeff: real,
    matchingCoeff: real)
  {
    /**
     * What the generation step relies on: a non-empty population, no more
     * recorded best genomes than genomes, and a survival rate below one half
     * (otherwise the parent index can run past a two-member species).
     */
    predicate Ok()
    {
      1 <= populationSize &&
      0 <= numBestOrganisms <= populationSize &&
      0.0 <= survivalRate < 0.5
    }
  }

  /** The defaults set by the parameters object before the configuration file is read. */
  function DefaultParams(): (p: Params)
    ensures p.populationSize == 100 && p.survivalRate == 0.4
  {
    Params(
      populationSize := 100,
      numTriesForSelection := 20,
      numBestOrganisms := 5,
      chanceAddLink := 0.1,
      numTriesAddLink := 5,
      chanceAddNode := 0.05,
      numTriesAddNode := 5,
      weightMutationRate := 0.7,
      maxWeightMutationPower := 0.8,
      newWeightChance := 0.1,
      compatibilityThreshold := 3.0,
      newSpeciesFitnessBonus := 0.3,
      newSpeciesFitnessBonusAgeCutoff := 10,
      speciesFitnessPenaltyAge := 25,
      oldAgePenalty := 0.15,
      numGensAllowedNoImprovement := 25,
      survivalRate := 0.4,
      maxPermittedNeurons := 600,
      crossoverRate := 0.75,
      crossoverTries := 5,
      speciesTarget := 15,
      numTriesToggle := 3,
      toggleLinkRate := 0.1,
      enableLinkRate := 0.1,
      excessCoeff := 1.0,
      disjointCoeff := 1.0,
      matchingCoeff := 0.4)
  }

  /** The default configuration meets what the generation step relies on. */
  lemma DefaultParamsOk()
    ensures DefaultParams().Ok()
  {
  }
}
