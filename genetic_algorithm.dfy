/** `apply_genetic_algorithm`: evolve a population for a number of generations, then pick the AI's move. */
module GeneticAlgorithm {
  import opened Grid
  import opened Lists
  import opened PopulationEngine
  import opened MoveSelector

  /** One pass of the reproduction loop: cross two drawn parents, then maybe overwrite one gene in place. */
  method ReproduceChild(population: seq<Chromosome>, currentState: Board, d: ChildDraw) returns (child: Chromosome)
    requires WellFormed(population) && ValidDraw(d, |population|, currentState)
    ensures child == Breed(population, currentState, d)
    ensures |child| == ChromosomeSize
  {
    var parent1 := population[d.parent1];
    var parent2 := population[d.parent2];
    var crossoverPoint := d.point;
    var a := new Cell[ChromosomeSize](i requires 0 <= i < ChromosomeSize =>
      (parent1[..crossoverPoint] + parent2[crossoverPoint..])[i]);
    assert a[..] == Crossover(parent1, parent2, crossoverPoint);
    if d.mutate {
      var geneToMutate := d.gene;
      a[geneToMutate] := EmptyCells(currentState)[d.choice];
    }
    child := a[..];
  }

  /** One generation: score every member, carry the first fittest over, append one child per draw. */
  method RunGeneration(population: seq<Chromosome>, currentState: Board, draws: seq<ChildDraw>)
    returns (newPopulation: seq<Chromosome>)
    requires |population| > 0 && WellFormed(population) && ValidDraws(draws, |population|, currentState)
    ensures newPopulation == NextGeneration(population, currentState, draws)
    ensures |newPopulation| == |draws| + 1
  {
    var fitnessScores := FitnessScores(population, currentState);
    var bestChromosome := population[IndexOf(fitnessScores, Max(fitnessScores))];
    newPopulation := [bestChromosome];
    for s := 0 to |draws|
      invariant ValidDraws(draws[..s], |population|, currentState)
      invariant newPopulation == NextGeneration(population, currentState, draws[..s])
    {
      var child := ReproduceChild(population, currentState, draws[s]);
      assert draws[..s + 1] == draws[..s] + [draws[s]];
      NextGenerationAppend(population, currentState, draws[..s], draws[s]);
      newPopulation := newPopulation + [child];
    }
    assert draws[..|draws|] == draws;
  }

  /** The closing lines: score every empty cell for the AI and take the first of highest score. */
  method ChooseMove(currentState: Board) returns (bestMove: Cell)
    requires !IsGameOver(currentState)
    ensures bestMove == SelectMove(currentState)
    ensures currentState[bestMove] == 0
  {
    GameOverIffNoEmptyCells(currentState);
    var availableMoves := EmptyCells(currentState);
    var moveScores := [];
    for k := 0 to |availableMoves|
      invariant |moveScores| == k
      invariant forall j :: 0 <= j < k ==> moveScores[j] == MoveScore(availableMoves[j], currentState, -1)
    {
      var score := AssessMove(availableMoves[k], currentState, -1);
      moveScores := moveScores + [score];
    }
    assert moveScores == MoveScores(availableMoves, currentState, -1);
    bestMove := availableMoves[IndexOf(moveScores, Max(moveScores))];
    SelectMoveIsFirstBest(currentState);
  }

  /** The whole selector. `choose` supplies the genes of the initial population and `schedule` the draws
      of every child of every generation. The board must have an empty cell: on a full board the code
      fails at `max([])` (and at `random.choice([])` whenever a mutation is drawn).
      The returned move is a function of the board alone; the evolved population, returned as a ghost
      value, never reaches it. */
  method ApplyGeneticAlgorithm(currentState: Board, populationSize: nat, generations: nat,
                               choose: (nat, nat) -> Cell, schedule: seq<seq<ChildDraw>>)
    returns (bestMove: Cell, ghost finalPopulation: seq<Chromosome>)
    requires !IsGameOver(currentState)
    requires generations > 0 ==> populationSize > 0
    requires |schedule| == generations && ValidSchedule(schedule, populationSize, currentState)
    ensures bestMove == SelectMove(currentState)
    ensures currentState[bestMove] == 0
    ensures finalPopulation == Evolve(CreateInitialPopulation(populationSize, ChromosomeSize, choose), currentState, schedule)
    ensures |finalPopulation| == populationSize && WellFormed(finalPopulation)
  {
    var population := CreateInitialPopulation(populationSize, ChromosomeSize, choose);
    ghost var initial := population;
    for g := 0 to generations
      invariant |population| == populationSize && WellFormed(population)
      invariant Evolve(population, currentState, schedule[g..]) == Evolve(initial, currentState, schedule)
    {
      population := RunGeneration(population, currentState, schedule[g]);
      assert schedule[g..][1..] == schedule[g + 1..];
    }
    finalPopulation := population;
    bestMove := ChooseMove(currentState);
  }
}
