/** The population engine: initial population, elitism, crossover and mutation, with every random draw an input. */
module PopulationEngine {
  import opened Grid
  import opened Lists
  import opened Fitness

  /** A preferred move order: nine cell indices, not necessarily distinct or legal. */
  type Chromosome = seq<Cell>

  const ChromosomeSize: nat := 9

  /** Every chromosome has nine genes. */
  predicate WellFormed(population: seq<Chromosome>)
  {
    forall i :: 0 <= i < |population| ==> |population[i]| == ChromosomeSize
  }

  /** `create_initial_population`: gene j of chromosome i is the draw `choose(i, j)` of `random.choice(range(9))`. */
  function CreateInitialPopulation(populationSize: nat, chromosomeSize: nat, choose: (nat, nat) -> Cell)
    : (population: seq<Chromosome>)
    ensures |population| == populationSize
    ensures forall i :: 0 <= i < populationSize ==> |population[i]| == chromosomeSize
    ensures forall i, j :: 0 <= i < populationSize && 0 <= j < chromosomeSize ==> 0 <= population[i][j] <= 8
  {
    seq(populationSize, i requires 0 <= i < populationSize =>
      seq(chromosomeSize, j requires 0 <= j < chromosomeSize => choose(i, j)))
  }

  /** The random draws behind one child: the two parents' positions, the crossover point, whether the
      child mutates, and if so which gene and which of the board's empty cells (by position in the list). */
  datatype ChildDraw = ChildDraw(parent1: nat, parent2: nat, point: nat, mutate: bool, gene: nat, choice: nat)

  /** The ranges `random.choice` and `random.randint` draw from. */
  predicate ValidDraw(d: ChildDraw, populationSize: nat, b: Board)
  {
    && d.parent1 < populationSize && d.parent2 < populationSize
    && 1 <= d.point <= ChromosomeSize - 1
    && (d.mutate ==> d.gene < ChromosomeSize && d.choice < |EmptyCells(b)|)
  }

  predicate ValidDraws(draws: seq<ChildDraw>, populationSize: nat, b: Board)
  {
    forall s :: 0 <= s < |draws| ==> ValidDraw(draws[s], populationSize, b)
  }

  /** `parent1[:point] + parent2[point:]`. */
  function Crossover(parent1: Chromosome, parent2: Chromosome, point: nat): (child: Chromosome)
    requires |parent1| == |parent2| && 1 <= point < |parent1|
    ensures |child| == |parent1|
    ensures forall i :: 0 <= i < |child| ==> child[i] == if i < point then parent1[i] else parent2[i]
  {
    parent1[..point] + parent2[point..]
  }

  /** Crossing a chromosome with itself, at any point, gives it back. */
  lemma CrossoverOfClones(parent: Chromosome, point: nat)
    requires 1 <= point < |parent|
    ensures Crossover(parent, parent, point) == parent
  {
    assert parent[..point] + parent[point..] == parent;
  }

  /** `child[gene] = random.choice([i for i in range(9) if current_state[i] == 0])`. */
  function Mutate(child: Chromosome, gene: nat, b: Board, choice: nat): (mutant: Chromosome)
    requires gene < |child| && choice < |EmptyCells(b)|
    ensures |mutant| == |child|
    ensures forall i :: 0 <= i < |child| && i != gene ==> mutant[i] == child[i]
    ensures b[mutant[gene]] == 0
  {
    child[gene := EmptyCells(b)[choice]]
  }

  /** On a board with a single empty cell, a mutated gene always becomes that cell. */
  lemma MutateToOnlyEmptyCell(child: Chromosome, gene: nat, b: Board, choice: nat, c: Cell)
    requires gene < |child| && choice < |EmptyCells(b)|
    requires b[c] == 0 && forall d: Cell :: d != c ==> b[d] != 0
    ensures Mutate(child, gene, b, choice)[gene] == c
  {
  }

  /** One child of the reproduction loop: a crossover of two members, then possibly one mutated gene. */
  function Breed(population: seq<Chromosome>, b: Board, d: ChildDraw): (child: Chromosome)
    requires WellFormed(population) && ValidDraw(d, |population|, b)
    ensures |child| == ChromosomeSize
    ensures var crossed := Crossover(population[d.parent1], population[d.parent2], d.point);
      forall i :: 0 <= i < ChromosomeSize && child[i] != crossed[i] ==> d.mutate && i == d.gene && b[child[i]] == 0
  {
    var child := Crossover(population[d.parent1], population[d.parent2], d.point);
    if d.mutate then Mutate(child, d.gene, b, d.choice) else child
  }

  /** `[compute_fitness_score(chromosome, current_state) for chromosome in population]`. */
  function FitnessScores(population: seq<Chromosome>, b: Board): (scores: seq<int>)
    ensures |scores| == |population|
    ensures forall i :: 0 <= i < |scores| ==> scores[i] == 0 || scores[i] == 10
  {
    seq(|population|, i requires 0 <= i < |population| => FitnessScore(population[i], b))
  }

  /** `fitness_scores.index(max(fitness_scores))`: the first member of highest fitness. */
  function EliteIndex(population: seq<Chromosome>, b: Board): (k: nat)
    requires |population| > 0
    ensures k < |population|
    ensures forall i :: 0 <= i < |population| ==> FitnessScore(population[i], b) <= FitnessScore(population[k], b)
    ensures forall i :: 0 <= i < k ==> FitnessScore(population[i], b) < FitnessScore(population[k], b)
  {
    var scores := FitnessScores(population, b);
    assert forall i :: 0 <= i < |population| ==> scores[i] == FitnessScore(population[i], b);
    IndexOf(scores, Max(scores))
  }

  /** One generation: the elite member first, then one bred child per draw. */
  function NextGeneration(population: seq<Chromosome>, b: Board, draws: seq<ChildDraw>): (next: seq<Chromosome>)
    requires |population| > 0 && WellFormed(population) && ValidDraws(draws, |population|, b)
    ensures |next| == |draws| + 1 && WellFormed(next)
  {
    [population[EliteIndex(population, b)]] +
      seq(|draws|, s requires 0 <= s < |draws| => Breed(population, b, draws[s]))
  }

  /** Elitism: the next generation starts with the first fittest member, unchanged; every other member is bred. */
  lemma Elitism(population: seq<Chromosome>, b: Board, draws: seq<ChildDraw>)
    requires |population| > 0 && WellFormed(population) && ValidDraws(draws, |population|, b)
    ensures var k := EliteIndex(population, b); NextGeneration(population, b, draws)[0] == population[k]
    ensures var best := NextGeneration(population, b, draws)[0];
      forall i :: 0 <= i < |population| ==> FitnessScore(population[i], b) <= FitnessScore(best, b)
    ensures var k := EliteIndex(population, b); var best := NextGeneration(population, b, draws)[0];
      forall i :: 0 <= i < k ==> FitnessScore(population[i], b) < FitnessScore(best, b)
    ensures forall s :: 0 <= s < |draws| ==> NextGeneration(population, b, draws)[s + 1] == Breed(population, b, draws[s])
  {
    var k := EliteIndex(population, b);
    assert NextGeneration(population, b, draws)[0] == population[k];
  }

  /** Each further draw appends one bred child to the generation. */
  lemma NextGenerationAppend(population: seq<Chromosome>, b: Board, draws: seq<ChildDraw>, d: ChildDraw)
    requires |population| > 0 && WellFormed(population)
    requires ValidDraws(draws, |population|, b) && ValidDraw(d, |population|, b)
    ensures ValidDraws(draws + [d], |population|, b)
    ensures NextGeneration(population, b, draws + [d]) == NextGeneration(population, b, draws) + [Breed(population, b, d)]
  {
    assert ValidDraws(draws + [d], |population|, b) by {
      forall s | 0 <= s < |draws| + 1 ensures ValidDraw((draws + [d])[s], |population|, b) {
        if s < |draws| {
          assert (draws + [d])[s] == draws[s];
        }
      }
    }
    var longer := NextGeneration(population, b, draws + [d]);
    var shorter := NextGeneration(population, b, draws) + [Breed(population, b, d)];
    forall i | 0 <= i < |longer| ensures longer[i] == shorter[i] {
      if 0 < i <= |draws| {
        assert (draws + [d])[i - 1] == draws[i - 1];
      }
    }
  }

  /** The best fitness of a generation is never below that of the one before it. */
  lemma BestFitnessKept(population: seq<Chromosome>, b: Board, draws: seq<ChildDraw>)
    requires |population| > 0 && WellFormed(population) && ValidDraws(draws, |population|, b)
    ensures Max(FitnessScores(NextGeneration(population, b, draws), b)) >= Max(FitnessScores(population, b))
  {
    var next := NextGeneration(population, b, draws);
    var k := EliteIndex(population, b);
    assert FitnessScores(next, b)[0] == FitnessScore(population[k], b);
  }

  /** Draws for every generation: population_size - 1 children each, all in range. */
  predicate ValidSchedule(schedule: seq<seq<ChildDraw>>, populationSize: nat, b: Board)
  {
    forall g :: 0 <= g < |schedule| ==>
      |schedule[g]| == populationSize - 1 && ValidDraws(schedule[g], populationSize, b)
  }

  /** The population after one generation per entry of `schedule`. */
  function Evolve(population: seq<Chromosome>, b: Board, schedule: seq<seq<ChildDraw>>): (final: seq<Chromosome>)
    requires WellFormed(population) && (|schedule| > 0 ==> |population| > 0)
    requires ValidSchedule(schedule, |population|, b)
    ensures |final| == |population| && WellFormed(final)
    decreases |schedule|
  {
    if schedule == [] then population
    else Evolve(NextGeneration(population, b, schedule[0]), b, schedule[1..])
  }

  /** Over any number of generations the best fitness never drops. */
  lemma {:induction false} EvolveKeepsBest(population: seq<Chromosome>, b: Board, schedule: seq<seq<ChildDraw>>)
    requires |population| > 0 && WellFormed(population) && ValidSchedule(schedule, |population|, b)
    ensures Max(FitnessScores(Evolve(population, b, schedule), b)) >= Max(FitnessScores(population, b))
    decreases |schedule|
  {
    if schedule != [] {
      var next := NextGeneration(population, b, schedule[0]);
      BestFitnessKept(population, b, schedule[0]);
      EvolveKeepsBest(next, b, schedule[1..]);
    }
  }
}
