# Tic-tac-toe genetic-algorithm move selector, modelled in Dafny

The modelled program plays tic-tac-toe against a human. The AI plays -1 and the human plays 1, moving first. To choose the AI's move it runs a genetic algorithm (GA) over "chromosomes": lists of nine cell indices read as a preferred move order. A chromosome's fitness is the result of replaying it on a copy of the board; only games won by the AI score. The best chromosome of each generation is kept, and the other slots are filled by one-point crossover and an occasional mutation. After the last generation the move is chosen by a separate one-ply score of each empty cell: 2 if the cell wins now, 1 if the human would win there, 0 otherwise. The first empty cell with the highest score is returned, so the evolved population never affects the move.

Modules, one per component of `main.py`:

- `Grid` (grid.dfy): the board (nine integers: 0 empty, 1 and -1 the two marks) and cells 0..8. It also holds the list of empty cells and `is_game_over`.
- `Lists` (lists.dfy): the Python built-ins `max` and `list.index` that elitism and move choice use.
- `WinDetector` (win_detector.dfy): `has_won`. The eight winning triples are generated by the same loops as in the code.
- `Simulator` (simulator.dfy): `simulate_game`. The function `Simulate` defines it as a step function over a replay state. The method copies the board into a fresh array and marks it in place.
- `Fitness` (fitness.dfy): `compute_fitness_score`.
- `PopulationEngine` (population_engine.dfy): the initial population, crossover, mutation, elitism, one generation, and many generations.
- `MoveSelector` (move_selector.dfy): `assess_move` and the final choice of move.
- `GeneticAlgorithm` (genetic_algorithm.dfy): `apply_genetic_algorithm` as methods with loops. Its result is proved to be `SelectMove(currentState)`, a function of the board alone.

Randomness is an input. The initial genes come from a function `choose(i, j)`. The draws behind each child form a `ChildDraw` record: the two parent positions, the crossover point (1..8), a mutate flag, the gene index (0..8), and which empty cell is chosen, given as its position in the list of empty cells. `ValidDraw` states the ranges the random calls draw from.

Boards are passed as values (`seq<int>`). The code copies the board (`current_state.copy()`, `board.copy()`) before writing to it, so `simulate_game` and `assess_move` cannot change their caller's board. In the model this holds by construction. The private copies are arrays that the methods write in place.

Edge cases of the code that the model keeps:
- A chromosome `[0, 1, 2, ...]` does not win on its third move: the second move belongs to player -1, so no line is complete after three moves. The model proves the top-row opening `[0, 3, 1, 4, 2, ...]` instead (`Simulator.TopRowOpening`).
- The code has no guard for mutation on a full board: `random.choice([])` fails there, and the final `max([])` fails on a full board in every case. So `ApplyGeneticAlgorithm` requires `!IsGameOver(currentState)`.
- The code checks none of its configuration. The model requires only what the code needs to run: a non-empty population whenever at least one generation runs.

## Model

| member | source | states |
|---|---|---|
| Grid.EmptyCells | main.py:82 | the result holds exactly the empty cells of the board, in strictly increasing order |
| Grid.IsGameOver | main.py:96-97 | the board is over iff no cell holds 0 |
| Grid.GameOverIffNoEmptyCells | main.py:82-84 | the game is over iff the list of available moves is empty, so a non-over board always leaves a move |
| Lists.Max | main.py:84 | the result is an element of the list and no element exceeds it |
| Lists.IndexOf | main.py:65 | the result is a position holding x, and no earlier position holds x |
| Lists.FirstMaximumOfSorted | main.py:84 | over increasing keys, the first position of the maximum has no higher value, and every smaller key has a strictly lower value |
| WinDetector.WinningCombinations | main.py:25-40 | the generating loops produce exactly 8 triples, equal to the hand-written list of 3 rows, 3 columns and 2 diagonals |
| WinDetector.HasWon | main.py:24-46 | returns true iff the player owns every cell of one of the 8 triples |
| WinDetector.IsWinGeometry | main.py:30-46 | a win is exactly a full row, a full column, the main diagonal or the anti-diagonal, in row and column coordinates |
| WinDetector.EveryLineWins | main.py:42-44 | a player's marks on exactly one triple of an empty board are a win for that player and not for the opponent |
| WinDetector.WinByMarking | main.py:49-52 | marking cell m wins iff some triple has all its cells other than m already held by the player |
| Simulator.Step | main.py:15-20 | definition of one pass of the loop; a replay that stops names the player who just moved as winner; its full contract is in StepAdvances |
| Simulator.Run | main.py:15-20 | definition of the loop over all moves; a stopped replay never resumes |
| Simulator.Outcome | main.py:19-22 | definition of the returned value, 0 or 1: 1 only for a stop on a win by `player` |
| Simulator.Simulate | main.py:11-22 | the replay outcome is always 0 or 1 |
| Simulator.SimulateGame | main.py:11-22 | the in-place replay on a copied board returns Simulate's outcome, which is 0 or 1 |
| Simulator.RunFinished | main.py:18-19 | once a move completes a triple the replay stops: later moves change nothing |
| Simulator.RunAppend | main.py:15 | replaying a concatenation is the same as replaying the two parts one after the other |
| Simulator.SkipOccupied | main.py:15-20 | a move to a taken cell places no mark and keeps the turn: deleting it leaves the replay unchanged |
| Simulator.StepAdvances | main.py:16-20 | a move to a taken cell changes nothing; a stop happens only on an empty cell whose mark completes a triple for the mover, who is then the winner; otherwise exactly that cell gets the mover's sign, no triple is complete, and the turn passes |
| Simulator.RunInvariant | main.py:15-20 | marks are never erased; only empty cells get marked, with 1 or -1; the turn flips once per placed mark; a winner is 1 or -1 |
| Simulator.TopRowOpening | main.py:12-22 | on an empty board, [0, 3, 1, 4, 2] followed by any moves gives 1 for player 1 and 0 for player -1 |
| Simulator.TopRowOpeningMoves | main.py:15-19 | the five opening moves end with player 1 completing the top row |
| Simulator.RepeatedMoveIsWasted | main.py:15-19 | for every board and cell, [x, x, ...] replays exactly like [x, ...]: after the first x the cell is taken or the replay has stopped, so the repeated move is skipped |
| Fitness.Replays | main.py:8 | definition of the sum of n replays; the sum is at most n |
| Fitness.ReplaysRepeatOne | main.py:8 | n replays sum to n times the outcome of one replay |
| Fitness.FitnessScore | main.py:7-9 | the fitness is 10 times the outcome of one replay for player -1, so 0 or 10 |
| PopulationEngine.CreateInitialPopulation | main.py:4-5 | population_size chromosomes of chromosome_size genes each, every gene in 0..8 |
| PopulationEngine.Crossover | main.py:71-72 | the child keeps the parents' length and takes parent 1's genes before the point and parent 2's from the point on |
| PopulationEngine.CrossoverOfClones | main.py:69-72 | crossing a chromosome with itself gives it back, at any point |
| PopulationEngine.Mutate | main.py:74-76 | only the chosen gene may change, and its new value is an empty cell of the current board |
| PopulationEngine.MutateToOnlyEmptyCell | main.py:76 | with a single empty cell on the board, the mutated gene becomes that cell |
| PopulationEngine.Breed | main.py:69-78 | a child has 9 genes; the only gene that may differ from the crossover is the drawn gene of a mutating draw, and it then names an empty cell |
| PopulationEngine.FitnessScores | main.py:64 | definition of the fitness list; one score per chromosome, each 0 or 10; its use is in EliteIndex |
| PopulationEngine.EliteIndex | main.py:64-65 | the index of a chromosome of maximal fitness, with every earlier chromosome strictly less fit |
| PopulationEngine.NextGeneration | main.py:64-78 | one more member than there are draws, each with 9 genes |
| PopulationEngine.Elitism | main.py:64-68 | member 0 of the next generation is, unchanged, the first chromosome of maximal fitness; every other member is bred from its draw |
| PopulationEngine.NextGenerationAppend | main.py:68-78 | each further draw appends exactly one bred child to the generation |
| PopulationEngine.BestFitnessKept | main.py:64-80 | the best fitness of the next generation is at least that of the current one |
| PopulationEngine.Evolve | main.py:63-80 | after any number of generations the population keeps its size and every chromosome has 9 genes |
| PopulationEngine.EvolveKeepsBest | main.py:63-80 | over any number of generations the best fitness never drops |
| MoveSelector.MoveScore | main.py:48-58 | definition of the score of one cell, 0..2; its meaning is in MoveScoreMeaning |
| MoveSelector.AssessMove | main.py:48-58 | marking a private copy first for the player, then for the opponent, yields MoveScore |
| MoveSelector.MoveScoreMeaning | main.py:50-58 | the score is 0, 1 or 2; it is 2 iff the player's mark at the cell wins; it is 1 iff that does not win and the opponent's mark there does |
| MoveSelector.MoveScores | main.py:83 | definition of the score list; one score per move, each 0..2 |
| MoveSelector.SelectMove | main.py:82-84 | definition of the chosen move, an empty cell; its properties are in SelectMoveIsFirstBest and the lemmas after it |
| MoveSelector.SelectMoveIsFirstBest | main.py:82-84 | the chosen move is an empty cell; no empty cell scores higher; every lower-numbered empty cell scores strictly lower |
| MoveSelector.SelectMoveTakesWin | main.py:82-84 | if some empty cell wins now for the AI, the chosen move wins now (winning outranks blocking) |
| MoveSelector.SelectMoveBlocks | main.py:82-84 | if no empty cell wins for the AI but one would win for the human, the chosen move is a cell where the human would win |
| MoveSelector.BlockingScore | main.py:54-57 | a cell that does not win for the AI, yet scores at least as high as a cell where the human would win, is itself a cell where the human would win |
| MoveSelector.SelectMoveUniqueWin | main.py:82-84 | if exactly one empty cell wins for the AI, that cell is chosen |
| MoveSelector.SelectMoveDefaultsToFirstEmpty | main.py:82-84 | if every empty cell scores 0, the lowest empty cell is chosen |
| GeneticAlgorithm.ReproduceChild | main.py:69-76 | the crossover copied into an array, followed by the in-place write of the mutated gene, yields Breed's child, with 9 genes |
| GeneticAlgorithm.RunGeneration | main.py:64-80 | the population built by appending is NextGeneration (see Elitism), one member longer than the draws |
| GeneticAlgorithm.ChooseMove | main.py:82-86 | scoring the empty cells in a loop and taking the first maximum gives SelectMove, an empty cell |
| GeneticAlgorithm.ApplyGeneticAlgorithm | main.py:60-86 | the move equals SelectMove(currentState), so it does not depend on the population or on any draw; the discarded final population is Evolve of the initial population and keeps its size and shape |

## Left out

- `render_game_board`, `get_human_player_move` and `game_loop` (main.py:88-136): curses output, keyboard input and an endless turn loop are I/O, not selection logic. So the end-to-end property that self-play ends within nine placements is not modelled. Its step, that the chosen move is an empty cell, is (`MoveSelector.SelectMoveIsFirstBest`).
- The random number generator: every draw of `random.choice` and `random.randint` is an input (`choose`, `ChildDraw`), restricted to the range the call draws from. Uniformity is not modelled.
- `mutation_rate` and the floating-point test `random.uniform(0, 1) < mutation_rate` (main.py:74): the result of the comparison is the `mutate` flag of a draw.
- The code does not check its configuration at all, so no configuration error is modelled, and mutation on a full board appears only through the precondition described above.
- PopulationEngine.CreateInitialPopulation: states the shape and the gene range, not how the genes are distributed, because that depends on the random generator.
- GeneticAlgorithm.ApplyGeneticAlgorithm: the returned population is ghost. The code discards it and uses only the move.
