/** The fitness evaluator (`compute_fitness_score`): ten replays of a chromosome, scored for the AI. */
module Fitness {
  import opened Grid
  import opened Simulator

  /** The AI's mark; fitness is always measured for it. */
  const AI: int := -1

  /** `sum(simulate_game(chromosome, board, player=-1) for _ in range(n))`. */
  function Replays(chromosome: seq<Cell>, b: Board, n: nat): (total: nat)
    ensures total <= n
  {
    if n == 0 then 0 else Simulate(chromosome, b, AI) + Replays(chromosome, b, n - 1)
  }

  /** The replays are identical: n of them score n times one of them. */
  lemma {:induction false} ReplaysRepeatOne(chromosome: seq<Cell>, b: Board, n: nat)
    ensures Replays(chromosome, b, n) == n * Simulate(chromosome, b, AI)
  {
    if n > 0 {
      ReplaysRepeatOne(chromosome, b, n - 1);
    }
  }

  /** `compute_fitness_score`: ten times the outcome of a single replay, so 0 or 10. */
  function FitnessScore(chromosome: seq<Cell>, b: Board): (score: nat)
    ensures score == 10 * Simulate(chromosome, b, AI)
    ensures score == 0 || score == 10
  {
    ReplaysRepeatOne(chromosome, b, 10);
    Replays(chromosome, b, 10)
  }
}
