/**
 * The rules of one Rock-Paper-Scissors round: the three valid choices, the
 * validation of an inbound `make_move` payload, and `computeOutcome`.
 */
module Rules {
  import opened Wrappers

  datatype Move = Rock | Paper | Scissors

  datatype Outcome = Win | Lose | Tie

  /** The wire name of a move, as the client sends it. */
  function MoveName(m: Move): string
  {
    match m
    case Rock => "rock"
    case Paper => "paper"
    case Scissors => "scissors"
  }

  /** Validation of a `make_move` payload: one of the three wire names, or None. */
  function ParseChoice(choice: string): (r: Option<Move>)
    ensures r.Some? <==> choice == "rock" || choice == "paper" || choice == "scissors"
    ensures r.Some? ==> MoveName(r.value) == choice
  {
    if choice == "rock" then Some(Rock)
    else if choice == "paper" then Some(Paper)
    else if choice == "scissors" then Some(Scissors)
    else None
  }

  lemma ParseMoveName(m: Move)
    ensures ParseChoice(MoveName(m)) == Some(m)
  {
  }

  /** Position of a move on the cycle rock -> paper -> scissors -> rock. */
  function Rank(m: Move): int
  {
    match m
    case Rock => 0
    case Paper => 1
    case Scissors => 2
  }

  /**
   * Reference definition of the rule, independent of `ComputeOutcome`: a move
   * beats the one just before it on the cycle.
   */
  predicate Beats(a: Move, b: Move)
  {
    (Rank(a) - Rank(b)) % 3 == 1
  }

  /** `computeOutcome(a, b)`: the outcome of the round for the player who chose `a`. */
  function ComputeOutcome(a: Move, b: Move): (o: Outcome)
    ensures o == Tie <==> a == b
    ensures o == Win <==> Beats(a, b)
    ensures o == Lose <==> Beats(b, a)
  {
    if a == b then Tie
    else if (a == Rock && b == Scissors) || (a == Paper && b == Rock) || (a == Scissors && b == Paper) then Win
    else Lose
  }

  /** The outcome seen from the other side of the table. */
  function Opposite(o: Outcome): Outcome
  {
    match o
    case Win => Lose
    case Lose => Win
    case Tie => Tie
  }

  /** Both players' outcomes are complementary: never both `win`, never both `lose`. */
  lemma OutcomesComplementary(a: Move, b: Move)
    ensures ComputeOutcome(b, a) == Opposite(ComputeOutcome(a, b))
    ensures a != b ==> (ComputeOutcome(a, b) == Win <==> ComputeOutcome(b, a) == Lose)
  {
  }
}
