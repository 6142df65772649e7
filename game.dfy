/**
 * A game session (`ClGame`): a fixed configuration, an append-only turn log
 * and a fresh replay of the whole log on every evaluation.
 */
module Game {
  import opened Wrappers
  import opened Cards
  import opened Players
  import opened Turns
  import opened Matrix
  import opened Deduction
  import opened Evaluator

  datatype GameError = NotExactlyOneViewpoint

  /** The number of players marked `isMe`. */
  function ViewpointCount(players: seq<Player>): (n: nat)
    ensures n <= |players|
    ensures n == 0 <==> forall p :: p in players ==> !p.isMe
  {
    if players == [] then 0 else (if players[0].isMe then 1 else 0) + ViewpointCount(players[1..])
  }

  /** Every turn carries its index in the log as sequence number. */
  predicate DenseSeqNrs(turns: seq<Turn>)
  {
    forall i :: 0 <= i < |turns| ==> turns[i].seqNr == i
  }

  /** What `evaluate` returns: the replay of `turns` on a fresh evaluator. */
  function Evaluation(players: seq<Player>, allCards: set<Card>, leftOverCards: set<Card>, ownCards: set<Card>,
                      turns: seq<Turn>): EvaluationResult
  {
    var cfg := Config(allCards, leftOverCards, players, |ownCards|);
    Fixpoint(cfg, EvaluationResult(InitialMatrix(players, allCards, leftOverCards, ownCards), {}), turns).state
  }

  class ClGame {
    const name: string
    const players: seq<Player>
    const allCards: set<Card>
    const leftOverCards: set<Card>
    const ownCards: set<Card>
    var turns: seq<Turn>

    /** The constructor body; `New` performs the `init` check that guards it. */
    constructor (name: string, players: seq<Player>, allCards: set<Card>, leftOverCards: set<Card>,
                 ownCards: set<Card>, turns: seq<Turn>)
      requires ViewpointCount(players) == 1
      ensures this.name == name && this.players == players && this.allCards == allCards
      ensures this.leftOverCards == leftOverCards && this.ownCards == ownCards && this.turns == turns
    {
      this.name := name;
      this.players := players;
      this.allCards := allCards;
      this.leftOverCards := leftOverCards;
      this.ownCards := ownCards;
      this.turns := turns;
    }

    /** `ClGame(...)`: fails unless exactly one player is marked `isMe`. */
    static method New(name: string, players: seq<Player>, allCards: set<Card>, leftOverCards: set<Card>,
                      ownCards: set<Card>, turns: seq<Turn>)
      returns (r: Result<ClGame, GameError>)
      ensures r.Success? <==> ViewpointCount(players) == 1
      ensures r.Failure? ==> r.error == NotExactlyOneViewpoint
      ensures r.Success? ==>
        && fresh(r.value) && r.value.name == name && r.value.players == players && r.value.allCards == allCards
        && r.value.leftOverCards == leftOverCards && r.value.ownCards == ownCards && r.value.turns == turns
    {
      if ViewpointCount(players) != 1 {
        return Failure(NotExactlyOneViewpoint);
      }
      var game := new ClGame(name, players, allCards, leftOverCards, ownCards, turns);
      return Success(game);
    }

    /** Appends one turn numbered with the previous length of the log. */
    method AddTurn(question: Question, answer: Option<Answer>)
      modifies this`turns
      ensures turns == old(turns) + [Turn(question, answer, |old(turns)|)]
      ensures DenseSeqNrs(old(turns)) ==> DenseSeqNrs(turns)
    {
      turns := turns + [Turn(question, answer, |turns|)];
    }

    /** A fresh evaluator replays the whole log; the session itself is not changed. */
    method Evaluate() returns (r: EvaluationResult)
      ensures r == Evaluation(players, allCards, leftOverCards, ownCards, turns)
    {
      var evaluator := new ClGameEvaluator.Create(players, allCards, leftOverCards, ownCards);
      evaluator.UpdateMatrixFromTurns(turns);
      r := evaluator.Results();
    }
  }

  /** A log built by `addTurn` alone, from empty, is numbered 0, 1, 2, ... */
  lemma {:induction false} AddedTurnsDense(steps: seq<(Question, Option<Answer>)>)
    ensures DenseSeqNrs(Logged(steps))
    ensures |Logged(steps)| == |steps|
  {
    if steps != [] {
      AddedTurnsDense(steps[..|steps| - 1]);
    }
  }

  /** The log after adding the given question/answer pairs one by one to an empty log. */
  function Logged(steps: seq<(Question, Option<Answer>)>): seq<Turn>
  {
    if steps == [] then []
    else
      var prev := Logged(steps[..|steps| - 1]);
      prev + [Turn(steps[|steps| - 1].0, steps[|steps| - 1].1, |prev|)]
  }
}
