/**
 * The deduction engine `ClGameEvaluator`: a matrix and a solution set that
 * its methods update in place. Each method is proved to leave the state the
 * corresponding function of module Deduction describes.
 */
module Evaluator {
  import opened Wrappers
  import opened Cards
  import opened Players
  import opened Turns
  import opened Matrix
  import opened Deduction

  class ClGameEvaluator {
    var exclusionMatrix: Matrix
    var solutionCards: set<Card>
    const allCards: set<Card>
    const leftOverCards: set<Card>
    const players: seq<Player>
    const maxPlayerCards: int

    function Config(): Config
    {
      Deduction.Config(allCards, leftOverCards, players, maxPlayerCards)
    }

    /** `results()`: the current matrix and solution cards. */
    function Results(): EvaluationResult
      reads this
    {
      EvaluationResult(exclusionMatrix, solutionCards)
    }

    /**
     * `create`: NOT_CLEAR for every player and card, then for each player the
     * leftover cards NO and the own cards YES (viewpoint) or NO (others);
     * `maxPlayerCards` is the number of own cards.
     */
    constructor Create(players: seq<Player>, allCards: set<Card>, leftOverCards: set<Card>, ownCards: set<Card>)
      ensures this.players == players && this.allCards == allCards && this.leftOverCards == leftOverCards
      ensures maxPlayerCards == |ownCards|
      ensures exclusionMatrix == InitialMatrix(players, allCards, leftOverCards, ownCards)
      ensures solutionCards == {}
    {
      this.players := players;
      this.allCards := allCards;
      this.leftOverCards := leftOverCards;
      this.maxPlayerCards := |ownCards|;
      this.exclusionMatrix := Assign(map[], players, allCards, NotClear);
      this.solutionCards := {};
      new;
      ghost var m0 := exclusionMatrix;
      for i := 0 to |players|
        invariant exclusionMatrix == InitialRows(m0, players[..i], leftOverCards, ownCards)
        invariant solutionCards == {}
      {
        var pl := players[i];
        SetCells([pl], leftOverCards, No);
        if pl.isMe {
          SetCells([pl], ownCards, Yes);
        } else {
          SetCells([pl], ownCards, No);
        }
        assert players[..i + 1][..i] == players[..i];
      }
      assert players[..|players|] == players;
    }

    /** `exclusionMatrix[pl to card] = v` for every listed player and every card. */
    method SetCells(pls: seq<Player>, cards: set<Card>, v: HasCard)
      modifies this`exclusionMatrix
      ensures exclusionMatrix == Assign(old(exclusionMatrix), pls, cards, v)
    {
      ghost var m0 := exclusionMatrix;
      assert Assign(m0, pls[..0], cards, v) == m0;
      for j := 0 to |pls|
        invariant exclusionMatrix == Assign(m0, pls[..j], cards, v)
      {
        var pl := pls[j];
        ghost var before := exclusionMatrix;
        var todo := cards;
        AssignNothing(before, [pl], v);
        while todo != {}
          invariant todo <= cards
          invariant exclusionMatrix == Assign(before, [pl], cards - todo, v)
          decreases todo
        {
          var card :| card in todo;
          AssignOneCell(exclusionMatrix, pl, card, v);
          AssignMoreCards(before, [pl], cards - todo, {card}, v);
          exclusionMatrix := exclusionMatrix[(pl, card) := v];
          assert (cards - todo) + {card} == cards - (todo - {card});
          todo := todo - {card};
        }
        assert cards - todo == cards;
        AssignMorePlayers(m0, pls[..j], pl, cards, v);
        assert pls[..j + 1] == pls[..j] + [pl];
      }
      assert pls[..|pls|] == pls;
    }

    /** (1) players strictly between asker and answerer hold none of the asked cards. */
    method UpdateInBetweenPlayers(turns: seq<Turn>)
      modifies this`exclusionMatrix
      ensures exclusionMatrix == MarkInBetween(Config(), old(exclusionMatrix), turns)
    {
      ghost var m0 := exclusionMatrix;
      for i := 0 to |turns|
        invariant exclusionMatrix == MarkInBetween(Config(), m0, turns[..i])
      {
        var turn := turns[i];
        match turn.answer {
          case None =>
          case Some(answer) =>
            var between := InBetween(SortByPosition(players, Some(turn.question.player)), turn.question.player,
                                     answer.player);
            SetCells(between, QuestionCards(turn.question), No);
        }
        assert turns[..i + 1][..i] == turns[..i];
      }
      assert turns[..|turns|] == turns;
    }

    /** (1) a one-card answer: the card is NO for every player and YES for the answerer. */
    method AddCardsFromAnswers(turns: seq<Turn>)
      modifies this`exclusionMatrix
      ensures exclusionMatrix == AddAnswerCards(Config(), old(exclusionMatrix), turns)
    {
      ghost var m0 := exclusionMatrix;
      for i := 0 to |turns|
        invariant exclusionMatrix == AddAnswerCards(Config(), m0, turns[..i])
      {
        var turn := turns[i];
        if SingleCardAnswer(turn) {
          var answer := turn.answer.value;
          var card :| card in answer.cards;
          assert card == SoleCard(answer.cards);
          SetCells(players, {card}, No);
          exclusionMatrix := exclusionMatrix[(answer.player, card) := Yes];
        }
        assert turns[..i + 1][..i] == turns[..i];
      }
      assert turns[..|turns|] == turns;
    }

    /** Adds every given card to the solution and makes it NO for every player. */
    method AddSolutionCards(cards: set<Card>)
      modifies this`exclusionMatrix, this`solutionCards
      ensures exclusionMatrix == Assign(old(exclusionMatrix), players, cards, No)
      ensures solutionCards == old(solutionCards) + cards
    {
      ghost var m0, s0 := exclusionMatrix, solutionCards;
      var todo := cards;
      AssignNothing(m0, players, No);
      while todo != {}
        invariant todo <= cards
        invariant exclusionMatrix == Assign(m0, players, cards - todo, No)
        invariant solutionCards == s0 + (cards - todo)
        decreases todo
      {
        var card :| card in todo;
        solutionCards := solutionCards + {card};
        AssignMoreCards(m0, players, cards - todo, {card}, No);
        SetCells(players, {card}, No);
        assert (cards - todo) + {card} == cards - (todo - {card});
        todo := todo - {card};
      }
      assert cards - todo == cards;
    }

    /** (2a) solution cards from unanswered questions of a player whose hand is fully known. */
    method FindSolutionsFromEmptyAnswers(turns: seq<Turn>)
      modifies this`exclusionMatrix, this`solutionCards
      ensures Results() == EmptyAnswerSolutions(Config(), old(Results()), turns)
    {
      ghost var st0 := Results();
      for i := 0 to |turns|
        invariant Results() == EmptyAnswerSolutions(Config(), st0, turns[..i])
      {
        var turn := turns[i];
        ghost var before := Results();
        if Unanswered(turn) {
          var askingPlayerCards := PlayerCards(exclusionMatrix, turn.question.player);
          if |askingPlayerCards| == maxPlayerCards {
            AddSolutionCards(QuestionCards(turn.question) - leftOverCards - askingPlayerCards);
          }
        }
        if EmptyAnswerCards(Config(), before.exclusionMatrix, turn) == {} {
          AssignNothing(before.exclusionMatrix, players, No);
        }
        assert turns[..i + 1][..i] == turns[..i];
      }
      assert turns[..|turns|] == turns;
    }

    /** (2b) fully excluded cards that are not leftovers are solution cards. */
    method FindSolutionsFromExcludedCards()
      modifies this`solutionCards
      ensures Results() == FullExclusionSolutions(Config(), old(Results()))
    {
      solutionCards := solutionCards + (CompleteExcludedCards(exclusionMatrix) - leftOverCards);
    }

    /** (2c) the last undetermined card of a category is a solution card. */
    method FindSolutionsFromCategories()
      modifies this`exclusionMatrix, this`solutionCards
      ensures Results() == LastInCategorySolutions(Config(), old(Results()))
    {
      var lone := LoneInCategory(allCards - leftOverCards - PlayerCardSet(exclusionMatrix));
      AddSolutionCards(lone);
    }

    /** (3a) a player with `maxPlayerCards` known cards holds no other card. */
    method ExcludeOthersOfFullHands()
      modifies this`exclusionMatrix
      ensures exclusionMatrix == FullHandRule(Config(), old(exclusionMatrix), players)
    {
      ghost var m0 := exclusionMatrix;
      for i := 0 to |players|
        invariant exclusionMatrix == FullHandRule(Config(), m0, players[..i])
      {
        var pl := players[i];
        var playerCards := PlayerCards(exclusionMatrix, pl);
        if |playerCards| == maxPlayerCards {
          SetCells([pl], allCards - playerCards, No);
        }
        assert players[..i + 1][..i] == players[..i];
      }
      assert players[..|players|] == players;
    }

    /** (3b) a player with exactly `maxPlayerCards` cards not excluded holds all of them. */
    method IncludeRemainingCards()
      modifies this`exclusionMatrix
      ensures exclusionMatrix == ComplementRule(Config(), old(exclusionMatrix), players)
    {
      ghost var m0 := exclusionMatrix;
      for i := 0 to |players|
        invariant exclusionMatrix == ComplementRule(Config(), m0, players[..i])
      {
        var pl := players[i];
        var nonPlayerCards := NonPlayerCards(exclusionMatrix, pl);
        if |allCards| - |nonPlayerCards| == maxPlayerCards {
          SetCells([pl], allCards - nonPlayerCards, Yes);
        }
        assert players[..i + 1][..i] == players[..i];
      }
      assert players[..|players|] == players;
    }

    /** The body of one round of `updateMatrixFromTurns`: the four passes in order. */
    method RunPasses(turns: seq<Turn>)
      modifies this`exclusionMatrix, this`solutionCards
      ensures Results() == RoundState(Config(), old(Results()), turns)
    {
      UpdateInBetweenPlayers(turns);
      AddCardsFromAnswers(turns);
      FindSolutionsFromEmptyAnswers(turns);
      FindSolutionsFromExcludedCards();
      FindSolutionsFromCategories();
      ExcludeOthersOfFullHands();
      IncludeRemainingCards();
    }

    /**
     * `updateMatrixFromTurns`: the four passes, repeated on the refined turns
     * while the turns or the number of NOT_CLEAR cards changed.
     */
    method UpdateMatrixFromTurns(turns: seq<Turn>)
      modifies this`exclusionMatrix, this`solutionCards
      ensures Results() == Fixpoint(Config(), old(Results()), turns).state
    {
      var current := turns;
      while true
        invariant Fixpoint(Config(), Results(), current) == Fixpoint(Config(), old(Results()), turns)
        decreases Measure(Results(), current)
      {
        ghost var before := Results();
        var notClearCardsBefore := |NotClearCards(exclusionMatrix)|;
        RunPasses(current);
        var updatedTurns := RefineTurns(exclusionMatrix, current);
        if !(updatedTurns != current || |NotClearCards(exclusionMatrix)| != notClearCardsBefore) {
          return;
        }
        RoundMeasureDecreases(Config(), before, current);
        current := updatedTurns;
      }
    }
  }
}
