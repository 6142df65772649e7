/**
 * The rules of `ClGameEvaluator.updateMatrixFromTurns`, stated as functions.
 * Every `forEach` loop of the engine is a left fold over its list (the step
 * for the last element applied to the fold of the rest), so that the loops of
 * the class in module Evaluator can keep "state so far == fold of the prefix"
 * as their invariant. `Fixpoint` is the restart-on-change recursion, with the
 * termination measure the engine's restart test implies.
 */
module Deduction {
  import opened Wrappers
  import opened Cards
  import opened Players
  import opened Turns
  import opened Matrix

  /** The fixed configuration of an evaluator. */
  datatype Config = Config(
    allCards: set<Card>,
    leftOverCards: set<Card>,
    players: seq<Player>,
    maxPlayerCards: int)

  // ---------------------------------------------------------------------------
  // (0) the initial matrix
  // ---------------------------------------------------------------------------

  /** The value `create` writes into the row of `pl` for an own card. */
  function OwnCardValue(pl: Player): HasCard
  {
    if pl.isMe then Yes else No
  }

  /** One iteration of `create`'s loop: leftovers NO, then own cards YES for the viewpoint, NO otherwise. */
  function InitialRow(m: Matrix, pl: Player, leftOverCards: set<Card>, ownCards: set<Card>): Matrix
  {
    Assign(Assign(m, [pl], leftOverCards, No), [pl], ownCards, OwnCardValue(pl))
  }

  function InitialRows(m: Matrix, pls: seq<Player>, leftOverCards: set<Card>, ownCards: set<Card>): Matrix
  {
    if pls == [] then m
    else InitialRow(InitialRows(m, pls[..|pls| - 1], leftOverCards, ownCards), pls[|pls| - 1], leftOverCards, ownCards)
  }

  /** The matrix `create` builds: NOT_CLEAR for every player and card, then the rows. */
  function InitialMatrix(players: seq<Player>, allCards: set<Card>, leftOverCards: set<Card>, ownCards: set<Card>)
    : Matrix
  {
    InitialRows(Assign(map[], players, allCards, NotClear), players, leftOverCards, ownCards)
  }

  lemma {:induction false} InitialRowsCells(m: Matrix, pls: seq<Player>, leftOverCards: set<Card>, ownCards: set<Card>)
    ensures var r := InitialRows(m, pls, leftOverCards, ownCards);
      && r.Keys == m.Keys + Cells(pls, leftOverCards + ownCards)
      && (forall p, c :: p in pls && c in ownCards ==> r[(p, c)] == OwnCardValue(p))
      && (forall p, c :: p in pls && c in leftOverCards && c !in ownCards ==> r[(p, c)] == No)
      && (forall k :: k in m && k !in Cells(pls, leftOverCards + ownCards) ==> r[k] == m[k])
  {
    if pls != [] {
      var init, last := pls[..|pls| - 1], pls[|pls| - 1];
      assert pls == init + [last];
      var cards := leftOverCards + ownCards;
      var prev := InitialRows(m, init, leftOverCards, ownCards);
      var r := InitialRows(m, pls, leftOverCards, ownCards);
      InitialRowsCells(m, init, leftOverCards, ownCards);
      InitialRowCells(prev, last, leftOverCards, ownCards);
      CellsSnoc(init, last, cards);
      forall p, c | p in pls && c in ownCards ensures r[(p, c)] == OwnCardValue(p) {
        if p != last {
          assert (p, c) !in Cells([last], cards) && (p, c) in prev;
        }
      }
      forall p, c | p in pls && c in leftOverCards && c !in ownCards ensures r[(p, c)] == No {
        if p != last {
          assert (p, c) !in Cells([last], cards) && (p, c) in prev;
        }
      }
    }
  }

  /** One row of `create`: the cells of `pl` for leftover and own cards, and nothing else changes. */
  lemma InitialRowCells(m: Matrix, pl: Player, leftOverCards: set<Card>, ownCards: set<Card>)
    ensures var r := InitialRow(m, pl, leftOverCards, ownCards);
      && r.Keys == m.Keys + Cells([pl], leftOverCards + ownCards)
      && (forall c :: c in ownCards ==> r[(pl, c)] == OwnCardValue(pl))
      && (forall c :: c in leftOverCards && c !in ownCards ==> r[(pl, c)] == No)
      && (forall k :: k in m && k !in Cells([pl], leftOverCards + ownCards) ==> r[k] == m[k])
  {
    var m1 := Assign(m, [pl], leftOverCards, No);
    assert forall c :: c in leftOverCards && c !in ownCards ==> (pl, c) !in Cells([pl], ownCards);
  }

  lemma CellsSnoc(init: seq<Player>, last: Player, cards: set<Card>)
    ensures Cells(init + [last], cards) == Cells(init, cards) + Cells([last], cards)
  {
    forall p, c ensures (p, c) in Cells(init + [last], cards) <==> (p, c) in Cells(init, cards) + Cells([last], cards) {
      assert p in init + [last] <==> p in init || p == last;
    }
  }

  /**
   * After `create`: every cell of a listed player for a listed, leftover or
   * own card exists; an own card is YES for a viewpoint player and NO for the
   * others; any other leftover card is NO; every other card is NOT_CLEAR.
   */
  lemma InitialMatrixCells(players: seq<Player>, allCards: set<Card>, leftOverCards: set<Card>, ownCards: set<Card>)
    ensures var m := InitialMatrix(players, allCards, leftOverCards, ownCards);
      && m.Keys == Cells(players, allCards + leftOverCards + ownCards)
      && (forall p, c :: p in players && c in ownCards ==> m[(p, c)] == (if p.isMe then Yes else No))
      && (forall p, c :: p in players && c in leftOverCards && c !in ownCards ==> m[(p, c)] == No)
      && (forall p, c :: p in players && c in allCards && c !in leftOverCards && c !in ownCards ==>
            m[(p, c)] == NotClear)
  {
    InitialRowsCells(Assign(map[], players, allCards, NotClear), players, leftOverCards, ownCards);
  }

  /**
   * The unit test of a fresh evaluator: the viewpoint player's known cards are
   * the own cards, and, for own cards not among the leftovers, the fully
   * excluded cards are the leftover cards.
   */
  lemma FreshEvaluatorQueries(players: seq<Player>, allCards: set<Card>, leftOverCards: set<Card>, ownCards: set<Card>,
                              me: Player)
    requires me in players && me.isMe
    requires leftOverCards !! ownCards
    ensures PlayerCards(InitialMatrix(players, allCards, leftOverCards, ownCards), me) == ownCards
    ensures CompleteExcludedCards(InitialMatrix(players, allCards, leftOverCards, ownCards)) == leftOverCards
  {
    FreshOwnCards(players, allCards, leftOverCards, ownCards, me);
    FreshExcludedCards(players, allCards, leftOverCards, ownCards, me);
  }

  lemma FreshOwnCards(players: seq<Player>, allCards: set<Card>, leftOverCards: set<Card>, ownCards: set<Card>,
                      me: Player)
    requires me in players && me.isMe
    ensures PlayerCards(InitialMatrix(players, allCards, leftOverCards, ownCards), me) == ownCards
  {
    InitialMatrixCells(players, allCards, leftOverCards, ownCards);
  }

  lemma FreshExcludedCards(players: seq<Player>, allCards: set<Card>, leftOverCards: set<Card>,
                           ownCards: set<Card>, me: Player)
    requires me in players && me.isMe
    requires leftOverCards !! ownCards
    ensures CompleteExcludedCards(InitialMatrix(players, allCards, leftOverCards, ownCards)) == leftOverCards
  {
    var m := InitialMatrix(players, allCards, leftOverCards, ownCards);
    InitialMatrixCells(players, allCards, leftOverCards, ownCards);
    forall c ensures c in CompleteExcludedCards(m) <==> c in leftOverCards {
      if c in leftOverCards {
        assert (me, c) in m;
      }
      if c in CompleteExcludedCards(m) {
        var p :| (p, c) in m;
        assert m[(me, c)] == No;
      }
    }
  }

  // ---------------------------------------------------------------------------
  // (1) turns: players in between, single-card answers
  // ---------------------------------------------------------------------------

  /** The players the engine takes as skipped: strictly between asker and answerer, counted from the asker. */
  function SkippedPlayers(players: seq<Player>, t: Turn): seq<Player>
    requires t.answer.Some?
  {
    InBetween(SortByPosition(players, Some(t.question.player)), t.question.player, t.answer.value.player)
  }

  function MarkInBetweenStep(cfg: Config, m: Matrix, t: Turn): Matrix
  {
    match t.answer
    case None => m
    case Some(a) => Assign(m, SkippedPlayers(cfg.players, t), QuestionCards(t.question), No)
  }

  function MarkInBetween(cfg: Config, m: Matrix, turns: seq<Turn>): Matrix
  {
    if turns == [] then m
    else MarkInBetweenStep(cfg, MarkInBetween(cfg, m, turns[..|turns| - 1]), turns[|turns| - 1])
  }

  /** A one-card answer: the card is NO for every player, then YES for the answerer. */
  function AddAnswerCardStep(cfg: Config, m: Matrix, t: Turn): Matrix
  {
    if SingleCardAnswer(t) then
      var card := SoleCard(t.answer.value.cards);
      Assign(m, cfg.players, {card}, No)[(t.answer.value.player, card) := Yes]
    else m
  }

  function AddAnswerCards(cfg: Config, m: Matrix, turns: seq<Turn>): Matrix
  {
    if turns == [] then m
    else AddAnswerCardStep(cfg, AddAnswerCards(cfg, m, turns[..|turns| - 1]), turns[|turns| - 1])
  }

  // ---------------------------------------------------------------------------
  // (2) solution cards
  // ---------------------------------------------------------------------------

  /** The cards an unanswered question proves to be solution cards, when the asker's hand is fully known. */
  function EmptyAnswerCards(cfg: Config, m: Matrix, t: Turn): set<Card>
  {
    var askingPlayerCards := PlayerCards(m, t.question.player);
    if Unanswered(t) && |askingPlayerCards| == cfg.maxPlayerCards
    then QuestionCards(t.question) - cfg.leftOverCards - askingPlayerCards
    else {}
  }

  /** (2a) every such card joins the solution and becomes NO for every player. */
  function EmptyAnswerStep(cfg: Config, st: EvaluationResult, t: Turn): EvaluationResult
  {
    var cards := EmptyAnswerCards(cfg, st.exclusionMatrix, t);
    EvaluationResult(Assign(st.exclusionMatrix, cfg.players, cards, No), st.solutionCards + cards)
  }

  function EmptyAnswerSolutions(cfg: Config, st: EvaluationResult, turns: seq<Turn>): EvaluationResult
  {
    if turns == [] then st
    else EmptyAnswerStep(cfg, EmptyAnswerSolutions(cfg, st, turns[..|turns| - 1]), turns[|turns| - 1])
  }

  /** (2b) a fully excluded card that is not a leftover is a solution card. */
  function FullExclusionSolutions(cfg: Config, st: EvaluationResult): EvaluationResult
  {
    st.(solutionCards := st.solutionCards + (CompleteExcludedCards(st.exclusionMatrix) - cfg.leftOverCards))
  }

  function CardsOfKind(s: set<Card>, kind: CardType): set<Card>
  {
    set c | c in s && c.kind == kind
  }

  /** The members of `s` that are the only member of their category (`groupBy`, then groups of size one). */
  function LoneInCategory(s: set<Card>): (r: set<Card>)
    ensures r <= s
  {
    set c | c in s && CardsOfKind(s, c.kind) == {c}
  }

  /** The cards `(2c)` works on: neither leftover nor known to be held by anybody. */
  function Undetermined(cfg: Config, m: Matrix): set<Card>
  {
    cfg.allCards - cfg.leftOverCards - PlayerCardSet(m)
  }

  /** (2c) the last undetermined card of a category joins the solution and becomes NO for every player. */
  function LastInCategorySolutions(cfg: Config, st: EvaluationResult): EvaluationResult
  {
    var lone := LoneInCategory(Undetermined(cfg, st.exclusionMatrix));
    EvaluationResult(Assign(st.exclusionMatrix, cfg.players, lone, No), st.solutionCards + lone)
  }

  // ---------------------------------------------------------------------------
  // (3) implicit rules
  // ---------------------------------------------------------------------------

  /** (3a) a player with `maxPlayerCards` known cards holds nothing else. */
  function FullHandStep(cfg: Config, m: Matrix, pl: Player): Matrix
  {
    var playerCards := PlayerCards(m, pl);
    if |playerCards| == cfg.maxPlayerCards then Assign(m, [pl], cfg.allCards - playerCards, No) else m
  }

  function FullHandRule(cfg: Config, m: Matrix, pls: seq<Player>): Matrix
  {
    if pls == [] then m
    else FullHandStep(cfg, FullHandRule(cfg, m, pls[..|pls| - 1]), pls[|pls| - 1])
  }

  /** (3b) when exactly `maxPlayerCards` cards are not excluded for a player, the player holds them all. */
  function ComplementStep(cfg: Config, m: Matrix, pl: Player): Matrix
  {
    var nonPlayerCards := NonPlayerCards(m, pl);
    if |cfg.allCards| - |nonPlayerCards| == cfg.maxPlayerCards
    then Assign(m, [pl], cfg.allCards - nonPlayerCards, Yes)
    else m
  }

  function ComplementRule(cfg: Config, m: Matrix, pls: seq<Player>): Matrix
  {
    if pls == [] then m
    else ComplementStep(cfg, ComplementRule(cfg, m, pls[..|pls| - 1]), pls[|pls| - 1])
  }

  // ---------------------------------------------------------------------------
  // (4) turn refinement
  // ---------------------------------------------------------------------------

  /** The turn with the answerer's NO cards removed from its answer; question, answerer and number kept. */
  function RefineTurn(m: Matrix, t: Turn): (r: Turn)
    ensures r.question == t.question && r.seqNr == t.seqNr
    ensures r.answer.None? <==> t.answer.None?
    ensures t.answer.Some? ==>
      r.answer.value.player == t.answer.value.player
      && (forall c :: c in r.answer.value.cards <==>
            c in t.answer.value.cards && !((t.answer.value.player, c) in m && m[(t.answer.value.player, c)] == No))
  {
    var updatedAnswer :=
      match t.answer
      case None => None
      case Some(a) => Some(Answer(a.player, a.cards - NonPlayerCards(m, a.player)));
    Turn(t.question, updatedAnswer, t.seqNr)
  }

  function RefineTurns(m: Matrix, turns: seq<Turn>): (r: seq<Turn>)
    ensures |r| == |turns|
    ensures forall i :: 0 <= i < |turns| ==> r[i] == RefineTurn(m, turns[i])
  {
    if turns == [] then [] else [RefineTurn(m, turns[0])] + RefineTurns(m, turns[1..])
  }

  // ---------------------------------------------------------------------------
  // One round, and the restart until nothing changes
  // ---------------------------------------------------------------------------

  /** The state after the solution passes (1)-(2c) of one round. */
  function SolutionPasses(cfg: Config, st: EvaluationResult, turns: seq<Turn>): EvaluationResult
  {
    var m1 := MarkInBetween(cfg, st.exclusionMatrix, turns);
    var m2 := AddAnswerCards(cfg, m1, turns);
    var s3 := EmptyAnswerSolutions(cfg, EvaluationResult(m2, st.solutionCards), turns);
    var s4 := FullExclusionSolutions(cfg, s3);
    LastInCategorySolutions(cfg, s4)
  }

  /** The state after all four passes of one round. */
  function RoundState(cfg: Config, st: EvaluationResult, turns: seq<Turn>): EvaluationResult
  {
    var s5 := SolutionPasses(cfg, st, turns);
    var m6 := FullHandRule(cfg, s5.exclusionMatrix, cfg.players);
    var m7 := ComplementRule(cfg, m6, cfg.players);
    EvaluationResult(m7, s5.solutionCards)
  }

  /** The restart test: the refined turns differ, or the number of distinct NOT_CLEAR cards changed. */
  predicate Changed(before: EvaluationResult, after: EvaluationResult, turns: seq<Turn>, updatedTurns: seq<Turn>)
  {
    updatedTurns != turns || |NotClearCards(after.exclusionMatrix)| != |NotClearCards(before.exclusionMatrix)|
  }

  /** The total size of all answers' candidate sets. */
  function AnswerSizes(turns: seq<Turn>): nat
  {
    if turns == [] then 0
    else (if turns[0].answer.Some? then |turns[0].answer.value.cards| else 0) + AnswerSizes(turns[1..])
  }

  /** The decreasing measure of the restart. */
  function Measure(st: EvaluationResult, turns: seq<Turn>): nat
  {
    |NotClearCards(st.exclusionMatrix)| + AnswerSizes(turns)
  }

  datatype Outcome = Outcome(state: EvaluationResult, turns: seq<Turn>)

  /**
   * `updateMatrixFromTurns`: run a round; run again on the refined turns while
   * anything changed. The outcome also holds the turns of the last round.
   */
  function Fixpoint(cfg: Config, st: EvaluationResult, turns: seq<Turn>): Outcome
    decreases Measure(st, turns)
  {
    var next := RoundState(cfg, st, turns);
    var updatedTurns := RefineTurns(next.exclusionMatrix, turns);
    if Changed(st, next, turns, updatedTurns) then
      RoundMeasureDecreases(cfg, st, turns);
      Fixpoint(cfg, next, updatedTurns)
    else Outcome(next, updatedTurns)
  }

  // ---------------------------------------------------------------------------
  // No cell is reset, answers only shrink: the measure decreases
  // ---------------------------------------------------------------------------

  lemma {:induction false} MarkInBetweenNoReset(cfg: Config, m: Matrix, turns: seq<Turn>)
    ensures NoReset(m, MarkInBetween(cfg, m, turns))
  {
    if turns != [] {
      var prev := MarkInBetween(cfg, m, turns[..|turns| - 1]);
      MarkInBetweenNoReset(cfg, m, turns[..|turns| - 1]);
      var t := turns[|turns| - 1];
      if t.answer.Some? {
        AssignNoReset(prev, SkippedPlayers(cfg.players, t), QuestionCards(t.question), No);
      }
    }
  }

  lemma {:induction false} AddAnswerCardsNoReset(cfg: Config, m: Matrix, turns: seq<Turn>)
    ensures NoReset(m, AddAnswerCards(cfg, m, turns))
  {
    if turns != [] {
      var prev := AddAnswerCards(cfg, m, turns[..|turns| - 1]);
      AddAnswerCardsNoReset(cfg, m, turns[..|turns| - 1]);
      var t := turns[|turns| - 1];
      if SingleCardAnswer(t) {
        AssignNoReset(prev, cfg.players, {SoleCard(t.answer.value.cards)}, No);
      }
    }
  }

  lemma {:induction false} EmptyAnswerNoReset(cfg: Config, st: EvaluationResult, turns: seq<Turn>)
    ensures var r := EmptyAnswerSolutions(cfg, st, turns);
      NoReset(st.exclusionMatrix, r.exclusionMatrix) && st.solutionCards <= r.solutionCards
  {
    if turns != [] {
      var prev := EmptyAnswerSolutions(cfg, st, turns[..|turns| - 1]);
      EmptyAnswerNoReset(cfg, st, turns[..|turns| - 1]);
      var t := turns[|turns| - 1];
      AssignNoReset(prev.exclusionMatrix, cfg.players, EmptyAnswerCards(cfg, prev.exclusionMatrix, t), No);
    }
  }

  lemma {:induction false} FullHandNoReset(cfg: Config, m: Matrix, pls: seq<Player>)
    ensures NoReset(m, FullHandRule(cfg, m, pls))
  {
    if pls != [] {
      var prev := FullHandRule(cfg, m, pls[..|pls| - 1]);
      FullHandNoReset(cfg, m, pls[..|pls| - 1]);
      var pl := pls[|pls| - 1];
      AssignNoReset(prev, [pl], cfg.allCards - PlayerCards(prev, pl), No);
    }
  }

  lemma {:induction false} ComplementNoReset(cfg: Config, m: Matrix, pls: seq<Player>)
    ensures NoReset(m, ComplementRule(cfg, m, pls))
  {
    if pls != [] {
      var prev := ComplementRule(cfg, m, pls[..|pls| - 1]);
      ComplementNoReset(cfg, m, pls[..|pls| - 1]);
      var pl := pls[|pls| - 1];
      AssignNoReset(prev, [pl], cfg.allCards - NonPlayerCards(prev, pl), Yes);
    }
  }

  /** A round never sets a cell back to NOT_CLEAR and never removes a solution card. */
  lemma RoundNoReset(cfg: Config, st: EvaluationResult, turns: seq<Turn>)
    ensures NoReset(st.exclusionMatrix, RoundState(cfg, st, turns).exclusionMatrix)
    ensures st.solutionCards <= RoundState(cfg, st, turns).solutionCards
  {
    var m1 := MarkInBetween(cfg, st.exclusionMatrix, turns);
    MarkInBetweenNoReset(cfg, st.exclusionMatrix, turns);
    var m2 := AddAnswerCards(cfg, m1, turns);
    AddAnswerCardsNoReset(cfg, m1, turns);
    var s3 := EmptyAnswerSolutions(cfg, EvaluationResult(m2, st.solutionCards), turns);
    EmptyAnswerNoReset(cfg, EvaluationResult(m2, st.solutionCards), turns);
    var s4 := FullExclusionSolutions(cfg, s3);
    var s5 := LastInCategorySolutions(cfg, s4);
    AssignNoReset(s4.exclusionMatrix, cfg.players, LoneInCategory(Undetermined(cfg, s4.exclusionMatrix)), No);
    var m6 := FullHandRule(cfg, s5.exclusionMatrix, cfg.players);
    FullHandNoReset(cfg, s5.exclusionMatrix, cfg.players);
    ComplementNoReset(cfg, m6, cfg.players);
    NoResetTransitive(st.exclusionMatrix, m1, m2);
    NoResetTransitive(st.exclusionMatrix, m2, s3.exclusionMatrix);
    NoResetTransitive(st.exclusionMatrix, s3.exclusionMatrix, s5.exclusionMatrix);
    NoResetTransitive(st.exclusionMatrix, s5.exclusionMatrix, m6);
    NoResetTransitive(st.exclusionMatrix, m6, RoundState(cfg, st, turns).exclusionMatrix);
  }

  /** Refinement never grows an answer, and shrinks the total when it changes a turn. */
  lemma {:induction false} RefineShrinks(m: Matrix, turns: seq<Turn>)
    ensures AnswerSizes(RefineTurns(m, turns)) <= AnswerSizes(turns)
    ensures RefineTurns(m, turns) != turns ==> AnswerSizes(RefineTurns(m, turns)) < AnswerSizes(turns)
  {
    if turns != [] {
      var t := turns[0];
      var r := RefineTurns(m, turns);
      RefineShrinks(m, turns[1..]);
      assert r[1..] == RefineTurns(m, turns[1..]);
      if t.answer.Some? {
        var a := t.answer.value;
        var a' := RefineTurn(m, t).answer.value;
        SubsetCardinality(a'.cards, a.cards);
        if a'.cards == a.cards {
          assert RefineTurn(m, t) == t;
        }
      }
      if r != turns && r[1..] == turns[1..] {
        assert r == [r[0]] + r[1..] && turns == [t] + turns[1..];
      }
    }
  }

  /** The restart is taken only when the measure strictly decreases. */
  lemma RoundMeasureDecreases(cfg: Config, st: EvaluationResult, turns: seq<Turn>)
    ensures var next := RoundState(cfg, st, turns);
      var updatedTurns := RefineTurns(next.exclusionMatrix, turns);
      Changed(st, next, turns, updatedTurns) ==> Measure(next, updatedTurns) < Measure(st, turns)
  {
    var next := RoundState(cfg, st, turns);
    RoundNoReset(cfg, st, turns);
    NoResetNotClear(st.exclusionMatrix, next.exclusionMatrix);
    RefineShrinks(next.exclusionMatrix, turns);
  }
}
