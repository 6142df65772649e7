/**
 * The turn simulator `ClGameSimulator`: who asks next, the question that
 * player builds from a priority list of cards, and the answer the data set's
 * hands give. The "basic" evaluation of a simulated player fills a map of
 * known hands and a set of suspected solution cards in loops; it is a method
 * proved against the functions that describe it. Every `shuffled()` is an
 * order the caller supplies, and so is the iteration order of each set.
 */
module Simulator {
  import opened Wrappers
  import opened Cards
  import opened Players
  import opened Turns
  import opened Matrix
  import opened DataSet

  datatype QuestionStrategy = Basic | EvaluationBased

  /** `ClPlayerEvaluationResult`: the known hand of every player and the suspected solution cards. */
  datatype PlayerEvaluationResult = PlayerEvaluationResult(
    playerCards: map<Player, set<Card>>,
    solutionCards: set<Card>)

  /** The exceptions `nextTurn` can raise. */
  datatype SimulatorError =
    | MissingEvaluationResult        // `ClGameSimulatorException`
    | NoActivePlayer                 // `% players.size` with no players
    | NoQuestionCard(kind: CardType) // `filterIsInstance<...>().first()` on an empty list

  // ---------------------------------------------------------------------------
  // performBasicPlayerEvaluation
  // ---------------------------------------------------------------------------

  /** `associateWith { mutableSetOf() }`, then the own cards added to the player's entry if it has one. */
  function InitialKnown(player: Player, allPlayers: seq<Player>, ownCards: set<Card>): (r: map<Player, set<Card>>)
    ensures forall p :: p in r <==> p in allPlayers
    ensures forall p :: p in r ==> r[p] == if p == player then ownCards else {}
  {
    var empty := map p | p in allPlayers :: {};
    if player in empty then empty[player := empty[player] + ownCards] else empty
  }

  /** A single-card answer adds its card to the answerer's entry, when the answerer has one. */
  function KnownStep(known: map<Player, set<Card>>, t: Turn): map<Player, set<Card>>
  {
    if SingleCardAnswer(t) && t.answer.value.player in known then
      var pl := t.answer.value.player;
      known[pl := known[pl] + {SoleCard(t.answer.value.cards)}]
    else known
  }

  /** The first loop of `performBasicPlayerEvaluation`, over the turns in order. */
  function KnownCards(known: map<Player, set<Card>>, turns: seq<Turn>): map<Player, set<Card>>
  {
    if turns == [] then known else KnownStep(KnownCards(known, turns[..|turns| - 1]), turns[|turns| - 1])
  }

  /** `card` is a question card of an unanswered turn whose asker knows 3 cards, and neither a leftover nor one of them. */
  predicate BasicSolves(known: map<Player, set<Card>>, leftOverCards: set<Card>, t: Turn, card: Card)
  {
    && Unanswered(t)
    && t.question.player in known
    && |known[t.question.player]| == 3
    && card in t.question.cards
    && card !in leftOverCards
    && card !in known[t.question.player]
  }

  function SolutionStep(solutionCards: set<Card>, known: map<Player, set<Card>>, leftOverCards: set<Card>, t: Turn)
    : set<Card>
  {
    if Unanswered(t) && t.question.player in known && |known[t.question.player]| == 3 then
      solutionCards + (QuestionCards(t.question) - leftOverCards - known[t.question.player])
    else solutionCards
  }

  /** The second loop of `performBasicPlayerEvaluation`, over the turns in order. */
  function BasicSolutions(known: map<Player, set<Card>>, leftOverCards: set<Card>, turns: seq<Turn>): set<Card>
  {
    if turns == [] then {}
    else SolutionStep(BasicSolutions(known, leftOverCards, turns[..|turns| - 1]), known, leftOverCards,
                      turns[|turns| - 1])
  }

  /** What `performBasicPlayerEvaluation` returns. */
  function BasicEvaluation(player: Player, allPlayers: seq<Player>, ownCards: set<Card>, leftOverCards: set<Card>,
                           turns: seq<Turn>): PlayerEvaluationResult
  {
    var known := KnownCards(InitialKnown(player, allPlayers, ownCards), turns);
    PlayerEvaluationResult(known, BasicSolutions(known, leftOverCards, turns))
  }

  /** The first loop of `performBasicPlayerEvaluation`: the card of every single-card answer goes to its answerer. */
  method AddAnsweredCards(known: map<Player, set<Card>>, turns: seq<Turn>) returns (playerCards: map<Player, set<Card>>)
    ensures playerCards == KnownCards(known, turns)
  {
    playerCards := known;
    for i := 0 to |turns|
      invariant playerCards == KnownCards(known, turns[..i])
    {
      var turn := turns[i];
      if turn.answer.Some? && |turn.answer.value.cards| == 1 {
        var pl := turn.answer.value.player;
        var card := SoleCard(turn.answer.value.cards);
        if pl in playerCards {
          playerCards := playerCards[pl := playerCards[pl] + {card}];
        }
      }
      assert turns[..i + 1][..i] == turns[..i];
    }
    assert turns[..|turns|] == turns;
  }

  /** The second loop of `performBasicPlayerEvaluation`: the suspected solution cards of the unanswered turns. */
  method CollectSolutionCards(playerCards: map<Player, set<Card>>, leftOverCards: set<Card>, turns: seq<Turn>)
    returns (solutionCards: set<Card>)
    ensures solutionCards == BasicSolutions(playerCards, leftOverCards, turns)
  {
    solutionCards := {};
    for i := 0 to |turns|
      invariant solutionCards == BasicSolutions(playerCards, leftOverCards, turns[..i])
    {
      var turn := turns[i];
      if turn.answer.None? || |turn.answer.value.cards| == 0 {
        if turn.question.player in playerCards {
          var askingPlayerCards := playerCards[turn.question.player];
          if |askingPlayerCards| == 3 {
            solutionCards := solutionCards + (QuestionCards(turn.question) - leftOverCards - askingPlayerCards);
          }
        }
      }
      assert turns[..i + 1][..i] == turns[..i];
    }
    assert turns[..|turns|] == turns;
  }

  /**
   * `performBasicPlayerEvaluation`: an entry per listed player, the own
   * cards for `player`, the card of every single-card answer for its
   * answerer, then the suspected solution cards of the unanswered turns.
   */
  method PerformBasicPlayerEvaluation(player: Player, allPlayers: seq<Player>, ownCards: set<Card>,
                                      leftOverCards: set<Card>, turns: seq<Turn>)
    returns (r: PlayerEvaluationResult)
    ensures r == BasicEvaluation(player, allPlayers, ownCards, leftOverCards, turns)
  {
    var playerCards: map<Player, set<Card>> := map p | p in allPlayers :: {};
    if player in playerCards {
      playerCards := playerCards[player := playerCards[player] + ownCards];
    }
    assert playerCards == InitialKnown(player, allPlayers, ownCards);
    playerCards := AddAnsweredCards(playerCards, turns);
    var solutionCards := CollectSolutionCards(playerCards, leftOverCards, turns);
    r := PlayerEvaluationResult(playerCards, solutionCards);
  }

  lemma {:induction false} KnownCardsKeys(known: map<Player, set<Card>>, turns: seq<Turn>)
    ensures KnownCards(known, turns).Keys == known.Keys
  {
    if turns != [] {
      KnownCardsKeys(known, turns[..|turns| - 1]);
    }
  }

  /** A card is known for a listed player exactly when it was known at the start or shown to the table by that player. */
  lemma {:induction false} KnownCardsMembers(known: map<Player, set<Card>>, turns: seq<Turn>, p: Player, c: Card)
    requires p in known
    ensures p in KnownCards(known, turns)
    ensures c in KnownCards(known, turns)[p] <==>
      c in known[p]
      || exists i :: 0 <= i < |turns| && SingleCardAnswer(turns[i]) && turns[i].answer.value.player == p
                     && c in turns[i].answer.value.cards
  {
    KnownCardsKeys(known, turns);
    if turns != [] {
      var prefix, t := turns[..|turns| - 1], turns[|turns| - 1];
      KnownCardsMembers(known, prefix, p, c);
      KnownCardsKeys(known, prefix);
      if SingleCardAnswer(t) && t.answer.value.player == p {
        assert t.answer.value.cards == {SoleCard(t.answer.value.cards)};
      }
      if exists i :: 0 <= i < |turns| && SingleCardAnswer(turns[i]) && turns[i].answer.value.player == p
                     && c in turns[i].answer.value.cards {
        var i :| 0 <= i < |turns| && SingleCardAnswer(turns[i]) && turns[i].answer.value.player == p
                 && c in turns[i].answer.value.cards;
        if i < |turns| - 1 {
          assert prefix[i] == turns[i];
        }
      }
      if exists i :: 0 <= i < |prefix| && SingleCardAnswer(prefix[i]) && prefix[i].answer.value.player == p
                     && c in prefix[i].answer.value.cards {
        var i :| 0 <= i < |prefix| && SingleCardAnswer(prefix[i]) && prefix[i].answer.value.player == p
                 && c in prefix[i].answer.value.cards;
        assert turns[i] == prefix[i];
      }
    }
  }

  /** A card is a suspected solution card exactly when some unanswered turn makes it one. */
  lemma {:induction false} BasicSolutionsMembers(known: map<Player, set<Card>>, leftOverCards: set<Card>,
                                                 turns: seq<Turn>, c: Card)
    ensures c in BasicSolutions(known, leftOverCards, turns) <==>
      exists i :: 0 <= i < |turns| && BasicSolves(known, leftOverCards, turns[i], c)
  {
    if turns != [] {
      var prefix, t := turns[..|turns| - 1], turns[|turns| - 1];
      BasicSolutionsMembers(known, leftOverCards, prefix, c);
      if exists i :: 0 <= i < |turns| && BasicSolves(known, leftOverCards, turns[i], c) {
        var i :| 0 <= i < |turns| && BasicSolves(known, leftOverCards, turns[i], c);
        if i < |turns| - 1 {
          assert prefix[i] == turns[i];
        }
      }
      if exists i :: 0 <= i < |prefix| && BasicSolves(known, leftOverCards, prefix[i], c) {
        var i :| 0 <= i < |prefix| && BasicSolves(known, leftOverCards, prefix[i], c);
        assert turns[i] == prefix[i];
      }
    }
  }

  /**
   * The basic evaluation: an entry for exactly the listed players; `player`
   * knows its own cards; every listed player knows the cards it showed in
   * single-card answers, and nothing else is known.
   */
  lemma BasicKnownCards(player: Player, allPlayers: seq<Player>, ownCards: set<Card>, leftOverCards: set<Card>,
                        turns: seq<Turn>, p: Player, c: Card)
    ensures var r := BasicEvaluation(player, allPlayers, ownCards, leftOverCards, turns);
      && (p in r.playerCards <==> p in allPlayers)
      && (p in allPlayers ==>
            (c in r.playerCards[p] <==>
               (p == player && c in ownCards)
               || exists i :: 0 <= i < |turns| && SingleCardAnswer(turns[i]) && turns[i].answer.value.player == p
                              && c in turns[i].answer.value.cards))
  {
    var initial := InitialKnown(player, allPlayers, ownCards);
    KnownCardsKeys(initial, turns);
    if p in allPlayers {
      KnownCardsMembers(initial, turns, p, c);
    }
  }

  /**
   * The suspected solution cards: the question cards of unanswered turns
   * whose asker is listed and knows exactly 3 cards, less the leftovers and
   * the asker's known cards.
   */
  lemma BasicSuspectedSolution(player: Player, allPlayers: seq<Player>, ownCards: set<Card>,
                               leftOverCards: set<Card>, turns: seq<Turn>, c: Card)
    ensures var r := BasicEvaluation(player, allPlayers, ownCards, leftOverCards, turns);
      c in r.solutionCards <==> exists i :: 0 <= i < |turns| && BasicSolves(r.playerCards, leftOverCards, turns[i], c)
  {
    var r := BasicEvaluation(player, allPlayers, ownCards, leftOverCards, turns);
    BasicSolutionsMembers(r.playerCards, leftOverCards, turns, c);
  }

  // ---------------------------------------------------------------------------
  // Question generation
  // ---------------------------------------------------------------------------

  /** `filterIsInstance<...>().first()`: the first card of a type, if any. */
  function FirstOfKind(s: seq<Card>, k: CardType): (r: Option<Card>)
    ensures r.None? <==> forall i :: 0 <= i < |s| ==> s[i].kind != k
    ensures r.Some? ==> exists i :: 0 <= i < |s| && s[i] == r.value && r.value.kind == k
                                  && forall j :: 0 <= j < i ==> s[j].kind != k
  {
    if s == [] then None
    else if s[0].kind == k then Some(s[0])
    else
      var r := FirstOfKind(s[1..], k);
      assert forall i :: 1 <= i < |s| ==> s[i] == s[1..][i - 1];
      assert r.Some? ==> exists i :: 1 <= i < |s| && s[i] == r.value && r.value.kind == k
                                     && forall j :: 1 <= j < i ==> s[j].kind != k;
      r
  }

  /** `ClQuestion(activePlayer, setOf(firstSubject, firstTool, firstRoom))`, the first missing type being an error. */
  function QuestionFrom(activePlayer: Player, priorityCards: seq<Card>): (r: Result<Question, SimulatorError>)
    ensures r.Success? ==>
      && r.value.player == activePlayer
      && |r.value.cards| == 3
      && r.value.cards[0].kind == Subject && r.value.cards[1].kind == Tool && r.value.cards[2].kind == Room
      && r.value.cards[0] in priorityCards && r.value.cards[1] in priorityCards && r.value.cards[2] in priorityCards
    ensures r.Failure? ==> r.error.NoQuestionCard?
  {
    var subject := FirstOfKind(priorityCards, Subject);
    var tool := FirstOfKind(priorityCards, Tool);
    var room := FirstOfKind(priorityCards, Room);
    if subject.None? then Failure(NoQuestionCard(Subject))
    else if tool.None? then Failure(NoQuestionCard(Tool))
    else if room.None? then Failure(NoQuestionCard(Room))
    else Success(Question(activePlayer, [subject.value, tool.value, room.value]))
  }

  /**
   * A question built from a priority list holds, per type, the first card
   * of that type in the list, in the order subject, tool, room; it fails on
   * the first type the list lacks.
   */
  lemma QuestionFromFirsts(activePlayer: Player, priorityCards: seq<Card>)
    ensures var r := QuestionFrom(activePlayer, priorityCards);
      && (r == Failure(NoQuestionCard(Subject)) <==> FirstOfKind(priorityCards, Subject).None?)
      && (r == Failure(NoQuestionCard(Tool)) <==>
            FirstOfKind(priorityCards, Subject).Some? && FirstOfKind(priorityCards, Tool).None?)
      && (r == Failure(NoQuestionCard(Room)) <==>
            FirstOfKind(priorityCards, Subject).Some? && FirstOfKind(priorityCards, Tool).Some?
            && FirstOfKind(priorityCards, Room).None?)
      && (r.Success? ==>
            && Some(r.value.cards[0]) == FirstOfKind(priorityCards, Subject)
            && Some(r.value.cards[1]) == FirstOfKind(priorityCards, Tool)
            && Some(r.value.cards[2]) == FirstOfKind(priorityCards, Room))
  {
  }

  /** A priority list holding a card of every type always yields a question. */
  lemma QuestionFromAllKinds(activePlayer: Player, priorityCards: seq<Card>)
    requires AllKinds(priorityCards)
    ensures QuestionFrom(activePlayer, priorityCards).Success?
  {
    forall k | k in {Subject, Tool, Room} ensures FirstOfKind(priorityCards, k).Some? {
      var c :| c in priorityCards && c.kind == k;
      var i :| 0 <= i < |priorityCards| && priorityCards[i] == c;
    }
  }

  /** Catenating lists: the first card of a type comes from the front part when it has one, else from the back. */
  lemma {:induction false} FirstOfKindAppend(front: seq<Card>, back: seq<Card>, k: CardType)
    ensures FirstOfKind(front + back, k) ==
      if FirstOfKind(front, k).Some? then FirstOfKind(front, k) else FirstOfKind(back, k)
  {
    if front != [] {
      assert (front + back)[0] == front[0];
      if front[0].kind != k {
        assert (front + back)[1..] == front[1..] + back;
        FirstOfKindAppend(front[1..], back, k);
      }
    } else {
      assert front + back == back;
    }
  }

  /** `dataSet.playerCards[player] ?: emptySet()`. */
  function HandOf(ds: DataSet, p: Player): set<Card>
  {
    if p in ds.playerCards then ds.playerCards[p] else {}
  }

  /** The known hand of `p`, empty without an entry (`playerCards[p] ?: emptyList()`). */
  function KnownOf(e: PlayerEvaluationResult, p: Player): set<Card>
  {
    if p in e.playerCards then e.playerCards[p] else {}
  }

  /** The cards the known hands of the players other than `activePlayer` hold. */
  function OthersKnown(e: PlayerEvaluationResult, activePlayer: Player): set<Card>
  {
    set p, c | p in e.playerCards && p != activePlayer && c in e.playerCards[p] :: c
  }

  /** The open cards of `generateBasicQuestion`: no leftover, no suspected solution card, known to no player. */
  function OpenCards(allCards: set<Card>, leftOverCards: set<Card>, e: PlayerEvaluationResult, activePlayer: Player)
    : (r: set<Card>)
    ensures forall c :: c in r <==>
      && c in allCards && c !in leftOverCards && c !in e.solutionCards
      && forall p :: p in e.playerCards ==> c !in e.playerCards[p]
  {
    set c | c in allCards && c !in leftOverCards && c !in e.solutionCards && c !in KnownOf(e, activePlayer)
                          && c !in OthersKnown(e, activePlayer)
  }

  /**
   * With the basic evaluation of the active player, an open card is none of
   * that player's own cards and no card shown in a single-card answer by a
   * listed player.
   */
  lemma OpenCardsUnseen(allCards: set<Card>, leftOverCards: set<Card>, activePlayer: Player,
                        allPlayers: seq<Player>, ownCards: set<Card>, turns: seq<Turn>, c: Card)
    requires c in OpenCards(allCards, leftOverCards,
                            BasicEvaluation(activePlayer, allPlayers, ownCards, leftOverCards, turns), activePlayer)
    ensures activePlayer in allPlayers ==> c !in ownCards
    ensures forall i :: 0 <= i < |turns| && SingleCardAnswer(turns[i]) && turns[i].answer.value.player in allPlayers
                        ==> c !in turns[i].answer.value.cards
  {
    BasicKnownCards(activePlayer, allPlayers, ownCards, leftOverCards, turns, activePlayer, c);
    forall i | 0 <= i < |turns| && SingleCardAnswer(turns[i]) && turns[i].answer.value.player in allPlayers
      ensures c !in turns[i].answer.value.cards
    {
      BasicKnownCards(activePlayer, allPlayers, ownCards, leftOverCards, turns, turns[i].answer.value.player, c);
    }
  }

  /**
   * The priority list of `generateBasicQuestion`: the open cards in shuffled
   * order, the active player's known cards, the suspected solution, the
   * leftovers, and all cards.
   */
  function BasicPriorityCards(ds: DataSet, activePlayer: Player, e: PlayerEvaluationResult, leftOverCards: set<Card>,
                              allCards: set<Card>, shuffle: seq<Card>, order: seq<Card>): seq<Card>
  {
    Enumerate(OpenCards(ds.allCards, leftOverCards, e, activePlayer), shuffle)
      + BasicFallbackCards(activePlayer, e, leftOverCards, allCards, order)
  }

  /** The basic priority list after the open cards. */
  function BasicFallbackCards(activePlayer: Player, e: PlayerEvaluationResult, leftOverCards: set<Card>,
                              allCards: set<Card>, order: seq<Card>): seq<Card>
  {
    Enumerate(KnownOf(e, activePlayer), order)
      + Enumerate(e.solutionCards, order)
      + Enumerate(leftOverCards, order)
      + Enumerate(allCards, order)
  }

  function GenerateBasicQuestion(ds: DataSet, activePlayer: Player, e: PlayerEvaluationResult,
                                 leftOverCards: set<Card>, allCards: set<Card>, shuffle: seq<Card>, order: seq<Card>)
    : Result<Question, SimulatorError>
  {
    QuestionFrom(activePlayer, BasicPriorityCards(ds, activePlayer, e, leftOverCards, allCards, shuffle, order))
  }

  /**
   * The priority list of `generateQuestionBasedOnEvaluationResult`: the
   * undecided cards in shuffled order, the active player's known cards, the
   * solution cards, the leftovers, the other players' known cards from the
   * last to talk back to the first, and all cards.
   */
  function EvaluationPriorityCards(ds: DataSet, activePlayer: Player, er: EvaluationResult, leftOverCards: set<Card>,
                                   allCards: set<Card>, shuffle: seq<Card>, order: seq<Card>): seq<Card>
  {
    Enumerate(NotClearCards(er.exclusionMatrix), shuffle)
      + EvaluationFallbackCards(ds, activePlayer, er, leftOverCards, allCards, order)
  }

  /** The evaluation-based priority list after the undecided cards. */
  function EvaluationFallbackCards(ds: DataSet, activePlayer: Player, er: EvaluationResult, leftOverCards: set<Card>,
                                   allCards: set<Card>, order: seq<Card>): seq<Card>
  {
    Enumerate(PlayerCards(er.exclusionMatrix, activePlayer), order)
      + Enumerate(er.solutionCards, order)
      + Enumerate(leftOverCards, order)
      + OtherPlayerCardsInReverseOrder(er.exclusionMatrix, ds.players, activePlayer, order)
      + Enumerate(allCards, order)
  }

  function GenerateQuestionBasedOnEvaluationResult(ds: DataSet, activePlayer: Player, er: EvaluationResult,
                                                   leftOverCards: set<Card>, allCards: set<Card>, shuffle: seq<Card>,
                                                   order: seq<Card>): Result<Question, SimulatorError>
  {
    QuestionFrom(activePlayer, EvaluationPriorityCards(ds, activePlayer, er, leftOverCards, allCards, shuffle, order))
  }

  /** The kind each question position holds: subject, tool, room. */
  function QuestionKind(i: nat): CardType
  {
    if i == 0 then Subject else if i == 1 then Tool else Room
  }

  /** A question built from `front + back` takes each type's card from `front` when `front` has one. */
  lemma QuestionFromPrefersFront(activePlayer: Player, front: seq<Card>, back: seq<Card>, i: nat)
    requires i < 3
    requires QuestionFrom(activePlayer, front + back).Success?
    ensures var q := QuestionFrom(activePlayer, front + back).value;
      && q.cards[i].kind == QuestionKind(i)
      && (FirstOfKind(front, QuestionKind(i)).Some? ==> Some(q.cards[i]) == FirstOfKind(front, QuestionKind(i)))
  {
    FirstOfKindAppend(front, back, QuestionKind(i));
    QuestionFromFirsts(activePlayer, front + back);
  }

  /**
   * A basic question asks, per type, for the first open card of that type
   * in shuffled order whenever there is one.
   */
  lemma BasicQuestionPrefersOpen(ds: DataSet, activePlayer: Player, e: PlayerEvaluationResult,
                                 leftOverCards: set<Card>, allCards: set<Card>, shuffle: seq<Card>,
                                 order: seq<Card>, i: nat)
    requires i < 3
    requires GenerateBasicQuestion(ds, activePlayer, e, leftOverCards, allCards, shuffle, order).Success?
    ensures var q := GenerateBasicQuestion(ds, activePlayer, e, leftOverCards, allCards, shuffle, order).value;
      var open := Enumerate(OpenCards(ds.allCards, leftOverCards, e, activePlayer), shuffle);
      && q.cards[i].kind == QuestionKind(i)
      && (FirstOfKind(open, QuestionKind(i)).Some? ==> Some(q.cards[i]) == FirstOfKind(open, QuestionKind(i)))
  {
    var open := Enumerate(OpenCards(ds.allCards, leftOverCards, e, activePlayer), shuffle);
    QuestionFromPrefersFront(activePlayer, open, BasicFallbackCards(activePlayer, e, leftOverCards, allCards, order), i);
  }

  /**
   * An evaluation-based question asks, per type, for the first undecided
   * card of that type in shuffled order whenever there is one.
   */
  lemma EvaluationQuestionPrefersUndecided(ds: DataSet, activePlayer: Player, er: EvaluationResult,
                                           leftOverCards: set<Card>, allCards: set<Card>, shuffle: seq<Card>,
                                           order: seq<Card>, i: nat)
    requires i < 3
    requires GenerateQuestionBasedOnEvaluationResult(ds, activePlayer, er, leftOverCards, allCards, shuffle,
                                                     order).Success?
    ensures var q := GenerateQuestionBasedOnEvaluationResult(ds, activePlayer, er, leftOverCards, allCards, shuffle,
                                                             order).value;
      var undecided := Enumerate(NotClearCards(er.exclusionMatrix), shuffle);
      && q.cards[i].kind == QuestionKind(i)
      && (FirstOfKind(undecided, QuestionKind(i)).Some? ==>
            Some(q.cards[i]) == FirstOfKind(undecided, QuestionKind(i)))
  {
    var undecided := Enumerate(NotClearCards(er.exclusionMatrix), shuffle);
    QuestionFromPrefersFront(activePlayer, undecided,
                             EvaluationFallbackCards(ds, activePlayer, er, leftOverCards, allCards, order), i);
  }

  /**
   * With a shuffle that lists every open card, a basic question asks for an
   * open card of a type whenever some open card has that type.
   */
  lemma BasicQuestionTakesOpen(ds: DataSet, activePlayer: Player, e: PlayerEvaluationResult,
                               leftOverCards: set<Card>, allCards: set<Card>, shuffle: seq<Card>,
                               order: seq<Card>, i: nat, c: Card)
    requires i < 3
    requires GenerateBasicQuestion(ds, activePlayer, e, leftOverCards, allCards, shuffle, order).Success?
    requires Enumerates(shuffle, OpenCards(ds.allCards, leftOverCards, e, activePlayer))
    requires c in OpenCards(ds.allCards, leftOverCards, e, activePlayer) && c.kind == QuestionKind(i)
    ensures GenerateBasicQuestion(ds, activePlayer, e, leftOverCards, allCards, shuffle, order).value.cards[i]
              in OpenCards(ds.allCards, leftOverCards, e, activePlayer)
  {
    var open := Enumerate(OpenCards(ds.allCards, leftOverCards, e, activePlayer), shuffle);
    assert c in open;
    var j :| 0 <= j < |open| && open[j] == c;
    BasicQuestionPrefersOpen(ds, activePlayer, e, leftOverCards, allCards, shuffle, order, i);
  }

  /**
   * With a shuffle that lists every undecided card, an evaluation-based
   * question asks for an undecided card of a type whenever some undecided
   * card has that type.
   */
  lemma EvaluationQuestionTakesUndecided(ds: DataSet, activePlayer: Player, er: EvaluationResult,
                                         leftOverCards: set<Card>, allCards: set<Card>, shuffle: seq<Card>,
                                         order: seq<Card>, i: nat, c: Card)
    requires i < 3
    requires GenerateQuestionBasedOnEvaluationResult(ds, activePlayer, er, leftOverCards, allCards, shuffle,
                                                     order).Success?
    requires Enumerates(shuffle, NotClearCards(er.exclusionMatrix))
    requires c in NotClearCards(er.exclusionMatrix) && c.kind == QuestionKind(i)
    ensures GenerateQuestionBasedOnEvaluationResult(ds, activePlayer, er, leftOverCards, allCards, shuffle,
                                                    order).value.cards[i] in NotClearCards(er.exclusionMatrix)
  {
    var undecided := Enumerate(NotClearCards(er.exclusionMatrix), shuffle);
    assert c in undecided;
    var j :| 0 <= j < |undecided| && undecided[j] == c;
    EvaluationQuestionPrefersUndecided(ds, activePlayer, er, leftOverCards, allCards, shuffle, order, i);
  }

  /** Every card listed in `order` that belongs to the set, in that order. */
  predicate Enumerates(order: seq<Card>, s: set<Card>)
  {
    forall c :: c in s ==> c in order
  }

  /**
   * Both question generators end their priority list with all cards, so a
   * deck with every card type, enumerated completely, always yields a
   * question, and the question's cards are deck cards or earlier candidates.
   */
  lemma GeneratedQuestionsSucceed(ds: DataSet, activePlayer: Player, e: PlayerEvaluationResult,
                                  er: EvaluationResult, leftOverCards: set<Card>, deck: seq<Card>,
                                  shuffle: seq<Card>, order: seq<Card>)
    requires AllKinds(deck) && Enumerates(order, SetOf(deck))
    ensures GenerateBasicQuestion(ds, activePlayer, e, leftOverCards, SetOf(deck), shuffle, order).Success?
    ensures GenerateQuestionBasedOnEvaluationResult(ds, activePlayer, er, leftOverCards, SetOf(deck), shuffle,
                                                    order).Success?
  {
    var all := Enumerate(SetOf(deck), order);
    var b := BasicPriorityCards(ds, activePlayer, e, leftOverCards, SetOf(deck), shuffle, order);
    var v := EvaluationPriorityCards(ds, activePlayer, er, leftOverCards, SetOf(deck), shuffle, order);
    assert forall c :: c in all ==> c in b && c in v;
    assert AllKinds(b) && AllKinds(v) by {
      forall k | k in {Subject, Tool, Room} ensures HasKind(b, k) && HasKind(v, k) {
        var c :| c in deck && c.kind == k;
        assert c in all;
      }
    }
    QuestionFromAllKinds(activePlayer, b);
    QuestionFromAllKinds(activePlayer, v);
  }

  // ---------------------------------------------------------------------------
  // getAnswer
  // ---------------------------------------------------------------------------

  /** `question.cards.find { it in hand }`. */
  function FirstHeld(cards: seq<Card>, hand: set<Card>): (r: Option<Card>)
    ensures r.None? <==> forall i :: 0 <= i < |cards| ==> cards[i] !in hand
    ensures r.Some? ==> exists i :: 0 <= i < |cards| && cards[i] == r.value && r.value in hand
                                  && forall j :: 0 <= j < i ==> cards[j] !in hand
  {
    if cards == [] then None
    else if cards[0] in hand then Some(cards[0])
    else
      var r := FirstHeld(cards[1..], hand);
      assert forall i :: 1 <= i < |cards| ==> cards[i] == cards[1..][i - 1];
      assert r.Some? ==> exists i :: 1 <= i < |cards| && cards[i] == r.value && r.value in hand
                                     && forall j :: 1 <= j < i ==> cards[j] !in hand;
      r
  }

  /** `p` may answer `q`: not the asker by name, and holding a question card. */
  predicate CanAnswer(ds: DataSet, q: Question, p: Player)
  {
    q.player.name != p.name && FirstHeld(q.cards, HandOf(ds, p)).Some?
  }

  /** `firstNotNullOfOrNull` over the players: the first who can answer, with the card found. */
  function FirstResponder(ds: DataSet, q: Question, players: seq<Player>): (r: Option<(Player, Card)>)
    ensures r.None? <==> forall i :: 0 <= i < |players| ==> !CanAnswer(ds, q, players[i])
    ensures r.Some? ==>
      exists i :: 0 <= i < |players| && players[i] == r.value.0 && CanAnswer(ds, q, players[i])
                  && r.value.1 == FirstHeld(q.cards, HandOf(ds, players[i])).value
                  && forall j :: 0 <= j < i ==> !CanAnswer(ds, q, players[j])
  {
    if players == [] then None
    else if CanAnswer(ds, q, players[0]) then Some((players[0], FirstHeld(q.cards, HandOf(ds, players[0])).value))
    else
      var r := FirstResponder(ds, q, players[1..]);
      assert forall i :: 1 <= i < |players| ==> players[i] == players[1..][i - 1];
      assert r.Some? ==> exists i :: 1 <= i < |players| && players[i] == r.value.0 && CanAnswer(ds, q, players[i])
                                     && r.value.1 == FirstHeld(q.cards, HandOf(ds, players[i])).value
                                     && forall j :: 1 <= j < i ==> !CanAnswer(ds, q, players[j]);
      r
  }

  /** The answering order: all players, rotated to start at the asker's successor. */
  function AnswerOrder(ds: DataSet, q: Question): seq<Player>
  {
    SortByPosition(ds.players, NextPlayerByPosition(ds.players, q.player))
  }

  /**
   * `getAnswer`: the first player in answering order who may answer shows a
   * card; a viewpoint asker learns that card, any other asker only that it
   * is one of the question's cards.
   */
  function GetAnswer(ds: DataSet, q: Question): Option<Answer>
  {
    match FirstResponder(ds, q, AnswerOrder(ds, q))
    case None => None
    case Some((player, card)) => Some(Answer(player, if q.player.isMe then {card} else QuestionCards(q)))
  }

  /**
   * The information-hiding rule: the answerer is the first player in
   * answering order, other than the asker by name, holding a question card;
   * there is no answer exactly when nobody does. The answer's cards are the
   * answerer's first held card in question order for a viewpoint asker, and all
   * question cards otherwise; either way they lie within the question.
   */
  lemma GetAnswerSpec(ds: DataSet, q: Question)
    ensures var order := AnswerOrder(ds, q);
      && (GetAnswer(ds, q).None? <==> forall i :: 0 <= i < |order| ==> !CanAnswer(ds, q, order[i]))
      && (GetAnswer(ds, q).Some? ==>
            var a := GetAnswer(ds, q).value;
            && a.cards <= QuestionCards(q)
            && (exists i :: 0 <= i < |order| && order[i] == a.player && CanAnswer(ds, q, a.player)
                            && forall j :: 0 <= j < i ==> !CanAnswer(ds, q, order[j]))
            && (q.player.isMe ==>
                  exists i :: 0 <= i < |q.cards| && a.cards == {q.cards[i]} && q.cards[i] in HandOf(ds, a.player)
                              && forall j :: 0 <= j < i ==> q.cards[j] !in HandOf(ds, a.player))
            && (!q.player.isMe ==> a.cards == QuestionCards(q)))
  {
    var order := AnswerOrder(ds, q);
    match FirstResponder(ds, q, order)
    case None =>
    case Some((player, card)) =>
      assert card == FirstHeld(q.cards, HandOf(ds, player)).value;
      var i :| 0 <= i < |q.cards| && q.cards[i] == card && card in HandOf(ds, player)
               && forall j :: 0 <= j < i ==> q.cards[j] !in HandOf(ds, player);
      assert card in QuestionCards(q);
  }

  // ---------------------------------------------------------------------------
  // nextTurn
  // ---------------------------------------------------------------------------

  /** `players[previousTurns.size % players.size]`. */
  function ActivePlayer(ds: DataSet, previousTurns: seq<Turn>): (r: Option<Player>)
    ensures r.None? <==> |ds.players| == 0
    ensures r.Some? ==> r.value in ds.players
  {
    if |ds.players| == 0 then None else Some(ds.players[|previousTurns| % |ds.players|])
  }

  /**
   * The question of `nextTurn`: the evaluation-based one for a viewpoint
   * player under that strategy, the basic one, from that player's basic
   * evaluation of the history, in every other case.
   */
  function TurnQuestion(ds: DataSet, activePlayer: Player, previousTurns: seq<Turn>, strategy: QuestionStrategy,
                        evaluationResult: Option<EvaluationResult>, shuffle: seq<Card>, order: seq<Card>)
    : (r: Result<Question, SimulatorError>)
    ensures (r == Failure(MissingEvaluationResult)) ==
      (activePlayer.isMe && strategy == EvaluationBased && evaluationResult.None?)
    ensures r.Failure? ==> r.error == MissingEvaluationResult || r.error.NoQuestionCard?
    ensures r.Success? ==>
      && r.value.player == activePlayer
      && |r.value.cards| == 3
      && r.value.cards[0].kind == Subject && r.value.cards[1].kind == Tool && r.value.cards[2].kind == Room
  {
    if activePlayer.isMe && strategy == EvaluationBased then
      match evaluationResult
      case None => Failure(MissingEvaluationResult)
      case Some(er) =>
        GenerateQuestionBasedOnEvaluationResult(ds, activePlayer, er, ds.leftOverCards, ds.allCards, shuffle, order)
    else
      var e := BasicEvaluation(activePlayer, ds.players, HandOf(ds, activePlayer), ds.leftOverCards, previousTurns);
      GenerateBasicQuestion(ds, activePlayer, e, ds.leftOverCards, ds.allCards, shuffle, order)
  }

  /** A question paired with the answer the hands give; a failed question fails the turn with the same error. */
  function AnswerTurn(ds: DataSet, question: Result<Question, SimulatorError>)
    : (r: Result<(Question, Option<Answer>), SimulatorError>)
    ensures r.Failure? == question.Failure?
    ensures r.Failure? ==> r.error == question.error
    ensures r.Success? ==>
      && r.value.0 == question.value
      && r.value.1 == GetAnswer(ds, question.value)
      && (r.value.1.Some? ==> r.value.1.value.cards <= QuestionCards(question.value))
  {
    match question
    case Failure(err) => Failure(err)
    case Success(q) =>
      GetAnswerSpec(ds, q);
      Success((q, GetAnswer(ds, q)))
  }

  /** `nextTurn`: the active player's question, then the answer the hands give. */
  function NextTurn(ds: DataSet, previousTurns: seq<Turn>, strategy: QuestionStrategy,
                    evaluationResult: Option<EvaluationResult>, shuffle: seq<Card>, order: seq<Card>)
    : Result<(Question, Option<Answer>), SimulatorError>
  {
    match ActivePlayer(ds, previousTurns)
    case None => Failure(NoActivePlayer)
    case Some(activePlayer) =>
      AnswerTurn(ds, TurnQuestion(ds, activePlayer, previousTurns, strategy, evaluationResult, shuffle, order))
  }

  /**
   * The errors of `nextTurn`: no active player exactly without players; the
   * missing evaluation result exactly for a viewpoint asker under the
   * evaluation-based strategy.
   */
  lemma NextTurnErrors(ds: DataSet, previousTurns: seq<Turn>, strategy: QuestionStrategy,
                       evaluationResult: Option<EvaluationResult>, shuffle: seq<Card>, order: seq<Card>)
    ensures var r := NextTurn(ds, previousTurns, strategy, evaluationResult, shuffle, order);
      && (r == Failure(NoActivePlayer) <==> |ds.players| == 0)
      && (r == Failure(MissingEvaluationResult) <==>
            |ds.players| > 0 && ds.players[|previousTurns| % |ds.players|].isMe
            && strategy == EvaluationBased && evaluationResult.None?)
  {
    if |ds.players| > 0 {
      var activePlayer := ds.players[|previousTurns| % |ds.players|];
      var question := TurnQuestion(ds, activePlayer, previousTurns, strategy, evaluationResult, shuffle, order);
      assert NextTurn(ds, previousTurns, strategy, evaluationResult, shuffle, order) == AnswerTurn(ds, question);
    }
  }

  /**
   * A turn of `nextTurn`: the asker is `players[|previousTurns| % |players|]`,
   * the question holds one card of each type, and the answer is the one the
   * hands give, within the question.
   */
  lemma NextTurnSuccess(ds: DataSet, previousTurns: seq<Turn>, strategy: QuestionStrategy,
                        evaluationResult: Option<EvaluationResult>, shuffle: seq<Card>, order: seq<Card>)
    requires NextTurn(ds, previousTurns, strategy, evaluationResult, shuffle, order).Success?
    ensures |ds.players| > 0
    ensures var (q, answer) := NextTurn(ds, previousTurns, strategy, evaluationResult, shuffle, order).value;
      && q.player == ds.players[|previousTurns| % |ds.players|]
      && |q.cards| == 3
      && q.cards[0].kind == Subject && q.cards[1].kind == Tool && q.cards[2].kind == Room
      && answer == GetAnswer(ds, q)
      && (answer.Some? ==> answer.value.cards <= QuestionCards(q))
  {
    var activePlayer := ds.players[|previousTurns| % |ds.players|];
    var question := TurnQuestion(ds, activePlayer, previousTurns, strategy, evaluationResult, shuffle, order);
    assert NextTurn(ds, previousTurns, strategy, evaluationResult, shuffle, order) == AnswerTurn(ds, question);
  }

  /**
   * The strategy of a question: a viewpoint asker under the evaluation-based
   * strategy asks, per type, for the first undecided card of the evaluation
   * result in shuffled order when there is one; every other asker for the
   * first open card of its own basic evaluation of the history.
   */
  lemma TurnQuestionPrefers(ds: DataSet, activePlayer: Player, previousTurns: seq<Turn>, strategy: QuestionStrategy,
                            evaluationResult: Option<EvaluationResult>, shuffle: seq<Card>, order: seq<Card>, i: nat)
    requires i < 3
    requires TurnQuestion(ds, activePlayer, previousTurns, strategy, evaluationResult, shuffle, order).Success?
    ensures var q := TurnQuestion(ds, activePlayer, previousTurns, strategy, evaluationResult, shuffle, order).value;
      && (!(activePlayer.isMe && strategy == EvaluationBased) ==>
            var e := BasicEvaluation(activePlayer, ds.players, HandOf(ds, activePlayer), ds.leftOverCards,
                                     previousTurns);
            var open := Enumerate(OpenCards(ds.allCards, ds.leftOverCards, e, activePlayer), shuffle);
            FirstOfKind(open, QuestionKind(i)).Some? ==> Some(q.cards[i]) == FirstOfKind(open, QuestionKind(i)))
      && (activePlayer.isMe && strategy == EvaluationBased ==>
            && evaluationResult.Some?
            && (var undecided := Enumerate(NotClearCards(evaluationResult.value.exclusionMatrix), shuffle);
                FirstOfKind(undecided, QuestionKind(i)).Some? ==>
                  Some(q.cards[i]) == FirstOfKind(undecided, QuestionKind(i))))
  {
    if activePlayer.isMe && strategy == EvaluationBased {
      EvaluationQuestionPrefersUndecided(ds, activePlayer, evaluationResult.value, ds.leftOverCards, ds.allCards,
                                         shuffle, order, i);
    } else {
      var e := BasicEvaluation(activePlayer, ds.players, HandOf(ds, activePlayer), ds.leftOverCards, previousTurns);
      BasicQuestionPrefersOpen(ds, activePlayer, e, ds.leftOverCards, ds.allCards, shuffle, order, i);
    }
  }

  /**
   * The question of a successful turn follows the strategy of its asker
   * `players[|previousTurns| % |players|]`: per type, the first undecided
   * card for a viewpoint asker under the evaluation-based strategy, the
   * first open card of the asker's basic evaluation otherwise.
   */
  lemma NextTurnQuestionPrefers(ds: DataSet, previousTurns: seq<Turn>, strategy: QuestionStrategy,
                                evaluationResult: Option<EvaluationResult>, shuffle: seq<Card>, order: seq<Card>,
                                i: nat)
    requires i < 3
    requires NextTurn(ds, previousTurns, strategy, evaluationResult, shuffle, order).Success?
    ensures |ds.players| > 0
    ensures var q := NextTurn(ds, previousTurns, strategy, evaluationResult, shuffle, order).value.0;
      var asker := ds.players[|previousTurns| % |ds.players|];
      && (!(asker.isMe && strategy == EvaluationBased) ==>
            var e := BasicEvaluation(asker, ds.players, HandOf(ds, asker), ds.leftOverCards, previousTurns);
            var open := Enumerate(OpenCards(ds.allCards, ds.leftOverCards, e, asker), shuffle);
            FirstOfKind(open, QuestionKind(i)).Some? ==> Some(q.cards[i]) == FirstOfKind(open, QuestionKind(i)))
      && (asker.isMe && strategy == EvaluationBased ==>
            && evaluationResult.Some?
            && (var undecided := Enumerate(NotClearCards(evaluationResult.value.exclusionMatrix), shuffle);
                FirstOfKind(undecided, QuestionKind(i)).Some? ==>
                  Some(q.cards[i]) == FirstOfKind(undecided, QuestionKind(i))))
  {
    var asker := ds.players[|previousTurns| % |ds.players|];
    var question := TurnQuestion(ds, asker, previousTurns, strategy, evaluationResult, shuffle, order);
    assert NextTurn(ds, previousTurns, strategy, evaluationResult, shuffle, order) == AnswerTurn(ds, question);
    TurnQuestionPrefers(ds, asker, previousTurns, strategy, evaluationResult, shuffle, order, i);
  }
}
