/**
 * Questions, answers and turns. `ClQuestion(player, cards)`,
 * `ClAnswer(player, cards)` and `ClTurn(question, answer?, seqNr)` are value
 * records compared structurally; the restart test of the engine relies on it.
 */
module Turns {
  import opened Wrappers
  import opened Cards
  import opened Players

  /**
   * A question. Its cards are kept in the order the question was built in
   * (Kotlin's `setOf` keeps insertion order, and `getAnswer` searches them in
   * that order); every rule of the engine reads them as a set.
   */
  datatype Question = Question(player: Player, cards: seq<Card>)

  /** An answer: who answered, and the cards the observer knows it is among. */
  datatype Answer = Answer(player: Player, cards: set<Card>)

  datatype Turn = Turn(question: Question, answer: Option<Answer>, seqNr: int)

  function QuestionCards(q: Question): (s: set<Card>)
    ensures forall c :: c in s <==> c in q.cards
  {
    set c | c in q.cards
  }

  /** `answer?.cards.isNullOrEmpty()`: nobody could show a card. */
  predicate Unanswered(t: Turn)
  {
    t.answer.None? || |t.answer.value.cards| == 0
  }

  /** `answer?.cards?.size == 1`: exactly one card is known to have been shown. */
  predicate SingleCardAnswer(t: Turn)
  {
    t.answer.Some? && |t.answer.value.cards| == 1
  }

  /** The only element of a one-element set (`first()` of a one-card answer). */
  function SoleCard(s: set<Card>): (c: Card)
    requires |s| == 1
    ensures s == {c}
  {
    SingletonUnique(s);
    var c :| c in s; c
  }

  lemma SingletonUnique(s: set<Card>)
    requires |s| == 1
    ensures forall a, b :: a in s && b in s ==> a == b
  {
    var x :| x in s;
    assert s == (s - {x}) + {x};
    assert |s - {x}| == 0;
    assert s - {x} == {};
  }
}
