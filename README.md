# A verified model of the deduction engine of tbettermann/deduction-engine

The repository plays and simulates a Cluedo-like deduction game. The model covers six pieces:

- **Deduction engine `ClGameEvaluator`.** It keeps a knowledge matrix `(player, card) -> YES | NO | NOT_CLEAR` and a growing set of solution cards. It replays a turn history in passes until nothing changes:
  - skipped players and single-card answers;
  - empty answers, cards excluded for everyone, and the last card of a category;
  - full hands and the complement rule;
  - refinement of the answers' candidate sets.
- **Turn order** in the `ClPlayer` companion: rotation sort, successor with wrap-around, and the slice of players strictly between two others.
- **Game session `ClGame`.** It validates the viewpoint player, keeps an append-only turn log and replays the whole log on each evaluation.
- **Turn simulator `ClGameSimulator`.** It picks the active player and runs that player's private "basic" evaluation. It builds a question from a priority list and answers it from the dealt hands, under the information-hiding rule.
- **Data-set generator `ClGameDataSet`.** It splits a deck into solution, leftovers and equal hands, and looks up the viewpoint player's hand.
- **Card type `ClCard`.** It has three variants, a declared equality by variant and id that the generated data-class equality replaces, a Java-style hash, and a display-name fallback.

## Modules

| file | module | models |
|---|---|---|
| `wrappers.dfy` | `Wrappers` | `Option` for Kotlin nullable values, `Result` for thrown exceptions |
| `cards.dfy` | `Cards` | `ClCard`, its type, its declared and its generated equality, hash and display name; `Card(kind, id)` is a card's identity under the declared equality |
| `players.dfy` | `Players` | `ClPlayer` and the `sortByPosition` / `nextPlayerByPosition` / `inBetween` list functions |
| `turns.dfy` | `Turns` | `ClQuestion`, `ClAnswer`, `ClTurn` |
| `matrix.dfy` | `Matrix` | the knowledge matrix, the engine's query helpers, `ClGameEvaluationResult` |
| `deduction.dfy` | `Deduction` | the initial matrix and every pass as a function; the fixpoint and its termination measure |
| `evaluator.dfy` | `Evaluator` | the class `ClGameEvaluator`; its pass methods loop and are proved equal to the pass functions |
| `rules.dfy` | `Rules` | what each deduction rule establishes, and what holds at the fixpoint |
| `game.dfy` | `Game` | the class `ClGame` |
| `dataset.dfy` | `DataSet` | `ClGameDataSet.generateDefaultSet`, `getOwnPlayer`, `getOwnCards` |
| `simulator.dfy` | `Simulator` | `ClGameSimulator` |

### How the engine is modelled

- **Matrix.** The matrix is a `map<(Player, Card), HasCard>`. Writes add keys, as Kotlin's `MutableMap` does. Queries range over the keys.
- **Passes.** Every pass is a left fold over the turns or players, written as a function. The corresponding method of `ClGameEvaluator` is a loop with the invariant "state = fold of the prefix seen so far".
- **Restart.** The recursive restart of `updateMatrixFromTurns` is a loop that returns once a round changes neither the turns nor the number of undecided cards. `Deduction.Fixpoint` describes it.
- **Termination.** It terminates on the number of distinct cards with a `NOT_CLEAR` cell plus the total size of the answers' candidate sets. Cells are never reset to `NOT_CLEAR`, and refinement only removes cards.

### Code behaviour the model follows

- **Card identity.** The model keys every card set and map by the variant plus the id, the equality `ClCard` declares: it compares `javaClass` and `id` (src/main/kotlin/evaluator/ClCard.kt:21-28), so a room card and a tool card with the same id differ. The variants are `data class`es (src/main/kotlin/evaluator/ClCard.kt:34-36) and the declared `equals` and `hashCode` are not `final`, so Kotlin generates an `equals` and `hashCode` per variant over `id` and `displayNames`, and the program runs those. The two equalities agree whenever a card's variant and id determine its display names (`Cards.EqualitiesAgree`); see "## Findings".
- **Restart condition.** A round restarts when the turns changed or when the number of distinct cards that still have some `NOT_CLEAR` cell changed (`notClearCards(...).size`, src/main/kotlin/evaluator/ClGameEvaluator.kt:201 and 295-296). It does not compare the number of `NOT_CLEAR` cells.
- **Skipped players.** The players strictly between asker and answerer are marked `NO` for every turn with a non-null answer, even one whose candidate set is empty (src/main/kotlin/evaluator/ClGameEvaluator.kt:205-216).
- **Refinement.** Every non-null answer loses the answerer's `NO` cards, whatever its size (src/main/kotlin/evaluator/ClGameEvaluator.kt:278-292).
- **Who may answer.** Every player whose name equals the asker's is skipped, not just the asker (src/main/kotlin/simulator/ClGameSimulator.kt:196).
- **Creating the evaluator never fails.** `ClGameEvaluator.create` checks nothing. Only `ClGame`'s `init` checks for exactly one viewpoint player (src/main/kotlin/evaluator/ClGame.kt:14-16).
- **Hand size in the basic evaluation.** The basic evaluation of the simulator uses a hard-coded hand size of 3 (src/main/kotlin/simulator/ClGameSimulator.kt:103). The engine uses the size of the viewpoint player's hand (`maxPlayerCards`, src/main/kotlin/evaluator/ClGameEvaluator.kt:49 and 235).

## Model

| member | source | states |
|---|---|---|
| Cards.ClCard.CardType | src/main/kotlin/evaluator/ClCard.kt:15-19 | the type is ROOM, SUBJECT or TOOL exactly for the room, subject and tool variants |
| Cards.ClCard.DisplayName | src/main/kotlin/evaluator/ClCard.kt:11-13 | the name for the language if present, else the "en" name, else the id |
| Cards.EqualsIsVariantAndId | src/main/kotlin/evaluator/ClCard.kt:21-28 | two cards are equal exactly when they are the same variant with the same id; display names are ignored |
| Cards.DataClassEqualsIsStructural | src/main/kotlin/evaluator/ClCard.kt:34-36 | the equality generated for the data-class variants is the same variant, the same id and the same display names, which is structural equality of the record |
| Cards.DisplayNamesSplitCards | src/main/kotlin/evaluator/ClCard.kt:21-36 | two tool cards with one id and different display names are equal under the declared `equals` and unequal under the generated one |
| Cards.EqualitiesAgree | src/main/kotlin/evaluator/ClCard.kt:21-36 | within a collection where a card's variant and id determine the record, the declared and the generated equality agree |
| Cards.StringHash | src/main/kotlin/evaluator/ClCard.kt:30-32 | the id's polynomial hash, wrapped to 32 bits, lies in the signed 32-bit range |
| Cards.EqualCardsHashEqually | src/main/kotlin/evaluator/ClCard.kt:30-32 | equal cards have equal hash codes |
| Players.SortByPosition | src/main/kotlin/evaluator/ClPlayer.kt:20-23 | the result is a permutation of the players |
| Players.SortByPositionSorted | src/main/kotlin/evaluator/ClPlayer.kt:20-23 | the result is sorted by the key (`position < first.position`, then `position`) |
| Players.SortByPositionAscending | src/main/kotlin/evaluator/ClPlayer.kt:21 | without an anchor: a permutation in ascending position order |
| Players.SortByPositionAnchored | src/main/kotlin/evaluator/ClPlayer.kt:22 | with an anchor: the players at or after its position in ascending order, then those before it in ascending order |
| Players.SortMembers | src/main/kotlin/evaluator/ClPlayer.kt:20-23 | sorting keeps exactly the same players |
| Players.IndexOf | src/main/kotlin/evaluator/ClPlayer.kt:15 | -1 exactly when absent; otherwise the index of the first occurrence |
| Players.NextPlayerByPosition | src/main/kotlin/evaluator/ClPlayer.kt:11-18 | none for an empty list, or for an absent player among two or more; the sole element of a one-element list; otherwise a member of the list |
| Players.NextIsPositionalSuccessor | src/main/kotlin/evaluator/ClPlayer.kt:11-18 | with distinct positions: the player with the next larger position, or the smallest one after the largest (wrap-around) |
| Players.InBetween | src/main/kotlin/evaluator/ClPlayer.kt:25-28 | empty if either player is missing or the second's index is at most the first's plus one; otherwise the contiguous slice strictly between them |
| Players.AnchorFirst | src/main/kotlin/evaluator/ClPlayer.kt:22 | with distinct positions, the rotation anchored at a player starts with that player |
| Players.InBetweenRotation | src/main/kotlin/evaluator/ClGameEvaluator.kt:207-209 | in the rotation starting at the asker, the players between asker and answerer are exactly those strictly after the asker and strictly before the answerer in turn order |
| Turns.QuestionCards | src/main/kotlin/evaluator/ClGameEvaluator.kt:211 | the set of a question's cards |
| Turns.SoleCard | src/main/kotlin/evaluator/ClGameEvaluator.kt:223 | the only card of a one-card answer |
| Matrix.PlayerCards | src/main/kotlin/evaluator/ClGameEvaluator.kt:53-56 | the cards with a YES cell for the player |
| Matrix.PlayerCardSet | src/main/kotlin/evaluator/ClGameEvaluator.kt:58-61 | the cards with a YES cell for some player |
| Matrix.PlayerCardMap | src/main/kotlin/evaluator/ClGameEvaluator.kt:63-68 | one entry per listed player, holding that player's YES cards |
| Matrix.NonPlayerCards | src/main/kotlin/evaluator/ClGameEvaluator.kt:80-85 | the cards with a NO cell for the player |
| Matrix.NotClearCards | src/main/kotlin/evaluator/ClGameEvaluator.kt:87-90 | the distinct cards that still have some NOT_CLEAR cell |
| Matrix.CompleteExcludedCards | src/main/kotlin/evaluator/ClGameEvaluator.kt:92-101 | the cards that have a cell, all of whose cells are NO |
| Matrix.Reverse | src/main/kotlin/evaluator/ClGameEvaluator.kt:77 | same length, elements in reverse order |
| Matrix.Without | src/main/kotlin/evaluator/ClGameEvaluator.kt:75 | the players other than the excluded one |
| Matrix.OtherPlayerCardsMembers | src/main/kotlin/evaluator/ClGameEvaluator.kt:70-78 | the list holds exactly the YES cards of the players other than the excluded one |
| Matrix.Enumerate | src/main/kotlin/simulator/ClGameSimulator.kt:124-137 | a set listed in iteration order holds exactly the set's cards |
| Matrix.Assign | src/main/kotlin/evaluator/ClGameEvaluator.kt:212 | writing a value into a block of cells adds those keys, sets them, and leaves every other cell alone |
| Matrix.AssignNoReset | src/main/kotlin/evaluator/ClGameEvaluator.kt:212-225 | writing YES or NO never turns a decided cell back to NOT_CLEAR |
| Matrix.NoResetNotClear | src/main/kotlin/evaluator/ClGameEvaluator.kt:295 | without resets the undecided cards only shrink, and so does their count |
| Deduction.InitialMatrixCells | src/main/kotlin/evaluator/ClGameEvaluator.kt:32-42 | after `create` every player x card cell exists; own cards are YES for viewpoint players and NO for others; leftovers are NO; all else is NOT_CLEAR |
| Deduction.InitialRowsCells | src/main/kotlin/evaluator/ClGameEvaluator.kt:38-42 | the `players.forEach` loop sets exactly the own-card and leftover cells of each player |
| Deduction.FreshEvaluatorQueries | src/main/kotlin/evaluator/ClGameEvaluator.kt:24-51 | on a fresh matrix the viewpoint player's cards are the own cards, and the cards excluded for everyone are the leftovers |
| Deduction.FreshOwnCards | src/main/kotlin/evaluator/ClGameEvaluator.kt:38-42 | a fresh matrix gives the viewpoint player exactly the own cards |
| Deduction.FreshExcludedCards | src/main/kotlin/evaluator/ClGameEvaluator.kt:92-101 | on a fresh matrix the completely excluded cards are exactly the leftovers |
| Deduction.LoneInCategory | src/main/kotlin/evaluator/ClGameEvaluator.kt:251-253 | the lone members of their category are drawn from the given cards |
| Deduction.RefineTurn | src/main/kotlin/evaluator/ClGameEvaluator.kt:278-292 | keeps question, answerer and sequence number; a null answer stays null; answer cards lose exactly the answerer's NO cards |
| Deduction.RefineTurns | src/main/kotlin/evaluator/ClGameEvaluator.kt:278-292 | every turn refined, in order |
| Deduction.MarkInBetweenNoReset | src/main/kotlin/evaluator/ClGameEvaluator.kt:205-216 | the skipped-players pass resets no cell |
| Deduction.AddAnswerCardsNoReset | src/main/kotlin/evaluator/ClGameEvaluator.kt:219-227 | the single-card pass resets no cell |
| Deduction.EmptyAnswerNoReset | src/main/kotlin/evaluator/ClGameEvaluator.kt:231-245 | the empty-answer pass resets no cell and only adds solution cards |
| Deduction.FullHandNoReset | src/main/kotlin/evaluator/ClGameEvaluator.kt:261-266 | the full-hand rule resets no cell |
| Deduction.ComplementNoReset | src/main/kotlin/evaluator/ClGameEvaluator.kt:269-274 | the complement rule resets no cell |
| Deduction.RoundNoReset | src/main/kotlin/evaluator/ClGameEvaluator.kt:203-274 | a whole round resets no cell and only adds solution cards |
| Deduction.RefineShrinks | src/main/kotlin/evaluator/ClGameEvaluator.kt:278-292 | refinement never grows the total answer size, and strictly shrinks it when it changes a turn |
| Deduction.RoundMeasureDecreases | src/main/kotlin/evaluator/ClGameEvaluator.kt:295-296 | when the restart condition holds, undecided cards plus total answer size strictly decrease |
| Evaluator.ClGameEvaluator.Create | src/main/kotlin/evaluator/ClGameEvaluator.kt:24-51 | the configuration as given, `maxPlayerCards = |ownCards|`, the initial matrix, no solution cards |
| Evaluator.ClGameEvaluator.SetCells | src/main/kotlin/evaluator/ClGameEvaluator.kt:212 | the nested `forEach` writes equal the block assignment |
| Evaluator.ClGameEvaluator.UpdateInBetweenPlayers | src/main/kotlin/evaluator/ClGameEvaluator.kt:205-216 | the loop equals the skipped-players fold |
| Evaluator.ClGameEvaluator.AddCardsFromAnswers | src/main/kotlin/evaluator/ClGameEvaluator.kt:219-227 | the loop equals the single-card fold |
| Evaluator.ClGameEvaluator.AddSolutionCards | src/main/kotlin/evaluator/ClGameEvaluator.kt:239-242 | the cards join the solution and become NO for every player |
| Evaluator.ClGameEvaluator.FindSolutionsFromEmptyAnswers | src/main/kotlin/evaluator/ClGameEvaluator.kt:231-245 | the loop equals the empty-answer fold |
| Evaluator.ClGameEvaluator.FindSolutionsFromExcludedCards | src/main/kotlin/evaluator/ClGameEvaluator.kt:248 | the completely excluded non-leftover cards join the solution |
| Evaluator.ClGameEvaluator.FindSolutionsFromCategories | src/main/kotlin/evaluator/ClGameEvaluator.kt:251-257 | the lone undetermined card of a category joins the solution and becomes NO for all |
| Evaluator.ClGameEvaluator.ExcludeOthersOfFullHands | src/main/kotlin/evaluator/ClGameEvaluator.kt:261-266 | the loop equals the full-hand fold over the players |
| Evaluator.ClGameEvaluator.IncludeRemainingCards | src/main/kotlin/evaluator/ClGameEvaluator.kt:269-274 | the loop equals the complement fold over the players |
| Evaluator.ClGameEvaluator.RunPasses | src/main/kotlin/evaluator/ClGameEvaluator.kt:203-274 | the seven passes in source order equal one round |
| Evaluator.ClGameEvaluator.UpdateMatrixFromTurns | src/main/kotlin/evaluator/ClGameEvaluator.kt:199-298 | the restart loop terminates and ends in the fixpoint of the history |
| Rules.MarkInBetweenExcludes | src/main/kotlin/evaluator/ClGameEvaluator.kt:205-216 | every player strictly between asker and answerer in turn order is NO for every question card |
| Rules.AddAnswerCardsDecides | src/main/kotlin/evaluator/ClGameEvaluator.kt:219-227 | a single-card answer makes its card YES for the answerer and NO for every other player, unless a later single-card answer shows the same card |
| Rules.EmptyAnswerCardsMembers | src/main/kotlin/evaluator/ClGameEvaluator.kt:231-237 | an unanswered turn whose asker's YES count is the hand size yields exactly the question cards that are neither leftovers nor the asker's YES cards |
| Rules.EmptyAnswerSolves | src/main/kotlin/evaluator/ClGameEvaluator.kt:231-245 | each such card joins the solution and is NO for every player |
| Rules.FullExclusionMembers | src/main/kotlin/evaluator/ClGameEvaluator.kt:248 | a card joins the solution exactly when it is a non-leftover card excluded for every player; the matrix is unchanged |
| Rules.LoneInCategoryMembers | src/main/kotlin/evaluator/ClGameEvaluator.kt:251-253 | a card is lone exactly when no other given card has its type |
| Rules.LastInCategorySolves | src/main/kotlin/evaluator/ClGameEvaluator.kt:251-257 | the solution gains exactly the lone undetermined card of each category, which becomes NO for all |
| Rules.FullHandRuleCloses | src/main/kotlin/evaluator/ClGameEvaluator.kt:261-266 | afterwards a player whose YES count is the hand size is NO for every other card; other rows are untouched |
| Rules.ComplementHolds | src/main/kotlin/evaluator/ClGameEvaluator.kt:272 | writing YES to all non-NO cards makes the player's YES set exactly those cards |
| Rules.ComplementKeepsExcluded | src/main/kotlin/evaluator/ClGameEvaluator.kt:272 | that write keeps the player's NO set |
| Rules.ComplementRuleCloses | src/main/kotlin/evaluator/ClGameEvaluator.kt:269-274 | afterwards a player with `|allCards| - |NO cards| = hand size` is YES for all non-NO cards, and full hands stay closed |
| Rules.RoundCloses | src/main/kotlin/evaluator/ClGameEvaluator.kt:203-274 | after a round both closure rules hold for every player |
| Rules.RefineWithin | src/main/kotlin/evaluator/ClGameEvaluator.kt:278-292 | refined turns still mention only known players and cards |
| Rules.FixpointCloses | src/main/kotlin/evaluator/ClGameEvaluator.kt:295-297 | the final matrix satisfies both closure rules for every player |
| Rules.FixpointRefined | src/main/kotlin/evaluator/ClGameEvaluator.kt:295-297 | the final turns are stable under refinement |
| Rules.FixpointNoReset | src/main/kotlin/evaluator/ClGameEvaluator.kt:295-297 | the fixpoint resets no cell and only adds solution cards |
| Game.ViewpointCount | src/main/kotlin/evaluator/ClGame.kt:15 | at most the number of players; 0 exactly when nobody is marked `isMe` |
| Game.ClGame.New | src/main/kotlin/evaluator/ClGame.kt:14-17 | succeeds exactly when one player is marked `isMe`, with the given configuration; fails otherwise |
| Game.ClGame.constructor | src/main/kotlin/evaluator/ClGame.kt:6-13 | stores the configuration and log |
| Game.ClGame.AddTurn | src/main/kotlin/evaluator/ClGame.kt:19-27 | appends exactly one turn numbered with the previous count; a densely numbered log stays dense |
| Game.ClGame.Evaluate | src/main/kotlin/evaluator/ClGame.kt:29-33 | a fresh evaluator replays the log; the session's state is unchanged, so repeated calls agree |
| Game.AddedTurnsDense | src/main/kotlin/evaluator/ClGame.kt:19-27 | a log built by `addTurn` from empty is numbered 0..n-1 |
| DataSet.SortByIdSorted | src/main/kotlin/simulator/ClGameDataSet.kt:25 | the unshuffled deck is a permutation of the cards in ascending id order |
| DataSet.PickOfKind | src/main/kotlin/simulator/ClGameDataSet.kt:27-29 | none exactly when no card has the type, otherwise a deck card of that type |
| DataSet.SolutionShape | src/main/kotlin/simulator/ClGameDataSet.kt:27-30 | the solution has three deck cards: one subject, one tool and one room |
| DataSet.SolutionOutcome | src/main/kotlin/simulator/ClGameDataSet.kt:27-30 | the first missing type, in order subject, tool, room, is the error; success exactly when all three exist |
| DataSet.WithoutIds | src/main/kotlin/simulator/ClGameDataSet.kt:34 | keeps exactly the cards whose id is not excluded |
| DataSet.Take | src/main/kotlin/simulator/ClGameDataSet.kt:35 | the first `min(n, |s|)` cards |
| DataSet.Chunked | src/main/kotlin/simulator/ClGameDataSet.kt:42 | the chunks concatenate to the input, have 1 to `size` cards, all but the last exactly `size` |
| DataSet.ChunkedExact | src/main/kotlin/simulator/ClGameDataSet.kt:42 | `n * size` cards give exactly `n` chunks of `size` cards |
| DataSet.HandMap | src/main/kotlin/simulator/ClGameDataSet.kt:43-49 | chunk `idx` is keyed by `Player(idx, players[idx].name, idx == 0)`, and there are no other keys |
| DataSet.HandArithmetic | src/main/kotlin/simulator/ClGameDataSet.kt:32-37 | the leftover count is between 0 and `|cards| - 3`; leftovers plus `|players|` hands of `(|cards| - 3) / |players|` cards use up the non-solution cards |
| DataSet.EmptyHandsIff | src/main/kotlin/simulator/ClGameDataSet.kt:37-42 | the hand size is 0 (a `chunked(0)` error) exactly when fewer than `|players|` non-solution cards exist |
| DataSet.DealOutcome | src/main/kotlin/simulator/ClGameDataSet.kt:32-49 | no players and empty hands are the errors; success exactly when `0 < |players| <= |cards| - 3` |
| DataSet.DealShape | src/main/kotlin/simulator/ClGameDataSet.kt:32-49 | the leftovers are the first non-solution cards in deck order; the hands are the consecutive chunks of the rest |
| DataSet.DealPartition | src/main/kotlin/simulator/ClGameDataSet.kt:32-57 | leftover count `(|cards| - 3) % |players|`; every position has a hand of the computed size; solution, leftovers and hands are pairwise disjoint and cover the deck |
| DataSet.DeckCards | src/main/kotlin/simulator/ClGameDataSet.kt:25 | shuffled or sorted, the deck holds the same cards with unique ids |
| DataSet.GenerateDefaultSetOutcome | src/main/kotlin/simulator/ClGameDataSet.kt:19-58 | each error exactly in its case; a success is a data set with one solution card per type, the computed leftovers, equal hands keyed by position, and a partition of the deck |
| DataSet.DealKeys | src/main/kotlin/simulator/ClGameDataSet.kt:43-49 | every hand key is the player built for its position |
| DataSet.FirstViewpoint | src/main/kotlin/simulator/ClGameDataSet.kt:78 | none exactly when no player is marked `isMe`, else the index of the first one |
| DataSet.GetOwnPlayer | src/main/kotlin/simulator/ClGameDataSet.kt:77-78 | "own player not set" exactly when no player is marked `isMe`, else the first such player |
| DataSet.GetOwnCards | src/main/kotlin/simulator/ClGameDataSet.kt:72-73 | "own player not set", "own player cards not set" when that player has no hand, else its hand |
| DataSet.GeneratedOwnCards | src/main/kotlin/simulator/ClGameDataSet.kt:72-78 | on a generated data set the own cards are the hand at position 0 if the first `isMe` player is exactly that key; otherwise the hand is not found |
| Simulator.InitialKnown | src/main/kotlin/simulator/ClGameSimulator.kt:83-87 | an entry for exactly the listed players, empty except the evaluating player's own cards |
| Simulator.AddAnsweredCards | src/main/kotlin/simulator/ClGameSimulator.kt:89-96 | the loop over the turns leaves exactly the known hands of the history: each single-card answer's card is added to its answerer's entry, and players without an entry get none |
| Simulator.CollectSolutionCards | src/main/kotlin/simulator/ClGameSimulator.kt:98-111 | the loop over the turns collects exactly the suspected solution cards of the history's unanswered turns |
| Simulator.PerformBasicPlayerEvaluation | src/main/kotlin/simulator/ClGameSimulator.kt:74-114 | the two loops compute the basic evaluation of the history |
| Simulator.KnownCardsKeys | src/main/kotlin/simulator/ClGameSimulator.kt:89-96 | the single-card loop adds no entries |
| Simulator.KnownCardsMembers | src/main/kotlin/simulator/ClGameSimulator.kt:89-96 | a card is known for a player exactly when it was known at the start or shown by that player in a single-card answer |
| Simulator.BasicSolutionsMembers | src/main/kotlin/simulator/ClGameSimulator.kt:98-111 | a card is a suspected solution exactly when some unanswered turn, whose listed asker has 3 known cards, asked for it and it is neither a leftover nor known for the asker |
| Simulator.BasicKnownCards | src/main/kotlin/simulator/ClGameSimulator.kt:82-96 | the basic evaluation has an entry for exactly the listed players, holding the own cards (evaluating player only) and the cards each showed in single-card answers |
| Simulator.BasicSuspectedSolution | src/main/kotlin/simulator/ClGameSimulator.kt:98-111 | the suspected solution of the basic evaluation, characterised turn by turn with the hard-coded hand size 3 |
| Simulator.FirstOfKind | src/main/kotlin/simulator/ClGameSimulator.kt:142-144 | none exactly when no card of the type is listed, else the first listed card of that type |
| Simulator.FirstOfKindAppend | src/main/kotlin/simulator/ClGameSimulator.kt:137 | in a flattened list the first card of a type comes from the earliest part that has one |
| Simulator.QuestionFrom | src/main/kotlin/simulator/ClGameSimulator.kt:139-146 | a question by the active player with a subject, a tool and a room from the list, in that order; the only failure is a missing card of some type |
| Simulator.QuestionFromFirsts | src/main/kotlin/simulator/ClGameSimulator.kt:139-146 | each question card is the first of its type; the error names the first missing type |
| Simulator.QuestionFromAllKinds | src/main/kotlin/simulator/ClGameSimulator.kt:139-146 | a list holding every type always yields a question |
| Simulator.QuestionFromPrefersFront | src/main/kotlin/simulator/ClGameSimulator.kt:124-146 | the card of each type comes from the first tier whenever that tier has one |
| Simulator.OpenCards | src/main/kotlin/simulator/ClGameSimulator.kt:158-166 | the open cards are the data set's cards that are no leftover, no suspected solution card and known for no player |
| Simulator.OpenCardsUnseen | src/main/kotlin/simulator/ClGameSimulator.kt:158-166 | with the basic evaluation, no open card is the active player's own card or was shown in a single-card answer |
| Simulator.BasicQuestionPrefersOpen | src/main/kotlin/simulator/ClGameSimulator.kt:168-187 | the basic question takes, per type, the first open card in shuffled order when one exists |
| Simulator.BasicQuestionTakesOpen | src/main/kotlin/simulator/ClGameSimulator.kt:168-187 | with a shuffle that lists every open card, the basic question asks an open card of each type that has one |
| Simulator.EvaluationQuestionPrefersUndecided | src/main/kotlin/simulator/ClGameSimulator.kt:124-146 | the evaluation-based question takes, per type, the first undecided card in shuffled order when one exists |
| Simulator.EvaluationQuestionTakesUndecided | src/main/kotlin/simulator/ClGameSimulator.kt:124-146 | with a shuffle that lists every undecided card, the evaluation-based question asks an undecided card of each type that has one |
| Simulator.GeneratedQuestionsSucceed | src/main/kotlin/simulator/ClGameSimulator.kt:116-187 | both priority lists end with all cards, so a deck with every type always yields a question |
| Simulator.FirstHeld | src/main/kotlin/simulator/ClGameSimulator.kt:197-198 | none exactly when the hand holds no question card, else the first question card, in question order, that the hand holds |
| Simulator.FirstResponder | src/main/kotlin/simulator/ClGameSimulator.kt:193-201 | the first player in the list, other than the asker by name, who holds a question card, with the first such card |
| Simulator.GetAnswerSpec | src/main/kotlin/simulator/ClGameSimulator.kt:190-209 | the answerer is the first player able to answer in rotation after the asker, with none exactly when nobody can; a viewpoint asker sees only the answerer's first held question card in question order (subject, tool, room); anyone else sees the whole question; either way within the question |
| Simulator.ActivePlayer | src/main/kotlin/simulator/ClGameSimulator.kt:29 | none exactly when there are no players, else a listed player |
| Simulator.TurnQuestion | src/main/kotlin/simulator/ClGameSimulator.kt:32-56 | the missing-evaluation error exactly for a viewpoint asker under the evaluation-based strategy without a result, otherwise only a missing card of some type; a question holds one subject, tool and room card of the asker |
| Simulator.TurnQuestionPrefers | src/main/kotlin/simulator/ClGameSimulator.kt:32-56 | a viewpoint asker under the evaluation-based strategy asks, per type, for the first undecided card of the evaluation result in shuffled order; every other asker for the first open card of its own basic evaluation of the history |
| Simulator.AnswerTurn | src/main/kotlin/simulator/ClGameSimulator.kt:58-71 | a failed question fails the turn with the same error; otherwise the turn is the question with the answer the hands give, and that answer stays within the question's cards |
| Simulator.NextTurnErrors | src/main/kotlin/simulator/ClGameSimulator.kt:22-56 | the turn fails for lack of an active player exactly when there are no players, and for a missing evaluation result exactly when the asker `players[|previousTurns| % |players|]` is the viewpoint player under the evaluation-based strategy without a result |
| Simulator.NextTurnSuccess | src/main/kotlin/simulator/ClGameSimulator.kt:22-72 | a successful turn has the asker `players[|previousTurns| % |players|]`, one subject, tool and room card, and the answer the hands give, which stays within the question |
| Simulator.NextTurnQuestionPrefers | src/main/kotlin/simulator/ClGameSimulator.kt:22-56 | the question of a successful turn follows the strategy of the asker `players[|previousTurns| % |players|]`: the first undecided card per type for a viewpoint asker under the evaluation-based strategy, the first open card of the asker's basic evaluation otherwise |

## Left out

- Cards.EqualsIsVariantAndId: the model uses the declared variant-and-id equality of ClCard.kt:21-28 for every card set, map key and comparison. The program runs the data-class equality, which also compares `displayNames`. The two agree on every deck in which no two cards of one variant share an id with different display names. The generated `hashCode` (31 times the id's hash plus the hash of the display-name map) is not modelled.
- Logging is left out: `logExclusionMatrix`, `logDataSet` and every `logger` call only format diagnostics.
- `ClCardLoader` is not part of this model. It reads a classpath resource and decodes JSON with Jackson.
- `Main.kt` and the randomized game loops of the tests are not modelled. They are drivers around the core.
- `ClGame.suggestedQuestionForMe` is not modelled: its body is `TODO()`.
- Randomness is a caller parameter. Every `shuffled()` is a card order (`shuffle`) or a permutation (`permutation`) the caller supplies. The random solution pick of `generateDefaultSet` is a caller-supplied index per type (`Picks`).
- Kotlin set iteration order is a caller-supplied card order (`order`): a set flattened into a list is listed in that order by `Matrix.Enumerate`. Which order Kotlin's hash sets actually use is not modelled.
- `Locale` is reduced to its language string in `Cards.ClCard.DisplayName`.
- Integer overflow of Kotlin `Int` arithmetic is not modelled, apart from the 32-bit wrap-around of the hash. The counts involved are small.
- Cards.StringHash: the contract states only the signed 32-bit range; the value is the body, the polynomial hash h = 31 * h + c wrapped to 32 bits.
- Question cards are a `seq` in the order the question was built (Kotlin's `setOf` keeps insertion order). Every engine rule reads them as a set.
- DataSet.DealPartition, DataSet.GenerateDefaultSetOutcome: the leftover count and hand size appear as the functions `LeftOverCount` and `PlayerCardCount`. `DataSet.HandArithmetic` and `DataSet.EmptyHandsIff` relate these functions to Kotlin's `%` and `/`, which agree with Dafny's for the non-negative operands here.
- Soundness against the dealt hands is not modelled: the claim that a complete 3-card solution equals the dealt solution. It would need an invariant relating every decided cell to the data set's hands through every pass.
- Monotonicity across successive `evaluate()` calls on a growing log is not claimed: that the count of undecided cards never rises and the solution only grows as turns are added. `Rules.FixpointNoReset` covers one replay only. On a log no deal can produce, the claim is false. For example, a player with hand size 3 shows three cards one at a time, so the full-hand rule marks that player's other cells NO. A fourth single-card answer by the same player gives 4 YES cells, the rule no longer fires, and a fresh replay leaves those cells undecided. For consistent logs the claim rests on the soundness invariant, which is not modelled.
- Ids are Dafny strings, which are sequences of Unicode scalar values, whereas Java strings are UTF-16 code units. `Cards.StringHashBits`, `Cards.StringHash` and `DataSet.IdLe` (the order of `sortedBy { it.id }`) agree with Java's `hashCode` and `compareTo` only for ids inside the Basic Multilingual Plane. An id with a character above U+FFFF hashes and sorts differently from Java.
- DataSet.DealPartition, DataSet.GenerateDefaultSetOutcome, DataSet.DeckCards, DataSet.DealShape, DataSet.DealSizes, DataSet.DealMembers, DataSet.DealtDistinct, DataSet.DealGenerated, DataSet.DealKeys: the dealing theorems assume a deck with unique card ids (`DistinctIds`). A `Set<ClCard>` may hold, say, a room card and a tool card with the same id. On such a deck, the `filterNot { it.id in ... }` of ClGameDataSet.kt:34 and 39-41 drops the same-id card of the other variant too, so the hands come out short and solution, leftovers and hands no longer cover the deck. The model computes that case (`DataSet.WithoutIds` filters by id), but no theorem describes it.
- `ClGame.turns` is a value `seq` owned by the `ClGame` object. Kotlin's `ClGame` shares the caller's `MutableList`, so a caller could change the log behind the game's back. That aliasing is not modelled.

## Findings

| source | as written | input that shows it | evidently intended | confidence | as-written member | corrected member |
|---|---|---|---|---|---|---|
| src/main/kotlin/evaluator/ClCard.kt:21-36 | the variants are `data class`es and the declared `equals`/`hashCode` are not `final`, so the generated ones, over `id` and `displayNames`, are used | `ToolCard("rope", mapOf("en" to "Rope"))` and `ToolCard("rope", emptyMap())` are unequal, so a set can hold both and each gets its own matrix cells | equality by variant and id, as the declared `equals` states (marking it `final` would make the program use it) | medium, from the language rules; not executed | Cards.DisplayNamesSplitCards | Cards.EqualsIsVariantAndId |
