/**
 * What the passes of `updateMatrixFromTurns` guarantee: the cells each rule
 * decides in the final matrix, the closure the implicit rules leave behind
 * after every round, and the monotonicity of the whole replay.
 */
module Rules {
  import opened Wrappers
  import opened Cards
  import opened Players
  import opened Turns
  import opened Matrix
  import opened Deduction

  // ---------------------------------------------------------------------------
  // (1) players in between
  // ---------------------------------------------------------------------------

  /**
   * For every answered turn, each listed player strictly between asker and
   * answerer in clockwise order is NO for every asked card once the
   * in-between pass has run.
   */
  lemma {:induction false} MarkInBetweenExcludes(cfg: Config, m: Matrix, turns: seq<Turn>, i: int, p: Player, c: Card)
    requires DistinctPositions(cfg.players)
    requires 0 <= i < |turns| && turns[i].answer.Some?
    requires turns[i].question.player in cfg.players && turns[i].answer.value.player in cfg.players
    requires p in cfg.players && StrictlyBetween(turns[i].question.player, p, turns[i].answer.value.player)
    requires c in turns[i].question.cards
    ensures var r := MarkInBetween(cfg, m, turns); (p, c) in r && r[(p, c)] == No
  {
    var n := |turns| - 1;
    var prefix := turns[..n];
    var prev := MarkInBetween(cfg, m, prefix);
    if i == n {
      var t := turns[i];
      InBetweenRotation(cfg.players, t.question.player, t.answer.value.player, p);
      assert p in SkippedPlayers(cfg.players, t);
    } else {
      assert prefix[i] == turns[i];
      MarkInBetweenExcludes(cfg, m, prefix, i, p, c);
    }
  }

  // ---------------------------------------------------------------------------
  // (1) single-card answers
  // ---------------------------------------------------------------------------

  /** The card of a one-card answer. */
  function ShownCard(t: Turn): Card
    requires SingleCardAnswer(t)
  {
    SoleCard(t.answer.value.cards)
  }

  /**
   * A one-card answer that no later one-card answer of the same card
   * overrides: after the pass the answerer is YES for that card and every
   * other listed player is NO.
   */
  lemma {:induction false} AddAnswerCardsDecides(cfg: Config, m: Matrix, turns: seq<Turn>, i: int)
    requires 0 <= i < |turns| && SingleCardAnswer(turns[i])
    requires forall j :: i < j < |turns| && SingleCardAnswer(turns[j]) ==> ShownCard(turns[j]) != ShownCard(turns[i])
    ensures var r := AddAnswerCards(cfg, m, turns);
      var a := turns[i].answer.value;
      var c := ShownCard(turns[i]);
      && (a.player, c) in r && r[(a.player, c)] == Yes
      && forall p :: p in cfg.players && p != a.player ==> (p, c) in r && r[(p, c)] == No
  {
    var n := |turns| - 1;
    var prefix := turns[..n];
    if i < n {
      forall j | i < j < |prefix| && SingleCardAnswer(prefix[j])
        ensures ShownCard(prefix[j]) != ShownCard(prefix[i])
      {
        assert prefix[j] == turns[j];
      }
      assert prefix[i] == turns[i];
      AddAnswerCardsDecides(cfg, m, prefix, i);
      var t := turns[n];
      if SingleCardAnswer(t) {
        assert ShownCard(t) != ShownCard(turns[i]);
      }
    }
  }

  // ---------------------------------------------------------------------------
  // (2) solution cards
  // ---------------------------------------------------------------------------

  /** The cards the empty-answer rule takes, cell by cell. */
  lemma EmptyAnswerCardsMembers(cfg: Config, m: Matrix, t: Turn, c: Card)
    ensures var asker := t.question.player;
      c in EmptyAnswerCards(cfg, m, t) <==>
        && Unanswered(t)
        && |PlayerCards(m, asker)| == cfg.maxPlayerCards
        && c in t.question.cards
        && c !in cfg.leftOverCards
        && !((asker, c) in m && m[(asker, c)] == Yes)
  {
  }

  /**
   * A card the empty-answer rule takes at turn `i` is, after the pass, a
   * solution card and NO for every listed player.
   */
  lemma {:induction false} EmptyAnswerSolves(cfg: Config, st: EvaluationResult, turns: seq<Turn>, i: int, c: Card)
    requires 0 <= i < |turns|
    requires c in EmptyAnswerCards(cfg, EmptyAnswerSolutions(cfg, st, turns[..i]).exclusionMatrix, turns[i])
    ensures var r := EmptyAnswerSolutions(cfg, st, turns);
      && c in r.solutionCards
      && forall p :: p in cfg.players ==> (p, c) in r.exclusionMatrix && r.exclusionMatrix[(p, c)] == No
  {
    var n := |turns| - 1;
    var prefix := turns[..n];
    var prev := EmptyAnswerSolutions(cfg, st, prefix);
    var cards := EmptyAnswerCards(cfg, prev.exclusionMatrix, turns[n]);
    assert EmptyAnswerSolutions(cfg, st, turns) == EmptyAnswerStep(cfg, prev, turns[n]);
    if i == n {
      assert turns[..i] == prefix;
      assert c in cards;
    } else {
      assert prefix[..i] == turns[..i] && prefix[i] == turns[i];
      EmptyAnswerSolves(cfg, st, prefix, i, c);
    }
  }

  /** (2b) the solution grows by exactly the fully excluded cards that are not leftovers. */
  lemma FullExclusionMembers(cfg: Config, st: EvaluationResult, c: Card)
    ensures var r := FullExclusionSolutions(cfg, st);
      && r.exclusionMatrix == st.exclusionMatrix
      && (c in r.solutionCards <==>
            c in st.solutionCards
            || (c !in cfg.leftOverCards
                && (exists p :: (p, c) in st.exclusionMatrix)
                && forall p :: (p, c) in st.exclusionMatrix ==> st.exclusionMatrix[(p, c)] == No))
  {
  }

  /** `groupBy` on the type, then groups of size one: the cards with no other card of their type in `s`. */
  lemma LoneInCategoryMembers(s: set<Card>, c: Card)
    ensures c in LoneInCategory(s) <==> c in s && forall d :: d in s && d.kind == c.kind ==> d == c
  {
    if c in s && forall d :: d in s && d.kind == c.kind ==> d == c {
      assert CardsOfKind(s, c.kind) == {c};
    }
    if c in LoneInCategory(s) {
      forall d | d in s && d.kind == c.kind ensures d == c {
        assert d in CardsOfKind(s, c.kind);
      }
    }
  }

  /**
   * (2c) a card becomes a solution card when it is the only card of its type
   * that is neither a leftover nor known to be held; it is then NO for every
   * listed player.
   */
  lemma LastInCategorySolves(cfg: Config, st: EvaluationResult, c: Card)
    ensures var r := LastInCategorySolutions(cfg, st);
      var open := Undetermined(cfg, st.exclusionMatrix);
      && (c in r.solutionCards <==>
            c in st.solutionCards || (c in open && forall d :: d in open && d.kind == c.kind ==> d == c))
      && (c in open && (forall d :: d in open && d.kind == c.kind ==> d == c) ==>
            forall p :: p in cfg.players ==> (p, c) in r.exclusionMatrix && r.exclusionMatrix[(p, c)] == No)
  {
    LoneInCategoryMembers(Undetermined(cfg, st.exclusionMatrix), c);
  }

  // ---------------------------------------------------------------------------
  // (3) closure left by the implicit rules
  // ---------------------------------------------------------------------------

  /** Every card the matrix mentions is one of the game's cards. */
  predicate CardsWithin(cfg: Config, m: Matrix)
  {
    forall k :: k in m ==> k.1 in cfg.allCards
  }

  /** A player whose known cards fill a hand is NO for every other card. */
  predicate HandClosed(cfg: Config, m: Matrix, pl: Player)
  {
    |PlayerCards(m, pl)| == cfg.maxPlayerCards ==>
      forall c :: c in cfg.allCards && c !in PlayerCards(m, pl) ==> (pl, c) in m && m[(pl, c)] == No
  }

  /** A player with exactly a hand's worth of cards not excluded is YES for all of them. */
  predicate ComplementClosed(cfg: Config, m: Matrix, pl: Player)
  {
    |cfg.allCards| - |NonPlayerCards(m, pl)| == cfg.maxPlayerCards ==>
      forall c :: c in cfg.allCards && c !in NonPlayerCards(m, pl) ==> (pl, c) in m && m[(pl, c)] == Yes
  }

  /** The two matrices agree on every cell of `pl`. */
  ghost predicate SameRow(m: Matrix, m': Matrix, pl: Player)
  {
    forall c :: ((pl, c) in m <==> (pl, c) in m') && ((pl, c) in m ==> m[(pl, c)] == m'[(pl, c)])
  }

  lemma SameRowQueries(cfg: Config, m: Matrix, m': Matrix, pl: Player)
    requires SameRow(m, m', pl)
    ensures PlayerCards(m, pl) == PlayerCards(m', pl) && NonPlayerCards(m, pl) == NonPlayerCards(m', pl)
    ensures HandClosed(cfg, m, pl) <==> HandClosed(cfg, m', pl)
    ensures ComplementClosed(cfg, m, pl) <==> ComplementClosed(cfg, m', pl)
  {
    assert PlayerCards(m, pl) == PlayerCards(m', pl);
    assert NonPlayerCards(m, pl) == NonPlayerCards(m', pl);
  }

  lemma FullHandStepCloses(cfg: Config, m: Matrix, pl: Player)
    requires CardsWithin(cfg, m)
    ensures var r := FullHandStep(cfg, m, pl);
      HandClosed(cfg, r, pl) && CardsWithin(cfg, r) && forall q :: q != pl ==> SameRow(m, r, q)
  {
    var r := FullHandStep(cfg, m, pl);
    assert PlayerCards(r, pl) == PlayerCards(m, pl);
  }

  lemma {:induction false} FullHandRuleCloses(cfg: Config, m: Matrix, pls: seq<Player>)
    requires CardsWithin(cfg, m)
    ensures var r := FullHandRule(cfg, m, pls);
      && CardsWithin(cfg, r)
      && (forall pl :: pl in pls ==> HandClosed(cfg, r, pl))
      && (forall pl :: pl !in pls ==> SameRow(m, r, pl))
  {
    if pls != [] {
      var n := |pls| - 1;
      var prev := FullHandRule(cfg, m, pls[..n]);
      FullHandRuleCloses(cfg, m, pls[..n]);
      FullHandStepCloses(cfg, prev, pls[n]);
      var r := FullHandRule(cfg, m, pls);
      forall pl | pl in pls ensures HandClosed(cfg, r, pl) {
        if pl != pls[n] {
          assert pl in pls[..n] by {
            var k :| 0 <= k < |pls| && pls[k] == pl;
            assert pls[..n][k] == pl;
          }
          SameRowQueries(cfg, prev, r, pl);
        }
      }
      forall pl | pl !in pls ensures SameRow(m, r, pl) {
        assert pl !in pls[..n];
      }
    }
  }

  /** Writing YES over a row's cards that are not NO keeps its NO cards. */
  lemma ComplementKeepsExcluded(cfg: Config, m: Matrix, pl: Player)
    ensures var open := cfg.allCards - NonPlayerCards(m, pl);
      NonPlayerCards(Assign(m, [pl], open, Yes), pl) == NonPlayerCards(m, pl)
  {
    var npc := NonPlayerCards(m, pl);
    var open := cfg.allCards - npc;
    var r := Assign(m, [pl], open, Yes);
    forall c ensures c in NonPlayerCards(r, pl) <==> c in npc {
      if c in open {
        assert r[(pl, c)] == Yes;
      }
    }
  }

  /** ... and its YES cards become exactly the game cards that are not NO. */
  lemma ComplementHolds(cfg: Config, m: Matrix, pl: Player)
    requires CardsWithin(cfg, m)
    ensures var open := cfg.allCards - NonPlayerCards(m, pl);
      PlayerCards(Assign(m, [pl], open, Yes), pl) == open
  {
    var npc := NonPlayerCards(m, pl);
    var open := cfg.allCards - npc;
    var r := Assign(m, [pl], open, Yes);
    forall c ensures c in PlayerCards(r, pl) <==> c in open {
      if c !in open && (pl, c) in m {
        assert c in cfg.allCards;
      }
    }
  }

  lemma ExcludedCount(cfg: Config, m: Matrix, pl: Player)
    requires CardsWithin(cfg, m)
    ensures |cfg.allCards - NonPlayerCards(m, pl)| == |cfg.allCards| - |NonPlayerCards(m, pl)|
  {
    var npc := NonPlayerCards(m, pl);
    assert npc <= cfg.allCards;
    assert cfg.allCards == (cfg.allCards - npc) + npc;
  }

  /** A write confined to one row leaves every other row as it was. */
  lemma AssignOtherRows(cfg: Config, m: Matrix, pl: Player, cards: set<Card>, v: HasCard)
    requires CardsWithin(cfg, m) && cards <= cfg.allCards
    ensures var r := Assign(m, [pl], cards, v);
      CardsWithin(cfg, r) && forall q :: q != pl ==> SameRow(m, r, q)
  {
  }

  lemma ComplementStepCloses(cfg: Config, m: Matrix, pl: Player)
    requires CardsWithin(cfg, m)
    requires HandClosed(cfg, m, pl)
    ensures var r := ComplementStep(cfg, m, pl);
      && HandClosed(cfg, r, pl) && ComplementClosed(cfg, r, pl)
      && CardsWithin(cfg, r) && forall q :: q != pl ==> SameRow(m, r, q)
  {
    var npc := NonPlayerCards(m, pl);
    if |cfg.allCards| - |npc| == cfg.maxPlayerCards {
      var open := cfg.allCards - npc;
      var r := Assign(m, [pl], open, Yes);
      ComplementKeepsExcluded(cfg, m, pl);
      ComplementHolds(cfg, m, pl);
      ExcludedCount(cfg, m, pl);
      AssignOtherRows(cfg, m, pl, open, Yes);
      assert HandClosed(cfg, r, pl);
      assert ComplementClosed(cfg, r, pl);
    }
  }

  lemma {:induction false} ComplementRuleCloses(cfg: Config, m: Matrix, pls: seq<Player>)
    requires CardsWithin(cfg, m)
    requires forall pl :: pl in pls ==> HandClosed(cfg, m, pl)
    ensures var r := ComplementRule(cfg, m, pls);
      && CardsWithin(cfg, r)
      && (forall pl :: pl in pls ==> HandClosed(cfg, r, pl) && ComplementClosed(cfg, r, pl))
      && (forall pl :: pl !in pls ==> SameRow(m, r, pl))
  {
    if pls != [] {
      var n := |pls| - 1;
      var last := pls[n];
      var prev := ComplementRule(cfg, m, pls[..n]);
      forall pl | pl in pls[..n] ensures HandClosed(cfg, m, pl) {
        var k :| 0 <= k < n && pls[..n][k] == pl;
        assert pls[k] == pl;
      }
      ComplementRuleCloses(cfg, m, pls[..n]);
      assert HandClosed(cfg, prev, last) by {
        if last !in pls[..n] {
          SameRowQueries(cfg, m, prev, last);
        }
      }
      ComplementStepCloses(cfg, prev, last);
      var r := ComplementRule(cfg, m, pls);
      forall pl | pl in pls ensures HandClosed(cfg, r, pl) && ComplementClosed(cfg, r, pl) {
        if pl != last {
          assert pl in pls[..n] by {
            var k :| 0 <= k < |pls| && pls[k] == pl;
            assert pls[..n][k] == pl;
          }
          SameRowQueries(cfg, prev, r, pl);
        }
      }
      forall pl | pl !in pls ensures SameRow(m, r, pl) {
        assert pl !in pls[..n];
      }
    }
  }

  /** The cards of every question and answer are game cards. */
  predicate TurnsWithin(cfg: Config, turns: seq<Turn>)
  {
    forall i :: 0 <= i < |turns| ==>
      QuestionCards(turns[i].question) <= cfg.allCards
      && (turns[i].answer.Some? ==> turns[i].answer.value.cards <= cfg.allCards)
  }

  lemma {:induction false} MarkInBetweenWithin(cfg: Config, m: Matrix, turns: seq<Turn>)
    requires CardsWithin(cfg, m) && TurnsWithin(cfg, turns)
    ensures CardsWithin(cfg, MarkInBetween(cfg, m, turns))
  {
    if turns != [] {
      var n := |turns| - 1;
      assert TurnsWithin(cfg, turns[..n]) by {
        forall i | 0 <= i < n ensures turns[..n][i] == turns[i] { }
      }
      MarkInBetweenWithin(cfg, m, turns[..n]);
    }
  }

  lemma {:induction false} AddAnswerCardsWithin(cfg: Config, m: Matrix, turns: seq<Turn>)
    requires CardsWithin(cfg, m) && TurnsWithin(cfg, turns)
    ensures CardsWithin(cfg, AddAnswerCards(cfg, m, turns))
  {
    if turns != [] {
      var n := |turns| - 1;
      assert TurnsWithin(cfg, turns[..n]) by {
        forall i | 0 <= i < n ensures turns[..n][i] == turns[i] { }
      }
      AddAnswerCardsWithin(cfg, m, turns[..n]);
      if SingleCardAnswer(turns[n]) {
        assert ShownCard(turns[n]) in turns[n].answer.value.cards;
      }
    }
  }

  lemma {:induction false} EmptyAnswerWithin(cfg: Config, st: EvaluationResult, turns: seq<Turn>)
    requires CardsWithin(cfg, st.exclusionMatrix) && TurnsWithin(cfg, turns)
    ensures CardsWithin(cfg, EmptyAnswerSolutions(cfg, st, turns).exclusionMatrix)
  {
    if turns != [] {
      var n := |turns| - 1;
      assert TurnsWithin(cfg, turns[..n]) by {
        forall i | 0 <= i < n ensures turns[..n][i] == turns[i] { }
      }
      EmptyAnswerWithin(cfg, st, turns[..n]);
    }
  }

  lemma SolutionPassesWithin(cfg: Config, st: EvaluationResult, turns: seq<Turn>)
    requires CardsWithin(cfg, st.exclusionMatrix) && TurnsWithin(cfg, turns)
    ensures CardsWithin(cfg, SolutionPasses(cfg, st, turns).exclusionMatrix)
  {
    var m1 := MarkInBetween(cfg, st.exclusionMatrix, turns);
    MarkInBetweenWithin(cfg, st.exclusionMatrix, turns);
    var m2 := AddAnswerCards(cfg, m1, turns);
    AddAnswerCardsWithin(cfg, m1, turns);
    EmptyAnswerWithin(cfg, EvaluationResult(m2, st.solutionCards), turns);
  }

  /** After every round, each listed player is closed under both implicit rules. */
  lemma RoundCloses(cfg: Config, st: EvaluationResult, turns: seq<Turn>)
    requires CardsWithin(cfg, st.exclusionMatrix) && TurnsWithin(cfg, turns)
    ensures var r := RoundState(cfg, st, turns);
      && CardsWithin(cfg, r.exclusionMatrix)
      && forall pl :: pl in cfg.players ==>
           HandClosed(cfg, r.exclusionMatrix, pl) && ComplementClosed(cfg, r.exclusionMatrix, pl)
  {
    var s5 := SolutionPasses(cfg, st, turns);
    SolutionPassesWithin(cfg, st, turns);
    FullHandRuleCloses(cfg, s5.exclusionMatrix, cfg.players);
    ComplementRuleCloses(cfg, FullHandRule(cfg, s5.exclusionMatrix, cfg.players), cfg.players);
  }

  lemma RefineWithin(cfg: Config, m: Matrix, turns: seq<Turn>)
    requires TurnsWithin(cfg, turns)
    ensures TurnsWithin(cfg, RefineTurns(m, turns))
  {
    var r := RefineTurns(m, turns);
    forall i | 0 <= i < |r|
      ensures QuestionCards(r[i].question) <= cfg.allCards
      ensures r[i].answer.Some? ==> r[i].answer.value.cards <= cfg.allCards
    {
      assert r[i] == RefineTurn(m, turns[i]);
    }
  }

  // ---------------------------------------------------------------------------
  // The replay as a whole
  // ---------------------------------------------------------------------------

  /**
   * The state `updateMatrixFromTurns` stops in is closed under both implicit
   * rules for every listed player.
   */
  lemma FixpointCloses(cfg: Config, st: EvaluationResult, turns: seq<Turn>)
    requires CardsWithin(cfg, st.exclusionMatrix) && TurnsWithin(cfg, turns)
    ensures var r := Fixpoint(cfg, st, turns).state.exclusionMatrix;
      forall pl :: pl in cfg.players ==> HandClosed(cfg, r, pl) && ComplementClosed(cfg, r, pl)
    decreases Measure(st, turns)
  {
    var next := RoundState(cfg, st, turns);
    var updatedTurns := RefineTurns(next.exclusionMatrix, turns);
    RoundCloses(cfg, st, turns);
    if Changed(st, next, turns, updatedTurns) {
      RoundMeasureDecreases(cfg, st, turns);
      RefineWithin(cfg, next.exclusionMatrix, turns);
      FixpointCloses(cfg, next, updatedTurns);
    }
  }

  /**
   * The replay stops only on refined turns: refining the turns of the last
   * round once more against the final matrix changes nothing.
   */
  lemma FixpointRefined(cfg: Config, st: EvaluationResult, turns: seq<Turn>)
    ensures var o := Fixpoint(cfg, st, turns);
      RefineTurns(o.state.exclusionMatrix, o.turns) == o.turns
    decreases Measure(st, turns)
  {
    var next := RoundState(cfg, st, turns);
    var updatedTurns := RefineTurns(next.exclusionMatrix, turns);
    if Changed(st, next, turns, updatedTurns) {
      RoundMeasureDecreases(cfg, st, turns);
      FixpointRefined(cfg, next, updatedTurns);
    }
  }

  /** The replay never sets a cell back to NOT_CLEAR and never drops a solution card. */
  lemma FixpointNoReset(cfg: Config, st: EvaluationResult, turns: seq<Turn>)
    ensures var o := Fixpoint(cfg, st, turns);
      NoReset(st.exclusionMatrix, o.state.exclusionMatrix) && st.solutionCards <= o.state.solutionCards
    decreases Measure(st, turns)
  {
    var next := RoundState(cfg, st, turns);
    var updatedTurns := RefineTurns(next.exclusionMatrix, turns);
    RoundNoReset(cfg, st, turns);
    if Changed(st, next, turns, updatedTurns) {
      RoundMeasureDecreases(cfg, st, turns);
      FixpointNoReset(cfg, next, updatedTurns);
      NoResetTransitive(st.exclusionMatrix, next.exclusionMatrix, Fixpoint(cfg, next, updatedTurns).state.exclusionMatrix);
    }
  }
}
