/**
 * The knowledge matrix of the deduction engine and the pure query helpers of
 * the `ClGameEvaluator` companion object. The matrix maps a (player, card)
 * pair to YES, NO or NOT_CLEAR; it holds only the pairs that were ever
 * written, and every query ranges over the pairs it holds.
 */
module Matrix {
  import opened Wrappers
  import opened Cards
  import opened Players

  datatype HasCard = Yes | No | NotClear

  type Matrix = map<(Player, Card), HasCard>

  /** `ClGameEvaluationResult`: a snapshot of the matrix and the solution cards. */
  datatype EvaluationResult = EvaluationResult(exclusionMatrix: Matrix, solutionCards: set<Card>)

  // ---------------------------------------------------------------------------
  // Queries
  // ---------------------------------------------------------------------------

  /** `playerCards`: the cards known to be held by `p`. */
  function PlayerCards(m: Matrix, p: Player): (r: set<Card>)
    ensures forall c :: c in r <==> (p, c) in m && m[(p, c)] == Yes
  {
    set k | k in m && k.0 == p && m[k] == Yes :: k.1
  }

  /** `nonPlayerCards`: the cards known not to be held by `p`. */
  function NonPlayerCards(m: Matrix, p: Player): (r: set<Card>)
    ensures forall c :: c in r <==> (p, c) in m && m[(p, c)] == No
  {
    set k | k in m && k.0 == p && m[k] == No :: k.1
  }

  /** `playerCardSet`: the cards known to be held by somebody. */
  function PlayerCardSet(m: Matrix): (r: set<Card>)
    ensures forall c :: c in r <==> exists p :: (p, c) in m && m[(p, c)] == Yes
  {
    set k | k in m && m[k] == Yes :: k.1
  }

  /** `playerCardMap`: every listed player with the cards known to be theirs. */
  function PlayerCardMap(m: Matrix, players: seq<Player>): (r: map<Player, set<Card>>)
    ensures forall p :: p in r <==> p in players
    ensures forall p :: p in r ==> r[p] == PlayerCards(m, p)
  {
    map p | p in players :: PlayerCards(m, p)
  }

  /**
   * `notClearCards`: the distinct cards that still have a NOT_CLEAR cell for
   * some player. Its size, a number of cards and not of cells, is the
   * engine's progress measure.
   */
  function NotClearCards(m: Matrix): (r: set<Card>)
    ensures forall c :: c in r <==> exists p :: (p, c) in m && m[(p, c)] == NotClear
  {
    set k | k in m && m[k] == NotClear :: k.1
  }

  /** `completeExcludedCards`: the cards that occur in the matrix and are NO in every cell they have. */
  function CompleteExcludedCards(m: Matrix): (r: set<Card>)
    ensures forall c :: c in r <==>
      (exists p :: (p, c) in m) && forall p :: (p, c) in m ==> m[(p, c)] == No
  {
    var cards := set k | k in m :: k.1;
    set c | c in cards && forall k :: k in m && k.1 == c ==> m[k] == No
  }

  /**
   * The members of a set in the order they take in `order`. A Kotlin set is
   * iterated in insertion order; the model takes that order from the caller.
   */
  function Enumerate(s: set<Card>, order: seq<Card>): (r: seq<Card>)
    ensures forall c :: c in r <==> c in s && c in order
  {
    if order == [] then []
    else if order[0] in s then [order[0]] + Enumerate(s, order[1..])
    else Enumerate(s, order[1..])
  }

  function Reverse(s: seq<Player>): (r: seq<Player>)
    ensures |r| == |s|
    ensures forall i :: 0 <= i < |s| ==> r[i] == s[|s| - 1 - i]
  {
    if s == [] then [] else Reverse(s[1..]) + [s[0]]
  }

  /** `filterNot { it == excluded }`. */
  function Without(ps: seq<Player>, excluded: Player): (r: seq<Player>)
    ensures forall p :: p in r <==> p in ps && p != excluded
  {
    if ps == [] then []
    else if ps[0] == excluded then Without(ps[1..], excluded)
    else [ps[0]] + Without(ps[1..], excluded)
  }

  /** The concatenation of each player's known cards, in the order of `ps`. */
  function KnownCardsOf(m: Matrix, ps: seq<Player>, order: seq<Card>): (r: seq<Card>)
  {
    if ps == [] then [] else Enumerate(PlayerCards(m, ps[0]), order) + KnownCardsOf(m, ps[1..], order)
  }

  lemma {:induction false} KnownCardsOfMembers(m: Matrix, ps: seq<Player>, order: seq<Card>, c: Card)
    ensures c in KnownCardsOf(m, ps, order) <==>
      c in order && exists p :: p in ps && c in PlayerCards(m, p)
  {
    if ps != [] {
      KnownCardsOfMembers(m, ps[1..], order, c);
      if c in order && c in PlayerCards(m, ps[0]) {
        assert c in Enumerate(PlayerCards(m, ps[0]), order);
      }
      if exists p :: p in ps[1..] && c in PlayerCards(m, p) {
        var p :| p in ps[1..] && c in PlayerCards(m, p);
        assert p in ps;
      }
      if exists p :: p in ps && c in PlayerCards(m, p) {
        var p :| p in ps && c in PlayerCards(m, p);
        assert p == ps[0] || p in ps[1..];
      }
    }
  }

  /**
   * `otherPlayerCardsInReverseOrder`: the known cards of every other player,
   * player by player, in the reverse of the turn order that starts after
   * `excluded`.
   */
  function OtherPlayerCardsInReverseOrder(m: Matrix, players: seq<Player>, excluded: Player, order: seq<Card>)
    : (r: seq<Card>)
  {
    var others := Without(players, excluded);
    KnownCardsOf(m, Reverse(SortByPosition(others, NextPlayerByPosition(players, excluded))), order)
  }

  /** The reverse-order list holds exactly the known cards of the other players. */
  lemma OtherPlayerCardsMembers(m: Matrix, players: seq<Player>, excluded: Player, order: seq<Card>, c: Card)
    ensures c in OtherPlayerCardsInReverseOrder(m, players, excluded, order) <==>
      c in order && exists p :: p in players && p != excluded && c in PlayerCards(m, p)
  {
    var others := Without(players, excluded);
    var rev := Reverse(SortByPosition(others, NextPlayerByPosition(players, excluded)));
    assert forall p :: p in rev <==> p in players && p != excluded by {
      RotationMembers(others, NextPlayerByPosition(players, excluded));
    }
    KnownCardsOfMembers(m, rev, order, c);
  }

  /** Reversing a sorted list keeps exactly its members. */
  lemma RotationMembers(ps: seq<Player>, first: Option<Player>)
    ensures forall p :: p in Reverse(SortByPosition(ps, first)) <==> p in ps
  {
    var sorted := SortByPosition(ps, first);
    var rev := Reverse(sorted);
    SortMembers(ps, first);
    forall p ensures p in rev <==> p in sorted {
      if p in sorted {
        var i :| 0 <= i < |sorted| && sorted[i] == p;
        assert rev[|sorted| - 1 - i] == p;
      }
    }
  }

  // ---------------------------------------------------------------------------
  // Writes
  // ---------------------------------------------------------------------------

  /** The cells of the listed players for the given cards. */
  function Cells(pls: seq<Player>, cards: set<Card>): (r: set<(Player, Card)>)
    ensures forall p, c :: (p, c) in r <==> p in pls && c in cards
  {
    set p, c | p in pls && c in cards :: (p, c)
  }

  /**
   * The matrix after `m[pl to card] = v` for every listed player and every
   * card; all writes store the same value, so their order does not matter.
   */
  function Assign(m: Matrix, pls: seq<Player>, cards: set<Card>, v: HasCard): (r: Matrix)
    ensures r.Keys == m.Keys + Cells(pls, cards)
    ensures forall p, c :: p in pls && c in cards ==> r[(p, c)] == v
    ensures forall k :: k in m && k !in Cells(pls, cards) ==> r[k] == m[k]
  {
    map k | k in m.Keys + Cells(pls, cards) :: if k in Cells(pls, cards) then v else m[k]
  }

  lemma AssignNothing(m: Matrix, pls: seq<Player>, v: HasCard)
    ensures Assign(m, pls, {}, v) == m
  {
  }

  lemma AssignMoreCards(m: Matrix, pls: seq<Player>, a: set<Card>, b: set<Card>, v: HasCard)
    ensures Assign(Assign(m, pls, a, v), pls, b, v) == Assign(m, pls, a + b, v)
  {
  }

  lemma AssignMorePlayers(m: Matrix, pls: seq<Player>, p: Player, cards: set<Card>, v: HasCard)
    ensures Assign(Assign(m, pls, cards, v), [p], cards, v) == Assign(m, pls + [p], cards, v)
  {
  }

  lemma AssignOneCell(m: Matrix, p: Player, c: Card, v: HasCard)
    ensures Assign(m, [p], {c}, v) == m[(p, c) := v]
  {
  }

  /** No cell that was decided is NOT_CLEAR again, and no cell disappears. */
  predicate NoReset(m: Matrix, m': Matrix)
  {
    && m.Keys <= m'.Keys
    && forall k :: k in m' && m'[k] == NotClear ==> k in m && m[k] == NotClear
  }

  lemma NoResetTransitive(m1: Matrix, m2: Matrix, m3: Matrix)
    requires NoReset(m1, m2) && NoReset(m2, m3)
    ensures NoReset(m1, m3)
  {
  }

  lemma AssignNoReset(m: Matrix, pls: seq<Player>, cards: set<Card>, v: HasCard)
    requires v != NotClear
    ensures NoReset(m, Assign(m, pls, cards, v))
  {
  }

  /** Without a reset, the distinct NOT_CLEAR cards can only become fewer. */
  lemma NoResetNotClear(m: Matrix, m': Matrix)
    requires NoReset(m, m')
    ensures NotClearCards(m') <= NotClearCards(m)
    ensures |NotClearCards(m')| <= |NotClearCards(m)|
  {
    forall c | c in NotClearCards(m') ensures c in NotClearCards(m) {
      var p :| (p, c) in m' && m'[(p, c)] == NotClear;
    }
    SubsetCardinality(NotClearCards(m'), NotClearCards(m));
  }

  lemma SubsetCardinality<T>(a: set<T>, b: set<T>)
    requires a <= b
    ensures |a| <= |b|
    ensures |a| == |b| ==> a == b
  {
    assert b == a + (b - a);
    if |a| == |b| {
      assert |b - a| == 0;
    }
  }
}
