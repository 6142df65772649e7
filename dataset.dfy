/**
 * The test data of a simulated game (`ClGameDataSet`): a deck split into one
 * solution card per type, the leftover cards shown to everyone, and equal
 * consecutive hands, one per player.
 */
module DataSet {
  import opened Wrappers
  import opened Cards
  import opened Players

  datatype DataSet = DataSet(
    players: seq<Player>,
    allCards: set<Card>,
    solutionCards: set<Card>,
    leftOverCards: set<Card>,
    playerCards: map<Player, set<Card>>)

  /** The exceptions `generateDefaultSet`, `getOwnPlayer` and `getOwnCards` can raise. */
  datatype DataSetError =
    | NoCardOfKind(kind: CardType)   // `first()` on an empty list
    | NoPlayers                      // `% players.size` with no players
    | EmptyHands                     // `chunked(0)`
    | OwnPlayerNotSet
    | OwnPlayerCardsNotSet

  /** The positions the three `shuffled().first()` solution draws land on. */
  datatype Picks = Picks(subject: nat, tool: nat, room: nat)

  // ---------------------------------------------------------------------------
  // Sequence helpers
  // ---------------------------------------------------------------------------

  predicate Distinct(s: seq<Card>)
  {
    forall i, j :: 0 <= i < j < |s| ==> s[i] != s[j]
  }

  predicate DistinctIds(s: seq<Card>)
  {
    forall i, j :: 0 <= i < j < |s| ==> s[i].id != s[j].id
  }

  function SetOf(s: seq<Card>): (r: set<Card>)
    ensures forall c :: c in r <==> c in s
  {
    set c | c in s
  }

  function IdsOf(s: set<Card>): (r: set<string>)
    ensures forall c :: c in s ==> c.id in r
    ensures forall id :: id in r ==> exists c :: c in s && c.id == id
  {
    set c | c in s :: c.id
  }

  /** `filterIsInstance<...>()`: the cards of one type, in deck order. */
  function OfKind(s: seq<Card>, k: CardType): (r: seq<Card>)
    ensures forall c :: c in r <==> c in s && c.kind == k
  {
    if s == [] then []
    else if s[0].kind == k then [s[0]] + OfKind(s[1..], k)
    else OfKind(s[1..], k)
  }

  /** `filterIsInstance<...>().shuffled().first()`, with the draw supplied as a position. */
  function PickOfKind(s: seq<Card>, k: CardType, pick: nat): (r: Option<Card>)
    ensures r.None? <==> forall c :: c in s ==> c.kind != k
    ensures r.Some? ==> r.value in s && r.value.kind == k
  {
    var cs := OfKind(s, k);
    if |cs| == 0 then None
    else
      assert cs[pick % |cs|] in cs;
      Some(cs[pick % |cs|])
  }

  /** `filterNot { it.id in ids }`. */
  function WithoutIds(s: seq<Card>, ids: set<string>): (r: seq<Card>)
    ensures forall c :: c in r <==> c in s && c.id !in ids
    ensures |r| <= |s|
  {
    if s == [] then []
    else if s[0].id in ids then WithoutIds(s[1..], ids)
    else [s[0]] + WithoutIds(s[1..], ids)
  }

  /** `take(n)`. */
  function Take(s: seq<Card>, n: nat): (r: seq<Card>)
    ensures |r| == if n <= |s| then n else |s|
    ensures r == s[..|r|]
  {
    if n <= |s| then s[..n] else s
  }

  function Flatten(ss: seq<seq<Card>>): seq<Card>
  {
    if ss == [] then [] else ss[0] + Flatten(ss[1..])
  }

  /** `chunked(size)`: consecutive slices of `size` elements, only the last one possibly shorter. */
  function Chunked(s: seq<Card>, size: nat): (r: seq<seq<Card>>)
    requires size > 0
    ensures Flatten(r) == s
    ensures forall i :: 0 <= i < |r| ==> 0 < |r[i]| <= size
    ensures forall i :: 0 <= i < |r| - 1 ==> |r[i]| == size
    decreases |s|
  {
    if |s| == 0 then []
    else if |s| <= size then
      assert Flatten([s]) == s + Flatten([]);
      [s]
    else
      var rest := Chunked(s[size..], size);
      var r := [s[..size]] + rest;
      assert r[1..] == rest;
      assert s == s[..size] + s[size..];
      r
  }

  /** A sequence of at most `n * size` elements falls into at most `n` chunks. */
  lemma {:induction false} ChunkedCountBound(s: seq<Card>, size: nat, n: nat)
    requires size > 0 && |s| <= n * size
    ensures |Chunked(s, size)| <= n
  {
    if |s| > size {
      assert n != 0 && n != 1;
      assert |s[size..]| <= (n - 1) * size;
      ChunkedCountBound(s[size..], size, n - 1);
    } else if |s| > 0 {
      assert n != 0;
    }
  }

  /** A sequence of exactly `n * size` elements falls into `n` chunks of `size` elements each. */
  lemma {:induction false} ChunkedExact(s: seq<Card>, size: nat, n: nat)
    requires size > 0 && |s| == n * size
    ensures |Chunked(s, size)| == n
    ensures forall i :: 0 <= i < n ==> |Chunked(s, size)[i]| == size
  {
    if n == 1 {
      assert |s| == size;
    } else if n > 1 {
      assert |s[size..]| == (n - 1) * size;
      ChunkedExact(s[size..], size, n - 1);
      var r := Chunked(s, size);
      assert r[1..] == Chunked(s[size..], size);
    }
  }

  // ---------------------------------------------------------------------------
  // Distinct sequences and counting
  // ---------------------------------------------------------------------------

  lemma {:induction false} DistinctCountOne(s: seq<Card>, x: Card)
    requires Distinct(s)
    ensures multiset(s)[x] <= 1
  {
    if s != [] {
      assert s == [s[0]] + s[1..];
      assert Distinct(s[1..]) by {
        forall i, j | 0 <= i < j < |s| - 1 ensures s[1..][i] != s[1..][j] {
          assert s[1..][i] == s[i + 1] && s[1..][j] == s[j + 1];
        }
      }
      DistinctCountOne(s[1..], x);
      if x == s[0] {
        assert x !in s[1..] by {
          forall k | 0 <= k < |s| - 1 ensures s[1..][k] != x {
            assert s[1..][k] == s[k + 1];
          }
        }
      }
    }
  }

  /** A permutation of a duplicate-free sequence is duplicate-free. */
  lemma DistinctPermutation(a: seq<Card>, b: seq<Card>)
    requires multiset(a) == multiset(b) && Distinct(a)
    ensures Distinct(b)
  {
    forall i, j | 0 <= i < j < |b| ensures b[i] != b[j] {
      if b[i] == b[j] {
        TwiceCountTwo(b, i, j);
        DistinctCountOne(a, b[i]);
      }
    }
  }

  lemma {:induction false} DistinctSize(s: seq<Card>)
    requires Distinct(s)
    ensures |SetOf(s)| == |s|
  {
    if s != [] {
      assert Distinct(s[1..]) by {
        forall i, j | 0 <= i < j < |s| - 1 ensures s[1..][i] != s[1..][j] {
          assert s[1..][i] == s[i + 1] && s[1..][j] == s[j + 1];
        }
      }
      DistinctSize(s[1..]);
      assert s[0] !in s[1..] by {
        forall k | 0 <= k < |s| - 1 ensures s[1..][k] != s[0] {
          assert s[1..][k] == s[k + 1];
        }
      }
      assert SetOf(s) == SetOf(s[1..]) + {s[0]};
    }
  }

  lemma {:induction false} SetOfSize(s: seq<Card>)
    ensures |SetOf(s)| <= |s|
  {
    if s != [] {
      SetOfSize(s[1..]);
      assert SetOf(s) == SetOf(s[1..]) + {s[0]};
    }
  }

  lemma {:induction false} WithoutIdsDistinct(s: seq<Card>, ids: set<string>)
    requires Distinct(s)
    ensures Distinct(WithoutIds(s, ids))
  {
    if s != [] {
      assert Distinct(s[1..]) by {
        forall i, j | 0 <= i < j < |s| - 1 ensures s[1..][i] != s[1..][j] {
          assert s[1..][i] == s[i + 1] && s[1..][j] == s[j + 1];
        }
      }
      WithoutIdsDistinct(s[1..], ids);
      assert s[0] !in s[1..] by {
        forall k | 0 <= k < |s| - 1 ensures s[1..][k] != s[0] {
          assert s[1..][k] == s[k + 1];
        }
      }
    }
  }

  /** Removing by ids drops exactly the members whose id is listed. */
  lemma {:induction false} WithoutIdsCount(s: seq<Card>, ids: set<string>)
    requires Distinct(s)
    ensures |WithoutIds(s, ids)| + |set c | c in s && c.id in ids| == |s|
  {
    if s != [] {
      assert Distinct(s[1..]) by {
        forall i, j | 0 <= i < j < |s| - 1 ensures s[1..][i] != s[1..][j] {
          assert s[1..][i] == s[i + 1] && s[1..][j] == s[j + 1];
        }
      }
      WithoutIdsCount(s[1..], ids);
      assert s[0] !in s[1..] by {
        forall k | 0 <= k < |s| - 1 ensures s[1..][k] != s[0] {
          assert s[1..][k] == s[k + 1];
        }
      }
      var here := set c | c in s && c.id in ids;
      var there := set c | c in s[1..] && c.id in ids;
      if s[0].id in ids {
        assert here == there + {s[0]};
      } else {
        assert here == there;
      }
    }
  }

  lemma {:induction false} WithoutIdsTwice(s: seq<Card>, a: set<string>, b: set<string>)
    ensures WithoutIds(WithoutIds(s, a), b) == WithoutIds(s, a + b)
  {
    if s != [] {
      WithoutIdsTwice(s[1..], a, b);
    }
  }

  // ---------------------------------------------------------------------------
  // Ordering by id
  // ---------------------------------------------------------------------------

  /**
   * The order of `sortedBy { it.id }`: lexicographic by character, a prefix
   * first (`String.compareTo`, for ids inside the Basic Multilingual Plane).
   */
  predicate IdLe(a: string, b: string)
  {
    if |a| == 0 then true
    else if |b| == 0 then false
    else if a[0] != b[0] then a[0] < b[0]
    else IdLe(a[1..], b[1..])
  }

  lemma {:induction false} IdLeTotal(a: string, b: string)
    ensures IdLe(a, b) || IdLe(b, a)
  {
    if |a| > 0 && |b| > 0 && a[0] == b[0] {
      IdLeTotal(a[1..], b[1..]);
    }
  }

  predicate SortedById(s: seq<Card>)
  {
    forall i :: 0 <= i < |s| - 1 ==> IdLe(s[i].id, s[i + 1].id)
  }

  /** Inserts before the first card whose id is not smaller, which keeps equal ids in input order. */
  function InsertById(x: Card, s: seq<Card>): (r: seq<Card>)
    ensures multiset(r) == multiset(s) + multiset{x}
    ensures |r| > 0 && (r[0] == x || (|s| > 0 && r[0] == s[0]))
  {
    if s == [] then [x]
    else if IdLe(x.id, s[0].id) then [x] + s
    else
      assert s == [s[0]] + s[1..];
      [s[0]] + InsertById(x, s[1..])
  }

  /** `sortedBy { it.id }`: a stable sort by id. */
  function SortById(s: seq<Card>): (r: seq<Card>)
    ensures multiset(r) == multiset(s)
  {
    if s == [] then []
    else
      assert s == [s[0]] + s[1..];
      InsertById(s[0], SortById(s[1..]))
  }

  lemma {:induction false} InsertByIdSorted(x: Card, s: seq<Card>)
    requires SortedById(s)
    ensures SortedById(InsertById(x, s))
  {
    if s != [] && !IdLe(x.id, s[0].id) {
      assert SortedById(s[1..]) by {
        forall i | 0 <= i < |s| - 2 ensures IdLe(s[1..][i].id, s[1..][i + 1].id) {
          assert s[1..][i] == s[i + 1] && s[1..][i + 1] == s[i + 2];
        }
      }
      InsertByIdSorted(x, s[1..]);
      IdLeTotal(x.id, s[0].id);
      var t := InsertById(x, s[1..]);
      assert IdLe(s[0].id, t[0].id);
      assert InsertById(x, s) == [s[0]] + t;
    }
  }

  /** With `shuffled = false` the deck is ascending by id. */
  lemma {:induction false} SortByIdSorted(s: seq<Card>)
    ensures SortedById(SortById(s))
    ensures multiset(SortById(s)) == multiset(s)
  {
    if s != [] {
      SortByIdSorted(s[1..]);
      InsertByIdSorted(s[0], SortById(s[1..]));
    }
  }

  // ---------------------------------------------------------------------------
  // generateDefaultSet
  // ---------------------------------------------------------------------------

  /** The deck: the caller's permutation when shuffled, otherwise the cards sorted by id. */
  function Deck(clCards: seq<Card>, shuffled: bool, permutation: seq<Card>): seq<Card>
  {
    if shuffled then permutation else SortById(clCards)
  }

  /** The hand of chunk `idx` belongs to a player at position `idx`, named after `players[idx]`; the first is the viewpoint. */
  function HandOwner(players: seq<Player>, idx: nat): Player
    requires idx < |players|
  {
    Player(idx, players[idx].name, idx == 0)
  }

  function HandMap(players: seq<Player>, hands: seq<seq<Card>>): (r: map<Player, set<Card>>)
    requires |hands| <= |players|
    ensures forall idx :: 0 <= idx < |hands| ==> HandOwner(players, idx) in r
    ensures forall idx :: 0 <= idx < |hands| ==> r[HandOwner(players, idx)] == SetOf(hands[idx])
    ensures forall p :: p in r ==> 0 <= p.position < |hands| && p == HandOwner(players, p.position)
  {
    map idx | 0 <= idx < |hands| :: HandOwner(players, idx) := SetOf(hands[idx])
  }

  /** The three solution draws, one per type, in the order subject, tool, room. */
  function Solution(cards: seq<Card>, picks: Picks): Result<set<Card>, DataSetError>
  {
    var subject := PickOfKind(cards, Subject, picks.subject);
    var tool := PickOfKind(cards, Tool, picks.tool);
    var room := PickOfKind(cards, Room, picks.room);
    if subject.None? then Failure(NoCardOfKind(Subject))
    else if tool.None? then Failure(NoCardOfKind(Tool))
    else if room.None? then Failure(NoCardOfKind(Room))
    else Success({subject.value, tool.value, room.value})
  }

  function LeftOverCount(cardCount: int, playerCount: int): int
    requires playerCount > 0
  {
    (cardCount - 3) % playerCount
  }

  function LeftOvers(cards: seq<Card>, solutionCards: set<Card>, count: nat): set<Card>
  {
    SetOf(Take(WithoutIds(cards, IdsOf(solutionCards)), count))
  }

  function PlayerCardCount(cardCount: int, leftOverCount: int, playerCount: int): int
    requires playerCount > 0
  {
    (cardCount - 3 - leftOverCount) / playerCount
  }

  /** The cards dealt to the players, in deck order. */
  function Dealt(cards: seq<Card>, solutionCards: set<Card>, leftOverCards: set<Card>): seq<Card>
  {
    WithoutIds(cards, IdsOf(solutionCards + leftOverCards))
  }

  /**
   * `generateDefaultSet`: draws the solution, takes the leftovers from the
   * front of the remaining deck and deals the rest in consecutive chunks.
   * A Kotlin set holds no duplicates, hence the requirement on `clCards`.
   */
  function GenerateDefaultSet(clCards: seq<Card>, players: seq<Player>, shuffled: bool, permutation: seq<Card>,
                              picks: Picks): Result<DataSet, DataSetError>
    requires Distinct(clCards)
    requires shuffled ==> multiset(permutation) == multiset(clCards)
  {
    var cards := Deck(clCards, shuffled, permutation);
    match Solution(cards, picks)
    case Failure(e) => Failure(e)
    case Success(solutionCards) =>
      DeckFacts(clCards, shuffled, permutation, picks);
      Deal(cards, solutionCards, players)
  }

  /** The part of `generateDefaultSet` after the solution is drawn. */
  function Deal(cards: seq<Card>, solutionCards: set<Card>, players: seq<Player>): Result<DataSet, DataSetError>
    requires Distinct(cards)
    requires |solutionCards| == 3 && solutionCards <= SetOf(cards) && |cards| >= 3
  {
    if |players| == 0 then Failure(NoPlayers)
    else
      HandArithmetic(|cards|, |players|);
      var leftOverCount := LeftOverCount(|cards|, |players|);
      var leftOverCards := LeftOvers(cards, solutionCards, leftOverCount);
      var playerCardCount := PlayerCardCount(|cards|, leftOverCount, |players|);
      if playerCardCount == 0 then Failure(EmptyHands)
      else
        var hands := Chunked(Dealt(cards, solutionCards, leftOverCards), playerCardCount);
        HandsFit(cards, solutionCards, |players|);
        Success(DataSet(players, SetOf(cards), solutionCards, leftOverCards, HandMap(players, hands)))
  }

  /** The deck is duplicate-free, and with a solution drawn it holds at least the three solution cards. */
  lemma DeckFacts(clCards: seq<Card>, shuffled: bool, permutation: seq<Card>, picks: Picks)
    requires Distinct(clCards)
    requires shuffled ==> multiset(permutation) == multiset(clCards)
    ensures var cards := Deck(clCards, shuffled, permutation);
      && Distinct(cards)
      && multiset(cards) == multiset(clCards)
      && (Solution(cards, picks).Success? ==>
            var sol := Solution(cards, picks).value;
            |sol| == 3 && sol <= SetOf(cards) && |cards| >= 3)
  {
    var cards := Deck(clCards, shuffled, permutation);
    DistinctPermutation(clCards, cards);
    if Solution(cards, picks).Success? {
      var sol := Solution(cards, picks).value;
      SolutionShape(cards, picks);
      SetOfSize(cards);
      assert sol <= SetOf(cards);
      SubsetSize(sol, SetOf(cards));
    }
  }

  lemma SubsetSize(a: set<Card>, b: set<Card>)
    requires a <= b
    ensures |a| <= |b|
  {
    assert b == a + (b - a);
  }

  /** The solution holds exactly one card of each type, all of them from the deck. */
  lemma SolutionShape(cards: seq<Card>, picks: Picks)
    requires Solution(cards, picks).Success?
    ensures var sol := Solution(cards, picks).value;
      && |sol| == 3
      && (forall c :: c in sol ==> c in cards)
      && (exists c :: c in sol && c.kind == Subject)
      && (exists c :: c in sol && c.kind == Tool)
      && (exists c :: c in sol && c.kind == Room)
      && (forall c, d :: c in sol && d in sol && c.kind == d.kind ==> c == d)
  {
    var sol := Solution(cards, picks).value;
    var s, t, r := PickOfKind(cards, Subject, picks.subject).value, PickOfKind(cards, Tool, picks.tool).value,
                   PickOfKind(cards, Room, picks.room).value;
    assert sol == {s, t, r};
  }

  /** The dealt cards fit into one chunk per player: `players[idx]` is never out of range. */
  lemma HandsFit(cards: seq<Card>, solutionCards: set<Card>, playerCount: nat)
    requires Distinct(cards) && playerCount > 0
    requires |solutionCards| == 3 && solutionCards <= SetOf(cards) && |cards| >= 3
    requires PlayerCardCount(|cards|, LeftOverCount(|cards|, playerCount), playerCount) > 0
    ensures var count := LeftOverCount(|cards|, playerCount);
      var size := PlayerCardCount(|cards|, count, playerCount);
      |Chunked(Dealt(cards, solutionCards, LeftOvers(cards, solutionCards, count)), size)| <= playerCount
  {
    var count := LeftOverCount(|cards|, playerCount);
    var size := PlayerCardCount(|cards|, count, playerCount);
    var dealt := Dealt(cards, solutionCards, LeftOvers(cards, solutionCards, count));
    assert |cards| - 3 - count == playerCount * size && count <= |cards| - 3 by {
      HandArithmetic(|cards|, playerCount);
    }
    assert |dealt| <= playerCount * size by {
      DealtSize(cards, solutionCards, count);
    }
    ChunkedCountBound(dealt, size, playerCount);
  }

  /** The leftover count and the hand size split the non-solution cards exactly. */
  lemma HandArithmetic(cardCount: int, playerCount: int)
    requires cardCount >= 3 && playerCount > 0
    ensures var count := LeftOverCount(cardCount, playerCount);
      && 0 <= count <= cardCount - 3
      && cardCount - 3 - count == playerCount * PlayerCardCount(cardCount, count, playerCount)
      && PlayerCardCount(cardCount, count, playerCount) == (cardCount - 3) / playerCount >= 0
  {
    var a := cardCount - 3;
    var count := a % playerCount;
    assert LeftOverCount(cardCount, playerCount) == count;
    var q := a / playerCount;
    assert a - count == playerCount * q;
    DivExact(q, playerCount);
    assert PlayerCardCount(cardCount, count, playerCount) == (playerCount * q) / playerCount;
  }

  lemma {:induction false} MulAtLeast(b: int, k: int)
    requires b > 0 && k >= 1
    ensures b * k >= b
  {
    if k > 1 {
      MulAtLeast(b, k - 1);
      assert b * k == b * (k - 1) + b;
    }
  }

  lemma DivExact(q: int, b: int)
    requires q >= 0 && b > 0
    ensures (b * q) / b == q
  {
    var x := (b * q) / b;
    var y := (b * q) % b;
    assert b * q == b * x + y && 0 <= y < b;
    if x < q {
      assert b * (q - x) == b * q - b * x;
      MulAtLeast(b, q - x);
    } else if x > q {
      assert b * (x - q) == b * x - b * q;
      MulAtLeast(b, x - q);
    }
  }

  /** Removing the three solution cards by id leaves at most `|cards| - 3` cards, all distinct. */
  lemma RestSize(cards: seq<Card>, solutionCards: set<Card>)
    requires Distinct(cards)
    requires |solutionCards| == 3 && solutionCards <= SetOf(cards)
    ensures |WithoutIds(cards, IdsOf(solutionCards))| <= |cards| - 3
    ensures Distinct(WithoutIds(cards, IdsOf(solutionCards)))
  {
    var solIds := IdsOf(solutionCards);
    WithoutIdsCount(cards, solIds);
    assert solutionCards <= set c | c in cards && c.id in solIds;
    SubsetSize(solutionCards, set c | c in cards && c.id in solIds);
    WithoutIdsDistinct(cards, solIds);
  }

  /** The cards `take(count)` picks are `min(count, |rest|)` distinct cards. */
  lemma TakenSize(rest: seq<Card>, count: nat)
    requires Distinct(rest)
    ensures |SetOf(Take(rest, count))| == if count <= |rest| then count else |rest|
  {
    var taken := Take(rest, count);
    assert Distinct(taken) by {
      forall i, j | 0 <= i < j < |taken| ensures taken[i] != taken[j] {
        assert taken[i] == rest[i] && taken[j] == rest[j];
      }
    }
    DistinctSize(taken);
  }

  /** Removing the leftovers' ids from the rest drops at least the leftovers. */
  lemma DealtFromRest(rest: seq<Card>, left: set<Card>)
    requires Distinct(rest) && left <= SetOf(rest)
    ensures |WithoutIds(rest, IdsOf(left))| <= |rest| - |left|
  {
    WithoutIdsCount(rest, IdsOf(left));
    assert left <= set c | c in rest && c.id in IdsOf(left);
    SubsetSize(left, set c | c in rest && c.id in IdsOf(left));
  }

  /** Dealing skips the solution ids, then the leftover ids. */
  lemma DealtInTwoSteps(cards: seq<Card>, solutionCards: set<Card>, count: nat)
    ensures var rest := WithoutIds(cards, IdsOf(solutionCards));
      Dealt(cards, solutionCards, LeftOvers(cards, solutionCards, count))
        == WithoutIds(rest, IdsOf(SetOf(Take(rest, count))))
  {
    var solIds := IdsOf(solutionCards);
    var left := LeftOvers(cards, solutionCards, count);
    WithoutIdsTwice(cards, solIds, IdsOf(left));
    assert IdsOf(solutionCards + left) == solIds + IdsOf(left);
  }

  /** After the leftovers are taken from the front, at most `|rest| - count` cards remain. */
  lemma AfterLeftOvers(rest: seq<Card>, count: nat)
    requires Distinct(rest)
    ensures var dealt := WithoutIds(rest, IdsOf(SetOf(Take(rest, count))));
      |dealt| <= |rest| - count || |dealt| == 0
  {
    var left := SetOf(Take(rest, count));
    TakenSize(rest, count);
    DealtFromRest(rest, left);
  }

  /** At most the cards that are neither solution nor leftover are dealt. */
  lemma DealtSize(cards: seq<Card>, solutionCards: set<Card>, count: nat)
    requires Distinct(cards)
    requires |solutionCards| == 3 && solutionCards <= SetOf(cards)
    ensures var dealt := Dealt(cards, solutionCards, LeftOvers(cards, solutionCards, count));
      |dealt| <= |cards| - 3 - count || |dealt| == 0
  {
    RestSize(cards, solutionCards);
    AfterLeftOvers(WithoutIds(cards, IdsOf(solutionCards)), count);
    DealtInTwoSteps(cards, solutionCards, count);
  }

  // ---------------------------------------------------------------------------
  // The partition a generated data set makes
  // ---------------------------------------------------------------------------

  lemma DistinctIdsDistinct(s: seq<Card>)
    requires DistinctIds(s)
    ensures Distinct(s)
  {
  }

  lemma DistinctIdsPermutation(a: seq<Card>, b: seq<Card>)
    requires multiset(a) == multiset(b) && DistinctIds(a)
    ensures DistinctIds(b)
  {
    forall i, j | 0 <= i < j < |b| ensures b[i].id != b[j].id {
      if b[i] == b[j] {
        TwiceCountTwo(b, i, j);
        DistinctCountOne(a, b[i]);
      } else {
        assert b[i] in multiset(a) && b[j] in multiset(a);
        var i' :| 0 <= i' < |a| && a[i'] == b[i];
        var j' :| 0 <= j' < |a| && a[j'] == b[j];
        assert i' != j';
        if i' < j' {
          assert a[i'].id != a[j'].id;
        } else {
          assert a[j'].id != a[i'].id;
        }
      }
    }
  }

  /** With distinct ids, removing the ids of some of the members removes exactly those members. */
  lemma IdsSelectMembers(s: seq<Card>, t: set<Card>)
    requires DistinctIds(s) && t <= SetOf(s)
    ensures (set c | c in s && c.id in IdsOf(t)) == t
    ensures forall c :: c in WithoutIds(s, IdsOf(t)) <==> c in s && c !in t
  {
    forall c | c in s && c.id in IdsOf(t) ensures c in t {
      var d :| d in t && d.id == c.id;
      var i :| 0 <= i < |s| && s[i] == c;
      var j :| 0 <= j < |s| && s[j] == d;
      assert !(i < j) && !(j < i);
    }
  }

  lemma WithoutIdsKeepsDistinctIds(s: seq<Card>, ids: set<string>)
    requires DistinctIds(s)
    ensures DistinctIds(WithoutIds(s, ids))
    decreases |s|
  {
    if s != [] {
      assert DistinctIds(s[1..]) by {
        forall i, j | 0 <= i < j < |s| - 1 ensures s[1..][i].id != s[1..][j].id {
          assert s[1..][i] == s[i + 1] && s[1..][j] == s[j + 1];
        }
      }
      WithoutIdsKeepsDistinctIds(s[1..], ids);
      if s[0].id !in ids {
        var rest := WithoutIds(s[1..], ids);
        forall k | 0 <= k < |rest| ensures rest[k].id != s[0].id {
          assert rest[k] in rest;
          var m :| 0 <= m < |s| - 1 && s[1..][m] == rest[k];
          assert s[m + 1] == rest[k];
        }
        ConsDistinctIds(s[0], rest);
      }
    }
  }

  lemma ConsDistinctIds(x: Card, t: seq<Card>)
    requires DistinctIds(t)
    requires forall k :: 0 <= k < |t| ==> t[k].id != x.id
    ensures DistinctIds([x] + t)
  {
    var r := [x] + t;
    forall i, j | 0 <= i < j < |r| ensures r[i].id != r[j].id {
      assert r[j] == t[j - 1];
      if i > 0 {
        assert r[i] == t[i - 1];
      }
    }
  }

  function Hand(ds: DataSet, p: Player): set<Card>
    requires p in ds.playerCards
  {
    ds.playerCards[p]
  }

  lemma {:induction false} FlattenMembers(ss: seq<seq<Card>>, c: Card)
    ensures c in Flatten(ss) <==> exists i :: 0 <= i < |ss| && c in ss[i]
  {
    if ss != [] {
      FlattenMembers(ss[1..], c);
      if exists i :: 0 <= i < |ss| && c in ss[i] {
        var i :| 0 <= i < |ss| && c in ss[i];
        if i > 0 {
          assert ss[1..][i - 1] == ss[i];
        }
      }
      if exists i :: 0 <= i < |ss| - 1 && c in ss[1..][i] {
        var i :| 0 <= i < |ss| - 1 && c in ss[1..][i];
        assert ss[i + 1] == ss[1..][i];
      }
    }
  }

  lemma DistinctConcat(a: seq<Card>, b: seq<Card>)
    requires Distinct(a + b)
    ensures Distinct(a) && Distinct(b) && forall c :: c in a ==> c !in b
  {
    var ab := a + b;
    forall i, j | 0 <= i < j < |a| ensures a[i] != a[j] {
      assert ab[i] == a[i] && ab[j] == a[j];
    }
    forall i, j | 0 <= i < j < |b| ensures b[i] != b[j] {
      assert ab[|a| + i] == b[i] && ab[|a| + j] == b[j];
    }
    forall c | c in a ensures c !in b {
      var i :| 0 <= i < |a| && a[i] == c;
      forall j | 0 <= j < |b| ensures b[j] != c {
        assert ab[i] == a[i] && ab[|a| + j] == b[j];
      }
    }
  }

  /** The pieces of a duplicate-free concatenation are duplicate-free and pairwise disjoint. */
  lemma {:induction false} FlattenDisjoint(ss: seq<seq<Card>>)
    requires Distinct(Flatten(ss))
    ensures forall i :: 0 <= i < |ss| ==> Distinct(ss[i])
    ensures forall i, j, c :: 0 <= i < |ss| && 0 <= j < |ss| && i != j && c in ss[i] ==> c !in ss[j]
  {
    if ss != [] {
      DistinctConcat(ss[0], Flatten(ss[1..]));
      FlattenDisjoint(ss[1..]);
      forall j, c | 0 < j < |ss| && c in ss[0] ensures c !in ss[j] {
        assert ss[j] == ss[1..][j - 1];
        FlattenMembers(ss[1..], c);
      }
      forall i | 0 < i < |ss| ensures Distinct(ss[i]) {
        assert ss[i] == ss[1..][i - 1];
      }
      forall i, j | 0 < i < |ss| && 0 < j < |ss| && i != j
        ensures forall c :: c in ss[i] ==> c !in ss[j]
      {
        assert ss[i] == ss[1..][i - 1] && ss[j] == ss[1..][j - 1];
      }
    }
  }

  /** A data set whose solution, leftovers and hands split its cards without overlap. */
  ghost predicate Partitioned(ds: DataSet)
  {
    && ds.solutionCards !! ds.leftOverCards
    && (forall p :: p in ds.playerCards ==> Hand(ds, p) !! ds.solutionCards && Hand(ds, p) !! ds.leftOverCards)
    && (forall p, q :: p in ds.playerCards && q in ds.playerCards && p != q ==> Hand(ds, p) !! Hand(ds, q))
    && (forall c :: c in ds.allCards <==>
          c in ds.solutionCards || c in ds.leftOverCards || exists p :: p in ds.playerCards && c in Hand(ds, p))
  }

  /** The non-solution cards, in deck order: all but the three solution cards. */
  lemma RestFacts(cards: seq<Card>, solutionCards: set<Card>)
    requires DistinctIds(cards)
    requires |solutionCards| == 3 && solutionCards <= SetOf(cards)
    ensures var rest := WithoutIds(cards, IdsOf(solutionCards));
      && |rest| == |cards| - 3
      && DistinctIds(rest) && Distinct(rest)
      && forall c :: c in rest <==> c in cards && c !in solutionCards
  {
    IdsSelectMembers(cards, solutionCards);
    WithoutIdsCount(cards, IdsOf(solutionCards));
    WithoutIdsKeepsDistinctIds(cards, IdsOf(solutionCards));
  }

  /** The dealt cards: all non-solution cards but the leftovers, `|rest| - count` of them. */
  lemma DealtFacts(rest: seq<Card>, count: nat)
    requires DistinctIds(rest) && count <= |rest|
    ensures var left := SetOf(Take(rest, count));
      var dealt := WithoutIds(rest, IdsOf(left));
      && |left| == count
      && |dealt| == |rest| - count
      && Distinct(dealt)
      && forall c :: c in dealt <==> c in rest && c !in left
  {
    var left := SetOf(Take(rest, count));
    TakenSize(rest, count);
    IdsSelectMembers(rest, left);
    WithoutIdsCount(rest, IdsOf(left));
    WithoutIdsKeepsDistinctIds(rest, IdsOf(left));
  }

  /** The hands: `n` disjoint chunks of `size` distinct cards that together are the dealt cards. */
  lemma HandsFacts(dealt: seq<Card>, size: nat, n: nat)
    requires Distinct(dealt) && size > 0 && |dealt| == n * size
    ensures var hands := Chunked(dealt, size);
      && |hands| == n
      && (forall i :: 0 <= i < n ==> |SetOf(hands[i])| == size)
      && (forall i, j, c :: 0 <= i < n && 0 <= j < n && i != j && c in hands[i] ==> c !in hands[j])
      && (forall c :: c in dealt <==> exists i :: 0 <= i < n && c in hands[i])
  {
    var hands := Chunked(dealt, size);
    ChunkedExact(dealt, size, n);
    FlattenDisjoint(hands);
    forall i | 0 <= i < n ensures |SetOf(hands[i])| == size {
      DistinctSize(hands[i]);
    }
    forall c ensures c in dealt <==> exists i :: 0 <= i < n && c in hands[i] {
      FlattenMembers(hands, c);
    }
  }

  /** Distinct indices give distinct hand owners. */
  lemma HandOwnersDistinct(players: seq<Player>, hands: seq<seq<Card>>, p: Player, q: Player)
    requires |hands| <= |players|
    requires p in HandMap(players, hands) && q in HandMap(players, hands) && p != q
    ensures p.position != q.position
    ensures HandMap(players, hands)[p] == SetOf(hands[p.position])
    ensures HandMap(players, hands)[q] == SetOf(hands[q.position])
  {
  }

  /** The hands a data set's map holds, by owner position. */
  predicate HandsAre(ds: DataSet, players: seq<Player>, hands: seq<seq<Card>>)
  {
    |hands| <= |players| && ds.playerCards == HandMap(players, hands)
  }

  /** Solution, leftovers and chunks that split a deck make a partitioned data set. */
  lemma PartitionFromPieces(ds: DataSet, cards: seq<Card>, dealt: seq<Card>, hands: seq<seq<Card>>)
    requires HandsAre(ds, ds.players, hands)
    requires ds.allCards == SetOf(cards)
    requires ds.solutionCards <= SetOf(cards) && ds.leftOverCards <= SetOf(cards)
    requires ds.solutionCards !! ds.leftOverCards
    requires forall c :: c in dealt <==> c in cards && c !in ds.solutionCards && c !in ds.leftOverCards
    requires forall i, j, c :: 0 <= i < |hands| && 0 <= j < |hands| && i != j && c in hands[i] ==> c !in hands[j]
    requires forall c :: c in dealt <==> exists i :: 0 <= i < |hands| && c in hands[i]
    ensures Partitioned(ds)
  {
    forall p | p in ds.playerCards
      ensures Hand(ds, p) !! ds.solutionCards && Hand(ds, p) !! ds.leftOverCards
    {
      assert Hand(ds, p) == SetOf(hands[p.position]);
    }
    forall p, q | p in ds.playerCards && q in ds.playerCards && p != q ensures Hand(ds, p) !! Hand(ds, q) {
      HandOwnersDistinct(ds.players, hands, p, q);
    }
    forall c ensures c in ds.allCards <==>
      c in ds.solutionCards || c in ds.leftOverCards || exists p :: p in ds.playerCards && c in Hand(ds, p)
    {
      if c in dealt {
        var i :| 0 <= i < |hands| && c in hands[i];
        assert c in Hand(ds, HandOwner(ds.players, i));
      }
      if exists p :: p in ds.playerCards && c in Hand(ds, p) {
        var p :| p in ds.playerCards && c in Hand(ds, p);
        assert c in hands[p.position];
      }
    }
  }

  /** The data set `Deal` builds, in the terms `PartitionFromPieces` takes. */
  lemma DealShape(cards: seq<Card>, solutionCards: set<Card>, players: seq<Player>)
    requires DistinctIds(cards)
    requires |solutionCards| == 3 && solutionCards <= SetOf(cards) && |cards| >= 3
    requires Deal(cards, solutionCards, players).Success?
    ensures var ds := Deal(cards, solutionCards, players).value;
      var n := |players|;
      var count := LeftOverCount(|cards|, n);
      var size := PlayerCardCount(|cards|, count, n);
      var rest := WithoutIds(cards, IdsOf(solutionCards));
      var dealt := WithoutIds(rest, IdsOf(SetOf(Take(rest, count))));
      && ds.allCards == SetOf(cards) && ds.solutionCards == solutionCards && ds.players == players
      && ds.leftOverCards == SetOf(Take(rest, count))
      && size > 0 && HandsAre(ds, players, Chunked(dealt, size))
  {
    var n := |players|;
    HandArithmetic(|cards|, n);
    var count := LeftOverCount(|cards|, n);
    var size := PlayerCardCount(|cards|, count, n);
    DealtInTwoSteps(cards, solutionCards, count);
    var left := LeftOvers(cards, solutionCards, count);
    var dealt := Dealt(cards, solutionCards, left);
    HandsFit(cards, solutionCards, n);
    var hands := Chunked(dealt, size);
    assert Deal(cards, solutionCards, players)
      == Success(DataSet(players, SetOf(cards), solutionCards, left, HandMap(players, hands)));
  }

  /** How many cards are left over and how many are dealt. */
  lemma DealSizes(cards: seq<Card>, solutionCards: set<Card>, count: nat)
    requires DistinctIds(cards)
    requires |solutionCards| == 3 && solutionCards <= SetOf(cards) && count <= |cards| - 3
    ensures var rest := WithoutIds(cards, IdsOf(solutionCards));
      var left := SetOf(Take(rest, count));
      && |left| == count
      && |WithoutIds(rest, IdsOf(left))| == |cards| - 3 - count
  {
    var rest := WithoutIds(cards, IdsOf(solutionCards));
    RestFacts(cards, solutionCards);
    DealtFacts(rest, count);
  }

  /** Which cards are left over and which are dealt. */
  lemma DealMembers(cards: seq<Card>, solutionCards: set<Card>, count: nat)
    requires DistinctIds(cards)
    requires |solutionCards| == 3 && solutionCards <= SetOf(cards) && count <= |cards| - 3
    ensures var rest := WithoutIds(cards, IdsOf(solutionCards));
      var left := SetOf(Take(rest, count));
      var dealt := WithoutIds(rest, IdsOf(left));
      && left <= SetOf(cards) && solutionCards !! left
      && (forall c :: c in dealt <==> c in cards && c !in solutionCards && c !in left)
      && Distinct(dealt)
  {
    var rest := WithoutIds(cards, IdsOf(solutionCards));
    RestFacts(cards, solutionCards);
    DealtFacts(rest, count);
  }

  /**
   * With distinct card ids, a generated data set splits its deck into the
   * solution, `(|cards| - 3) % |players|` leftovers and one hand of
   * `(|cards| - 3) / |players|` cards per player, all pairwise disjoint.
   */
  lemma DealPartition(cards: seq<Card>, solutionCards: set<Card>, players: seq<Player>)
    requires DistinctIds(cards)
    requires |solutionCards| == 3 && solutionCards <= SetOf(cards) && |cards| >= 3
    requires Deal(cards, solutionCards, players).Success?
    ensures var ds := Deal(cards, solutionCards, players).value;
      && ds.allCards == SetOf(cards) && ds.solutionCards == solutionCards && ds.players == players
      && |ds.leftOverCards| == LeftOverCount(|cards|, |players|)
      && (forall idx :: 0 <= idx < |players| ==> HandOwner(players, idx) in ds.playerCards)
      && (forall p :: p in ds.playerCards ==>
            |Hand(ds, p)| == PlayerCardCount(|cards|, LeftOverCount(|cards|, |players|), |players|))
      && Partitioned(ds)
  {
    DealShape(cards, solutionCards, players);
    ShapePartition(Deal(cards, solutionCards, players).value, cards, solutionCards, players);
  }

  /** `DealPartition` for a data set of the shape `DealShape` describes. */
  lemma ShapePartition(ds: DataSet, cards: seq<Card>, solutionCards: set<Card>, players: seq<Player>)
    requires DistinctIds(cards) && |players| > 0
    requires |solutionCards| == 3 && solutionCards <= SetOf(cards) && |cards| >= 3
    requires var n := |players|;
      var count := LeftOverCount(|cards|, n);
      var size := PlayerCardCount(|cards|, count, n);
      var rest := WithoutIds(cards, IdsOf(solutionCards));
      var dealt := WithoutIds(rest, IdsOf(SetOf(Take(rest, count))));
      && ds.allCards == SetOf(cards) && ds.solutionCards == solutionCards && ds.players == players
      && ds.leftOverCards == SetOf(Take(rest, count))
      && size > 0 && HandsAre(ds, players, Chunked(dealt, size))
    ensures && |ds.leftOverCards| == LeftOverCount(|cards|, |players|)
      && (forall idx :: 0 <= idx < |players| ==> HandOwner(players, idx) in ds.playerCards)
      && (forall p :: p in ds.playerCards ==>
            |Hand(ds, p)| == PlayerCardCount(|cards|, LeftOverCount(|cards|, |players|), |players|))
      && Partitioned(ds)
  {
    ShapeSizes(ds, cards, solutionCards, players);
    ShapePartitioned(ds, cards, solutionCards, players);
  }

  lemma ShapeSizes(ds: DataSet, cards: seq<Card>, solutionCards: set<Card>, players: seq<Player>)
    requires DistinctIds(cards) && |players| > 0
    requires |solutionCards| == 3 && solutionCards <= SetOf(cards) && |cards| >= 3
    requires var n := |players|;
      var count := LeftOverCount(|cards|, n);
      var size := PlayerCardCount(|cards|, count, n);
      var rest := WithoutIds(cards, IdsOf(solutionCards));
      var dealt := WithoutIds(rest, IdsOf(SetOf(Take(rest, count))));
      && ds.allCards == SetOf(cards) && ds.solutionCards == solutionCards && ds.players == players
      && ds.leftOverCards == SetOf(Take(rest, count))
      && size > 0 && HandsAre(ds, players, Chunked(dealt, size))
    ensures && |ds.leftOverCards| == LeftOverCount(|cards|, |players|)
      && (forall idx :: 0 <= idx < |players| ==> HandOwner(players, idx) in ds.playerCards)
      && (forall p :: p in ds.playerCards ==>
            |Hand(ds, p)| == PlayerCardCount(|cards|, LeftOverCount(|cards|, |players|), |players|))
  {
    var n := |players|;
    var count := LeftOverCount(|cards|, n);
    var size := PlayerCardCount(|cards|, count, n);
    var rest := WithoutIds(cards, IdsOf(solutionCards));
    var dealt := WithoutIds(rest, IdsOf(SetOf(Take(rest, count))));
    assert count <= |cards| - 3 && |cards| - 3 - count == n * size by {
      HandArithmetic(|cards|, n);
    }
    DealSizes(cards, solutionCards, count);
    DealtDistinct(cards, solutionCards, count);
    var hands := Chunked(dealt, size);
    HandsFacts(dealt, size, n);
    forall p | p in ds.playerCards ensures |Hand(ds, p)| == size {
      assert Hand(ds, p) == SetOf(hands[p.position]);
    }
  }

  lemma ShapePartitioned(ds: DataSet, cards: seq<Card>, solutionCards: set<Card>, players: seq<Player>)
    requires DistinctIds(cards) && |players| > 0
    requires |solutionCards| == 3 && solutionCards <= SetOf(cards) && |cards| >= 3
    requires var n := |players|;
      var count := LeftOverCount(|cards|, n);
      var size := PlayerCardCount(|cards|, count, n);
      var rest := WithoutIds(cards, IdsOf(solutionCards));
      var dealt := WithoutIds(rest, IdsOf(SetOf(Take(rest, count))));
      && ds.allCards == SetOf(cards) && ds.solutionCards == solutionCards && ds.players == players
      && ds.leftOverCards == SetOf(Take(rest, count))
      && size > 0 && HandsAre(ds, players, Chunked(dealt, size))
    ensures Partitioned(ds)
  {
    var n := |players|;
    var count := LeftOverCount(|cards|, n);
    var size := PlayerCardCount(|cards|, count, n);
    var rest := WithoutIds(cards, IdsOf(solutionCards));
    var dealt := WithoutIds(rest, IdsOf(SetOf(Take(rest, count))));
    assert count <= |cards| - 3 && |cards| - 3 - count == n * size by {
      HandArithmetic(|cards|, n);
    }
    DealSizes(cards, solutionCards, count);
    DealMembers(cards, solutionCards, count);
    ChunksPartition(ds, cards, dealt, size);
  }

  /** Chunks of equal size of the cards outside solution and leftovers make a partitioned data set. */
  lemma ChunksPartition(ds: DataSet, cards: seq<Card>, dealt: seq<Card>, size: nat)
    requires size > 0 && HandsAre(ds, ds.players, Chunked(dealt, size))
    requires Distinct(dealt) && |dealt| == |ds.players| * size
    requires ds.allCards == SetOf(cards)
    requires ds.solutionCards <= SetOf(cards) && ds.leftOverCards <= SetOf(cards)
    requires ds.solutionCards !! ds.leftOverCards
    requires forall c :: c in dealt <==> c in cards && c !in ds.solutionCards && c !in ds.leftOverCards
    ensures Partitioned(ds)
  {
    HandsFacts(dealt, size, |ds.players|);
    PartitionFromPieces(ds, cards, dealt, Chunked(dealt, size));
  }

  lemma DealtDistinct(cards: seq<Card>, solutionCards: set<Card>, count: nat)
    requires DistinctIds(cards)
    requires |solutionCards| == 3 && solutionCards <= SetOf(cards) && count <= |cards| - 3
    ensures var rest := WithoutIds(cards, IdsOf(solutionCards));
      Distinct(WithoutIds(rest, IdsOf(SetOf(Take(rest, count)))))
  {
    DealMembers(cards, solutionCards, count);
  }

  // ---------------------------------------------------------------------------
  // What generateDefaultSet promises
  // ---------------------------------------------------------------------------

  predicate HasKind(s: seq<Card>, k: CardType)
  {
    exists c :: c in s && c.kind == k
  }

  predicate AllKinds(s: seq<Card>)
  {
    HasKind(s, Subject) && HasKind(s, Tool) && HasKind(s, Room)
  }

  /**
   * A data set generated from `clCards` for `players`: one solution card per
   * type, `(|clCards| - 3) % |players|` leftovers, and one hand of
   * `(|clCards| - 3) / |players|` cards for the player at each position, the
   * first of them the viewpoint, all pairwise disjoint and covering the deck.
   */
  ghost predicate Generated(ds: DataSet, clCards: seq<Card>, players: seq<Player>)
  {
    && |players| > 0 && |clCards| >= 3
    && ds.players == players && ds.allCards == SetOf(clCards)
    && |ds.solutionCards| == 3 && ds.solutionCards <= ds.allCards
    && (exists c :: c in ds.solutionCards && c.kind == Subject)
    && (exists c :: c in ds.solutionCards && c.kind == Tool)
    && (exists c :: c in ds.solutionCards && c.kind == Room)
    && (forall c, d :: c in ds.solutionCards && d in ds.solutionCards && c.kind == d.kind ==> c == d)
    && |ds.leftOverCards| == LeftOverCount(|clCards|, |players|)
    && (forall idx :: 0 <= idx < |players| ==> HandOwner(players, idx) in ds.playerCards)
    && (forall p :: p in ds.playerCards ==> 0 <= p.position < |players| && p == HandOwner(players, p.position))
    && (forall p :: p in ds.playerCards ==>
          |Hand(ds, p)| == PlayerCardCount(|clCards|, LeftOverCount(|clCards|, |players|), |players|))
    && Partitioned(ds)
  }

  lemma QuotientZero(a: int, n: int)
    requires a >= 0 && n > 0
    ensures a / n == 0 <==> a < n
  {
    if a / n == 0 {
      assert a == n * (a / n) + a % n;
    }
  }

  /** The hands are empty exactly when there are fewer non-solution cards than players. */
  lemma EmptyHandsIff(cardCount: int, playerCount: int)
    requires cardCount >= 3 && playerCount > 0
    ensures (PlayerCardCount(cardCount, LeftOverCount(cardCount, playerCount), playerCount) == 0)
        == (cardCount - 3 < playerCount)
  {
    HandArithmetic(cardCount, playerCount);
    QuotientZero(cardCount - 3, playerCount);
  }

  /**
   * `generateDefaultSet` fails exactly when a card type is missing (the first
   * missing one in the order subject, tool, room), when there are no players,
   * or when there are too few cards to give every player one; otherwise it
   * deals a data set of the shape `Generated` describes.
   */
  lemma GenerateDefaultSetOutcome(clCards: seq<Card>, players: seq<Player>, shuffled: bool,
                                  permutation: seq<Card>, picks: Picks)
    requires DistinctIds(clCards)
    requires shuffled ==> multiset(permutation) == multiset(clCards)
    ensures var r := GenerateDefaultSet(clCards, players, shuffled, permutation, picks);
      && (r == Failure(NoCardOfKind(Subject)) <==> !HasKind(clCards, Subject))
      && (r == Failure(NoCardOfKind(Tool)) <==> HasKind(clCards, Subject) && !HasKind(clCards, Tool))
      && (r == Failure(NoCardOfKind(Room)) <==>
            HasKind(clCards, Subject) && HasKind(clCards, Tool) && !HasKind(clCards, Room))
      && (r == Failure(NoPlayers) <==> AllKinds(clCards) && |players| == 0)
      && (r == Failure(EmptyHands) <==> AllKinds(clCards) && 0 < |players| && |clCards| - 3 < |players|)
      && (r.Success? <==> AllKinds(clCards) && 0 < |players| <= |clCards| - 3)
      && (r.Success? ==> Generated(r.value, clCards, players))
  {
    var cards := Deck(clCards, shuffled, permutation);
    DeckCards(clCards, shuffled, permutation);
    SolutionOutcome(cards, picks);
    match Solution(cards, picks)
    case Failure(e) =>
    case Success(sol) =>
      DeckFacts(clCards, shuffled, permutation, picks);
      DealOutcome(cards, sol, players);
      if Deal(cards, sol, players).Success? {
        DealGenerated(cards, picks, clCards, players);
      }
  }

  /** The solution draw fails on the first missing card type, in the order subject, tool, room. */
  lemma SolutionOutcome(cards: seq<Card>, picks: Picks)
    ensures var r := Solution(cards, picks);
      && (r == Failure(NoCardOfKind(Subject)) <==> !HasKind(cards, Subject))
      && (r == Failure(NoCardOfKind(Tool)) <==> HasKind(cards, Subject) && !HasKind(cards, Tool))
      && (r == Failure(NoCardOfKind(Room)) <==>
            HasKind(cards, Subject) && HasKind(cards, Tool) && !HasKind(cards, Room))
      && (r.Success? <==> AllKinds(cards))
  {
    if Solution(cards, picks).Success? {
      SolutionShape(cards, picks);
    }
  }

  /** Dealing fails without players, and with fewer non-solution cards than players. */
  lemma DealOutcome(cards: seq<Card>, solutionCards: set<Card>, players: seq<Player>)
    requires Distinct(cards)
    requires |solutionCards| == 3 && solutionCards <= SetOf(cards) && |cards| >= 3
    ensures var r := Deal(cards, solutionCards, players);
      && (r == Failure(NoPlayers) <==> |players| == 0)
      && (r == Failure(EmptyHands) <==> 0 < |players| && |cards| - 3 < |players|)
      && (r.Success? <==> 0 < |players| <= |cards| - 3)
  {
    if |players| > 0 {
      EmptyHandsIff(|cards|, |players|);
    }
  }

  /** The deck holds the cards of `clCards`, each once. */
  lemma DeckCards(clCards: seq<Card>, shuffled: bool, permutation: seq<Card>)
    requires DistinctIds(clCards)
    requires shuffled ==> multiset(permutation) == multiset(clCards)
    ensures var cards := Deck(clCards, shuffled, permutation);
      && DistinctIds(cards) && |cards| == |clCards| && SetOf(cards) == SetOf(clCards)
      && (forall c :: c in cards <==> c in clCards)
      && (forall k :: HasKind(cards, k) <==> HasKind(clCards, k))
  {
    var cards := Deck(clCards, shuffled, permutation);
    assert multiset(cards) == multiset(clCards);
    forall c ensures c in cards <==> c in clCards {
      assert c in cards <==> c in multiset(cards);
      assert c in clCards <==> c in multiset(clCards);
    }
    assert |cards| == |clCards| by {
      assert |multiset(cards)| == |cards| && |multiset(clCards)| == |clCards|;
    }
    DistinctIdsPermutation(clCards, cards);
  }

  /** A successful deal of a drawn solution is `Generated`. */
  lemma DealGenerated(cards: seq<Card>, picks: Picks, clCards: seq<Card>, players: seq<Player>)
    requires DistinctIds(cards) && |cards| == |clCards| && SetOf(cards) == SetOf(clCards)
    requires Solution(cards, picks).Success?
    requires var sol := Solution(cards, picks).value;
      |sol| == 3 && sol <= SetOf(cards) && |cards| >= 3 && Deal(cards, sol, players).Success?
    ensures Generated(Deal(cards, Solution(cards, picks).value, players).value, clCards, players)
  {
    var sol := Solution(cards, picks).value;
    SolutionShape(cards, picks);
    DealPartition(cards, sol, players);
    DealKeys(cards, sol, players);
  }

  /** The keys of a dealt hand map are the hand owners, one per position. */
  lemma DealKeys(cards: seq<Card>, solutionCards: set<Card>, players: seq<Player>)
    requires DistinctIds(cards)
    requires |solutionCards| == 3 && solutionCards <= SetOf(cards) && |cards| >= 3
    requires Deal(cards, solutionCards, players).Success?
    ensures var ds := Deal(cards, solutionCards, players).value;
      forall p :: p in ds.playerCards ==> 0 <= p.position < |players| && p == HandOwner(players, p.position)
  {
    DealShape(cards, solutionCards, players);
  }

  // ---------------------------------------------------------------------------
  // getOwnPlayer / getOwnCards
  // ---------------------------------------------------------------------------

  /** `players.find { it.isMe }`, as the position in the list. */
  function FirstViewpoint(players: seq<Player>): (r: Option<nat>)
    ensures r.None? <==> forall i :: 0 <= i < |players| ==> !players[i].isMe
    ensures r.Some? ==> r.value < |players| && players[r.value].isMe
                        && forall i :: 0 <= i < r.value ==> !players[i].isMe
  {
    if players == [] then None
    else if players[0].isMe then Some(0)
    else match FirstViewpoint(players[1..])
      case None => None
      case Some(i) => Some(i + 1)
  }

  function GetOwnPlayer(ds: DataSet): (r: Result<Player, DataSetError>)
    ensures r == Failure(OwnPlayerNotSet) <==> forall p :: p in ds.players ==> !p.isMe
    ensures r.Success? ==> exists i :: FirstViewpoint(ds.players) == Some(i) && r.value == ds.players[i]
    ensures r.Success? || r == Failure(OwnPlayerNotSet)
  {
    match FirstViewpoint(ds.players)
    case None => Failure(OwnPlayerNotSet)
    case Some(i) => Success(ds.players[i])
  }

  function GetOwnCards(ds: DataSet): (r: Result<set<Card>, DataSetError>)
    ensures r == Failure(OwnPlayerNotSet) <==> forall p :: p in ds.players ==> !p.isMe
    ensures r == Failure(OwnPlayerCardsNotSet) <==>
              GetOwnPlayer(ds).Success? && GetOwnPlayer(ds).value !in ds.playerCards
    ensures r.Success? ==> GetOwnPlayer(ds).Success? && r.value == ds.playerCards[GetOwnPlayer(ds).value]
  {
    match GetOwnPlayer(ds)
    case Failure(e) => Failure(e)
    case Success(p) => if p in ds.playerCards then Success(ds.playerCards[p]) else Failure(OwnPlayerCardsNotSet)
  }

  /**
   * In a generated data set only the first hand belongs to a viewpoint, so
   * the own cards are found exactly when the first viewpoint in the player
   * list is that hand's owner, `Player(0, players[0].name, true)`.
   */
  lemma GeneratedOwnCards(ds: DataSet, clCards: seq<Card>, players: seq<Player>)
    requires Generated(ds, clCards, players)
    ensures match FirstViewpoint(players)
      case None => GetOwnCards(ds) == Failure(OwnPlayerNotSet)
      case Some(i) =>
        if players[i] == HandOwner(players, 0) then GetOwnCards(ds) == Success(ds.playerCards[HandOwner(players, 0)])
        else GetOwnCards(ds) == Failure(OwnPlayerCardsNotSet)
  {
    match FirstViewpoint(players)
    case None =>
      assert forall p :: p in players ==> !p.isMe by {
        forall p | p in players ensures !p.isMe {
          var i :| 0 <= i < |players| && players[i] == p;
        }
      }
    case Some(i) =>
      if players[i] in ds.playerCards {
        assert players[i] == HandOwner(players, players[i].position);
      }
  }
}
