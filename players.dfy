/**
 * Players and turn order (`ClPlayer` and its companion list functions).
 * A player is a plain value: Kotlin's data-class equality compares position,
 * name and the viewpoint flag, as Dafny's datatype equality does.
 */
module Players {
  import opened Wrappers

  datatype Player = Player(position: int, name: string, isMe: bool)

  // ---------------------------------------------------------------------------
  // sortByPosition
  // ---------------------------------------------------------------------------

  /**
   * The first sort key of `sortByPosition(first)`: `position < first.position`,
   * with false (0) before true (1). Without an anchor every player ranks 0.
   */
  function Rank(p: Player, first: Option<Player>): int
  {
    match first
    case None => 0
    case Some(f) => if p.position < f.position then 1 else 0
  }

  /** The comparator of `sortByPosition(first)`: rank first, then position. */
  predicate SortsBefore(a: Player, b: Player, first: Option<Player>)
  {
    Rank(a, first) < Rank(b, first) || (Rank(a, first) == Rank(b, first) && a.position <= b.position)
  }

  predicate SortedBy(s: seq<Player>, first: Option<Player>)
  {
    forall i, j :: 0 <= i < j < |s| ==> SortsBefore(s[i], s[j], first)
  }

  /** Inserts `x` before the first element it does not sort after; this keeps the sort stable. */
  function Insert(x: Player, s: seq<Player>, first: Option<Player>): (r: seq<Player>)
    ensures multiset(r) == multiset(s) + multiset{x}
    ensures |r| == |s| + 1
  {
    if s == [] then [x]
    else if SortsBefore(x, s[0], first) then [x] + s
    else
      assert s == [s[0]] + s[1..];
      [s[0]] + Insert(x, s[1..], first)
  }

  /**
   * `sortByPosition(first)`: Kotlin's stable `sortedBy`/`sortedWith`, written
   * as an insertion sort. With no anchor it orders by position; with an anchor
   * the players at or after the anchor's position come first.
   */
  function SortByPosition(ps: seq<Player>, first: Option<Player>): (r: seq<Player>)
    ensures multiset(r) == multiset(ps)
    ensures |r| == |ps|
  {
    if ps == [] then []
    else
      assert ps == [ps[0]] + ps[1..];
      Insert(ps[0], SortByPosition(ps[1..], first), first)
  }

  /** Sorting keeps exactly the members. */
  lemma SortMembers(ps: seq<Player>, first: Option<Player>)
    ensures forall p :: p in SortByPosition(ps, first) <==> p in ps
  {
    var r := SortByPosition(ps, first);
    forall p ensures p in r <==> p in ps {
      assert p in r <==> p in multiset(r);
      assert p in ps <==> p in multiset(ps);
    }
  }

  lemma {:induction false} InsertMembers(x: Player, s: seq<Player>, first: Option<Player>)
    ensures forall y :: y in Insert(x, s, first) <==> y == x || y in s
  {
    if s != [] && !SortsBefore(x, s[0], first) {
      InsertMembers(x, s[1..], first);
      assert s == [s[0]] + s[1..];
    }
  }

  lemma {:induction false} InsertSorted(x: Player, s: seq<Player>, first: Option<Player>)
    requires SortedBy(s, first)
    ensures SortedBy(Insert(x, s, first), first)
  {
    if s == [] {
    } else if SortsBefore(x, s[0], first) {
      forall j | 0 <= j < |s| ensures SortsBefore(x, s[j], first) {
        if j > 0 {
          assert SortsBefore(s[0], s[j], first);
        }
      }
      ConsSorted(x, s, first);
    } else {
      var t := Insert(x, s[1..], first);
      assert SortedBy(s[1..], first);
      InsertSorted(x, s[1..], first);
      InsertMembers(x, s[1..], first);
      forall j | 0 <= j < |t| ensures SortsBefore(s[0], t[j], first) {
        assert t[j] in t;
        if t[j] != x {
          var k :| 0 <= k < |s| - 1 && s[1..][k] == t[j];
          assert s[k + 1] == t[j];
        }
      }
      ConsSorted(s[0], t, first);
    }
  }

  lemma ConsSorted(y: Player, t: seq<Player>, first: Option<Player>)
    requires SortedBy(t, first)
    requires forall j :: 0 <= j < |t| ==> SortsBefore(y, t[j], first)
    ensures SortedBy([y] + t, first)
  {
    var r := [y] + t;
    forall i, j | 0 <= i < j < |r| ensures SortsBefore(r[i], r[j], first) {
      assert r[j] == t[j - 1];
      if i > 0 {
        assert r[i] == t[i - 1];
      }
    }
  }

  /** The result of `sortByPosition(first)` is ordered by the comparator. */
  lemma {:induction false} SortByPositionSorted(ps: seq<Player>, first: Option<Player>)
    ensures SortedBy(SortByPosition(ps, first), first)
  {
    if ps != [] {
      SortByPositionSorted(ps[1..], first);
      InsertSorted(ps[0], SortByPosition(ps[1..], first), first);
    }
  }

  /** `sortByPosition()` without an anchor: a permutation in ascending position order. */
  lemma SortByPositionAscending(ps: seq<Player>)
    ensures multiset(SortByPosition(ps, None)) == multiset(ps)
    ensures var r := SortByPosition(ps, None);
      forall i, j :: 0 <= i < j < |r| ==> r[i].position <= r[j].position
  {
    SortByPositionSorted(ps, None);
  }

  /** The players of `ps` whose position is at least `f`'s, in list order. */
  function AtOrAfter(ps: seq<Player>, f: Player): (r: seq<Player>)
    ensures forall p :: p in r ==> p in ps && p.position >= f.position
  {
    if ps == [] then []
    else if ps[0].position >= f.position then [ps[0]] + AtOrAfter(ps[1..], f)
    else AtOrAfter(ps[1..], f)
  }

  /** The players of `ps` whose position is below `f`'s, in list order. */
  function Below(ps: seq<Player>, f: Player): (r: seq<Player>)
    ensures forall p :: p in r ==> p in ps && p.position < f.position
  {
    if ps == [] then []
    else if ps[0].position < f.position then [ps[0]] + Below(ps[1..], f)
    else Below(ps[1..], f)
  }

  lemma {:induction false} InsertHighAnchored(x: Player, a: seq<Player>, b: seq<Player>, f: Player)
    requires x.position >= f.position
    requires forall i :: 0 <= i < |a| ==> a[i].position >= f.position
    requires forall i :: 0 <= i < |b| ==> b[i].position < f.position
    ensures Insert(x, a + b, Some(f)) == Insert(x, a, None) + b
  {
    if a == [] {
      assert a + b == b;
    } else {
      assert (a + b)[0] == a[0];
      assert (a + b)[1..] == a[1..] + b;
      if !SortsBefore(x, a[0], Some(f)) {
        InsertHighAnchored(x, a[1..], b, f);
      }
    }
  }

  lemma {:induction false} InsertLowAnchored(x: Player, a: seq<Player>, b: seq<Player>, f: Player)
    requires x.position < f.position
    requires forall i :: 0 <= i < |a| ==> a[i].position >= f.position
    requires forall i :: 0 <= i < |b| ==> b[i].position < f.position
    ensures Insert(x, a + b, Some(f)) == a + Insert(x, b, None)
  {
    if a == [] {
      assert a + b == b;
      InsertLowBelow(x, b, f);
    } else {
      var ab := a + b;
      assert ab[0] == a[0] && ab[1..] == a[1..] + b;
      assert !SortsBefore(x, a[0], Some(f));
      assert Insert(x, ab, Some(f)) == [a[0]] + Insert(x, a[1..] + b, Some(f));
      InsertLowAnchored(x, a[1..], b, f);
      var tail := Insert(x, b, None);
      assert [a[0]] + (a[1..] + tail) == a + tail by {
        assert a == [a[0]] + a[1..];
      }
    }
  }

  lemma {:induction false} InsertLowBelow(x: Player, b: seq<Player>, f: Player)
    requires x.position < f.position
    requires forall i :: 0 <= i < |b| ==> b[i].position < f.position
    ensures Insert(x, b, Some(f)) == Insert(x, b, None)
  {
    if b != [] {
      InsertLowBelow(x, b[1..], f);
    }
  }

  /** The sorted parts keep the positions of the parts. */
  lemma SortedParts(ps: seq<Player>, f: Player)
    ensures var a := SortByPosition(AtOrAfter(ps, f), None);
      forall i :: 0 <= i < |a| ==> a[i].position >= f.position
    ensures var b := SortByPosition(Below(ps, f), None);
      forall i :: 0 <= i < |b| ==> b[i].position < f.position
  {
    var a := SortByPosition(AtOrAfter(ps, f), None);
    var b := SortByPosition(Below(ps, f), None);
    SortMembers(AtOrAfter(ps, f), None);
    SortMembers(Below(ps, f), None);
    forall i | 0 <= i < |a| ensures a[i].position >= f.position {
      assert a[i] in AtOrAfter(ps, f);
    }
    forall i | 0 <= i < |b| ensures b[i].position < f.position {
      assert b[i] in Below(ps, f);
    }
  }

  /**
   * `sortByPosition(first)` is the ascending list of the players at or after
   * the anchor's position, followed by the ascending list of the others.
   */
  lemma {:induction false} SortByPositionAnchored(ps: seq<Player>, f: Player)
    ensures SortByPosition(ps, Some(f))
         == SortByPosition(AtOrAfter(ps, f), None) + SortByPosition(Below(ps, f), None)
  {
    if ps != [] {
      var x, rest := ps[0], ps[1..];
      SortByPositionAnchored(rest, f);
      var a := SortByPosition(AtOrAfter(rest, f), None);
      var b := SortByPosition(Below(rest, f), None);
      SortedParts(rest, f);
      assert SortByPosition(ps, Some(f)) == Insert(x, a + b, Some(f));
      if x.position >= f.position {
        assert AtOrAfter(ps, f) == [x] + AtOrAfter(rest, f);
        assert ([x] + AtOrAfter(rest, f))[1..] == AtOrAfter(rest, f);
        assert Below(ps, f) == Below(rest, f);
        InsertHighAnchored(x, a, b, f);
      } else {
        assert AtOrAfter(ps, f) == AtOrAfter(rest, f);
        assert Below(ps, f) == [x] + Below(rest, f);
        assert ([x] + Below(rest, f))[1..] == Below(rest, f);
        InsertLowAnchored(x, a, b, f);
      }
    }
  }

  // ---------------------------------------------------------------------------
  // indexOf, nextPlayerByPosition, inBetween
  // ---------------------------------------------------------------------------

  /** Kotlin's `indexOf`: the first index of `x`, or -1. */
  function IndexOf(s: seq<Player>, x: Player): (r: int)
    ensures -1 <= r < |s|
    ensures r == -1 <==> x !in s
    ensures 0 <= r ==> s[r] == x && x !in s[..r]
  {
    if s == [] then -1
    else if s[0] == x then 0
    else
      var k := IndexOf(s[1..], x);
      assert s[1..][..k + 1] == s[1..k + 2];
      if k == -1 then -1 else k + 1
  }

  /**
   * `nextPlayerByPosition`: the player after `player` in ascending position
   * order, wrapping from the last to the first; the sole player of a
   * one-element list; None for an empty list or an absent player.
   */
  function NextPlayerByPosition(ps: seq<Player>, player: Player): (r: Option<Player>)
    ensures r.None? <==> |ps| == 0 || (|ps| >= 2 && player !in ps)
    ensures |ps| == 1 ==> r == Some(ps[0])
    ensures r.Some? ==> r.value in ps
  {
    var sorted := SortByPosition(ps, None);
    assert forall p :: p in sorted <==> p in ps by {
      forall p ensures p in sorted <==> p in ps {
        assert p in sorted <==> p in multiset(sorted);
        assert p in ps <==> p in multiset(ps);
      }
    }
    if |sorted| == 0 then None
    else if |sorted| == 1 then
      assert sorted[0] in ps;
      assert ps == [ps[0]];
      Some(sorted[0])
    else
      var idx := IndexOf(sorted, player);
      if idx == -1 then None
      else if idx == |ps| - 1 then Some(sorted[0])
      else Some(sorted[idx + 1])
  }

  /** No two entries of the list share a position. */
  predicate DistinctPositions(ps: seq<Player>)
  {
    forall i, j :: 0 <= i < |ps| && 0 <= j < |ps| && i != j ==> ps[i].position != ps[j].position
  }

  lemma {:induction false} DistinctPositionsCountOne(ps: seq<Player>, x: Player)
    requires DistinctPositions(ps)
    ensures multiset(ps)[x] <= 1
  {
    if ps != [] {
      assert ps == [ps[0]] + ps[1..];
      assert DistinctPositions(ps[1..]) by {
        forall i, j | 0 <= i < |ps| - 1 && 0 <= j < |ps| - 1 && i != j
          ensures ps[1..][i].position != ps[1..][j].position
        {
          assert ps[1..][i] == ps[i + 1] && ps[1..][j] == ps[j + 1];
        }
      }
      DistinctPositionsCountOne(ps[1..], x);
      if x == ps[0] {
        assert x !in ps[1..] by {
          forall k | 0 <= k < |ps| - 1 ensures ps[1..][k] != x {
            assert ps[1..][k] == ps[k + 1];
          }
        }
      }
    }
  }

  /** An element found at two indices occurs at least twice. */
  lemma TwiceCountTwo<T>(s: seq<T>, i: int, j: int)
    requires 0 <= i < j < |s| && s[i] == s[j]
    ensures multiset(s)[s[i]] >= 2
  {
    assert s == s[..j] + [s[j]] + s[j + 1..];
    assert s[i] in s[..j];
  }

  /** Distinct positions survive a permutation. */
  lemma DistinctPositionsPermutation(a: seq<Player>, b: seq<Player>)
    requires multiset(a) == multiset(b) && DistinctPositions(a)
    ensures DistinctPositions(b)
  {
    forall i, j | 0 <= i < |b| && 0 <= j < |b| && i != j
      ensures b[i].position != b[j].position
    {
      assert b[i] in multiset(a) && b[j] in multiset(a);
      var i' :| 0 <= i' < |a| && a[i'] == b[i];
      var j' :| 0 <= j' < |a| && a[j'] == b[j];
      if b[i] == b[j] {
        if i < j { TwiceCountTwo(b, i, j); } else { TwiceCountTwo(b, j, i); }
        DistinctPositionsCountOne(a, b[i]);
      }
    }
  }

  /** With distinct positions a sorted list is strictly increasing in the comparator's key. */
  lemma SortedStrict(s: seq<Player>, first: Option<Player>, i: int, j: int)
    requires SortedBy(s, first) && DistinctPositions(s)
    requires 0 <= i < j < |s|
    ensures s[i].position != s[j].position
    ensures !SortsBefore(s[j], s[i], first)
  {
  }

  /**
   * With distinct positions, `nextPlayerByPosition` is the successor by
   * position: the player with the smallest position above `player`'s, or,
   * when `player` holds the largest position, the player with the smallest.
   */
  lemma NextIsPositionalSuccessor(ps: seq<Player>, player: Player)
    requires DistinctPositions(ps)
    requires player in ps && |ps| >= 2
    ensures NextPlayerByPosition(ps, player).Some?
    ensures var next := NextPlayerByPosition(ps, player).value;
      && next in ps
      && ((exists q :: q in ps && q.position > player.position) ==>
            next.position > player.position
            && forall q :: q in ps && q.position > player.position ==> next.position <= q.position)
      && ((forall q :: q in ps ==> q.position <= player.position) ==>
            forall q :: q in ps ==> next.position <= q.position)
  {
    var sorted := SortByPosition(ps, None);
    AscendingFacts(ps);
    var idx := IndexOf(sorted, player);
    if idx == |ps| - 1 {
      assert NextPlayerByPosition(ps, player) == Some(sorted[0]);
      LastHasLargest(sorted, idx);
    } else {
      assert NextPlayerByPosition(ps, player) == Some(sorted[idx + 1]);
      SuccessorIsNext(sorted, idx);
    }
  }

  /** The ascending order of a list with distinct positions. */
  lemma AscendingFacts(ps: seq<Player>)
    requires DistinctPositions(ps)
    ensures var sorted := SortByPosition(ps, None);
      && SortedBy(sorted, None) && DistinctPositions(sorted)
      && forall p :: p in sorted <==> p in ps
  {
    SortByPositionSorted(ps, None);
    DistinctPositionsPermutation(ps, SortByPosition(ps, None));
    SortMembers(ps, None);
  }

  /** In ascending order the last entry holds the largest position and the first the smallest. */
  lemma LastHasLargest(sorted: seq<Player>, idx: int)
    requires SortedBy(sorted, None) && 0 <= idx == |sorted| - 1
    ensures forall q :: q in sorted ==> q.position <= sorted[idx].position && sorted[0].position <= q.position
  {
    forall q | q in sorted ensures q.position <= sorted[idx].position && sorted[0].position <= q.position {
      var k :| 0 <= k < |sorted| && sorted[k] == q;
      if k < idx {
        assert SortsBefore(sorted[k], sorted[idx], None);
      }
      if 0 < k {
        assert SortsBefore(sorted[0], sorted[k], None);
      }
    }
  }

  /** In strictly ascending order the next entry holds the smallest larger position. */
  lemma SuccessorIsNext(sorted: seq<Player>, idx: int)
    requires SortedBy(sorted, None) && DistinctPositions(sorted) && 0 <= idx < |sorted| - 1
    ensures sorted[idx + 1].position > sorted[idx].position
    ensures forall q :: q in sorted && q.position > sorted[idx].position ==> sorted[idx + 1].position <= q.position
  {
    SortedStrict(sorted, None, idx, idx + 1);
    forall q | q in sorted && q.position > sorted[idx].position ensures sorted[idx + 1].position <= q.position {
      var k :| 0 <= k < |sorted| && sorted[k] == q;
      if k > idx + 1 {
        assert SortsBefore(sorted[idx + 1], sorted[k], None);
      }
    }
  }

  /**
   * `inBetween`: the entries strictly after the first occurrence of `first`
   * and strictly before the first occurrence of `second`, in list order;
   * empty when either is absent or `second` does not come after `first`.
   */
  function InBetween(ps: seq<Player>, first: Player, second: Player): (r: seq<Player>)
    ensures IndexOf(ps, first) == -1 || IndexOf(ps, second) == -1 ==> r == []
    ensures IndexOf(ps, second) <= IndexOf(ps, first) + 1 ==> r == []
    ensures 0 <= IndexOf(ps, first) && IndexOf(ps, first) + 1 < IndexOf(ps, second) ==>
      |r| == IndexOf(ps, second) - IndexOf(ps, first) - 1
      && forall k :: 0 <= k < |r| ==> r[k] == ps[IndexOf(ps, first) + 1 + k]
  {
    var i, j := IndexOf(ps, first), IndexOf(ps, second);
    if i == -1 || j == -1 then []
    else if i + 1 < j then ps[i + 1..j]
    else []
  }

  /**
   * Clockwise strictly-between: `p` comes after `from` and before `to` when
   * the turn order is read starting at `from` and wrapping around.
   */
  predicate StrictlyBetween(from: Player, p: Player, to: Player)
  {
    if from.position <= to.position then from.position < p.position < to.position
    else from.position < p.position || p.position < to.position
  }

  /** Clockwise betweenness is strict order in the comparator anchored at the asker. */
  lemma StrictlyBetweenByKey(asker: Player, p: Player, answerer: Player)
    ensures StrictlyBetween(asker, p, answerer)
        <==> !SortsBefore(p, asker, Some(asker)) && !SortsBefore(answerer, p, Some(asker))
  {
  }

  /** In a strictly sorted list, the slice after index 0 and before `j` holds the keys strictly in between. */
  lemma {:induction false} SliceByKeys(s: seq<Player>, first: Option<Player>, j: int, p: Player)
    requires SortedBy(s, first) && DistinctPositions(s)
    requires 0 <= j < |s|
    ensures p in (if 1 < j then s[1..j] else [])
        <==> p in s && !SortsBefore(p, s[0], first) && !SortsBefore(s[j], p, first)
  {
    if p in (if 1 < j then s[1..j] else []) {
      var k :| 1 <= k < j && s[k] == p;
      SortedStrict(s, first, 0, k);
      SortedStrict(s, first, k, j);
    }
    if p in s && !SortsBefore(p, s[0], first) && !SortsBefore(s[j], p, first) {
      var k :| 0 <= k < |s| && s[k] == p;
      assert k != 0;
      assert k < j by {
        if k > j { SortedStrict(s, first, j, k); }
      }
      assert s[1..j][k - 1] == p;
    }
  }

  /** The anchor of a rotation, when present, is its first entry. */
  lemma AnchorFirst(ps: seq<Player>, asker: Player)
    requires DistinctPositions(ps) && asker in ps
    ensures var s := SortByPosition(ps, Some(asker)); |s| > 0 && s[0] == asker
  {
    var s := SortByPosition(ps, Some(asker));
    SortByPositionSorted(ps, Some(asker));
    DistinctPositionsPermutation(ps, s);
    SortMembers(ps, Some(asker));
    var i := IndexOf(s, asker);
    if i > 0 {
      SortedStrict(s, Some(asker), 0, i);
    }
  }

  /**
   * The players the engine treats as skipped: with distinct positions,
   * `inBetween` over the rotation that starts at the asker holds exactly the
   * players strictly between asker and answerer in clockwise order.
   */
  lemma InBetweenRotation(ps: seq<Player>, asker: Player, answerer: Player, p: Player)
    requires DistinctPositions(ps)
    requires asker in ps && answerer in ps
    ensures p in InBetween(SortByPosition(ps, Some(asker)), asker, answerer)
        <==> p in ps && StrictlyBetween(asker, p, answerer)
  {
    var s := SortByPosition(ps, Some(asker));
    assert SortedBy(s, Some(asker)) && DistinctPositions(s) by {
      SortByPositionSorted(ps, Some(asker));
      DistinctPositionsPermutation(ps, s);
    }
    SortMembers(ps, Some(asker));
    AnchorFirst(ps, asker);
    var j := IndexOf(s, answerer);
    InBetweenFromHead(s, answerer);
    SliceByKeys(s, Some(asker), j, p);
    StrictlyBetweenByKey(asker, p, answerer);
  }

  /** `inBetween` from the head of a list is the slice after the head and before `second`. */
  lemma InBetweenFromHead(s: seq<Player>, second: Player)
    requires |s| > 0 && second in s
    ensures var j := IndexOf(s, second);
      InBetween(s, s[0], second) == if 1 < j then s[1..j] else []
  {
    assert IndexOf(s, s[0]) == 0;
  }
}
