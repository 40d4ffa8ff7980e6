/** The permutation that `COpenTest::random_sort` makes, as a function of the numbers drawn. */
module Shuffling {
  import opened Pigeonhole

  function Swap<T>(s: seq<T>, i: nat, k: nat): (r: seq<T>)
    requires i < |s| && k < |s|
    ensures |r| == |s|
  {
    seq(|s|, x requires 0 <= x < |s| => if x == i then s[k] else if x == k then s[i] else s[x])
  }

  predicate ValidDraws(draws: seq<nat>, n: nat) {
    |draws| == n && forall i :: 0 <= i < n ==> draws[i] < n
  }

  /** After the first k turns of the loop. */
  function Shuffle<T>(s: seq<T>, draws: seq<nat>, k: nat): (r: seq<T>)
    requires ValidDraws(draws, |s|) && k <= |s|
    ensures |r| == |s|
  {
    if k == 0 then s else Swap(Shuffle(s, draws, k - 1), k - 1, draws[k - 1])
  }

  /** Nothing is lost or duplicated. */
  lemma {:induction false} ShuffleKeepsElements<T>(s: seq<T>, draws: seq<nat>, k: nat)
    requires ValidDraws(draws, |s|) && k <= |s|
    ensures multiset(Shuffle(s, draws, k)) == multiset(s)
  {
    if k > 0 {
      ShuffleKeepsElements(s, draws, k - 1);
      SwapKeepsElements(Shuffle(s, draws, k - 1), k - 1, draws[k - 1]);
    }
  }

  lemma SwapKeepsElements<T>(s: seq<T>, i: nat, k: nat)
    requires i < |s| && k < |s|
    ensures multiset(Swap(s, i, k)) == multiset(s)
  {
    assert Swap(s, i, k) == s[i := s[k]][k := s[i]];
  }

  function Identity(n: nat): (s: seq<nat>)
    ensures |s| == n && forall i :: 0 <= i < n ==> s[i] == i
  {
    if n == 0 then [] else Identity(n - 1) + [n - 1]
  }

  /** Where the element comes from does not depend on what is shuffled, so sequences shuffled with the same draws stay
      aligned. */
  lemma {:induction false} ShuffleMovesPositions<T>(s: seq<T>, draws: seq<nat>, k: nat, i: nat)
    requires ValidDraws(draws, |s|) && k <= |s| && i < |s|
    ensures 0 <= Shuffle(Identity(|s|), draws, k)[i] < |s|
    ensures Shuffle(s, draws, k)[i] == s[Shuffle(Identity(|s|), draws, k)[i]]
  {
    if k > 0 {
      var from := if i == draws[k - 1] then k - 1 else if i == k - 1 then draws[k - 1] else i;
      ShuffleMovesPositions(s, draws, k - 1, from);
    }
  }

  /** Being without duplicates is a property of the multiset of elements. */
  lemma {:induction false} DistinctByCount<T>(s: seq<T>)
    ensures Distinct(s) <==> forall x :: multiset(s)[x] <= 1
  {
    if s != [] {
      var front, last := s[..|s| - 1], s[|s| - 1];
      DistinctByCount(front);
      assert s == front + [last];
      assert multiset(s) == multiset(front) + multiset{last};
      if Distinct(s) {
        assert Distinct(front);
        assert last !in front;
        assert multiset(front)[last] == 0;
      } else if Distinct(front) {
        var i, k :| 0 <= i < k < |s| && s[i] == s[k];
        assert k == |s| - 1;
        assert front[i] == last && last in multiset(front);
        assert multiset(s)[last] >= 2;
      } else {
        var x :| multiset(front)[x] > 1;
        assert multiset(s)[x] > 1;
      }
    }
  }

  lemma PermutedDistinct<T>(a: seq<T>, b: seq<T>)
    requires multiset(a) == multiset(b)
    ensures Distinct(a) <==> Distinct(b)
    ensures Elements(a) == Elements(b)
  {
    DistinctByCount(a);
    DistinctByCount(b);
    assert forall x :: x in a <==> x in multiset(a);
    assert forall x :: x in b <==> x in multiset(b);
  }

  // ----- which orders can come out -----

  /** The draws that leave everything where it is, but for turn j. */
  predicate OnlyTurn(draws: seq<nat>, n: nat, j: nat) {
    ValidDraws(draws, n) && forall i :: 0 <= i < n && i != j ==> draws[i] == i
  }

  lemma {:induction false} BeforeAndAfter<T>(s: seq<T>, draws: seq<nat>, j: nat, k: nat)
    requires j < |s| && k <= |s| && OnlyTurn(draws, |s|, j)
    ensures Shuffle(s, draws, k) == if k <= j then s else s[j := s[draws[j]]][draws[j] := s[j]]
  {
    if k > 0 {
      BeforeAndAfter(s, draws, j, k - 1);
    }
  }

  /** If all draws but that of turn j are those of the positions themselves, positions j and draws[j] are exchanged, and
      nothing else happens. */
  lemma OneExchange<T>(s: seq<T>, draws: seq<nat>, j: nat)
    requires j < |s| && OnlyTurn(draws, |s|, j)
    ensures var r := Shuffle(s, draws, |s|);
            && |r| == |s| && r[j] == s[draws[j]] && r[draws[j]] == s[j]
            && forall i :: 0 <= i < |s| && i != j && i != draws[j] ==> r[i] == s[i]
  {
    BeforeAndAfter(s, draws, j, |s|);
  }

  /** The turns are made from the first position to the last: turned round, the same draws give another order. */
  lemma ThreeInOrder()
    ensures Shuffle([10, 20, 30], [1, 2, 2], 3) == [20, 30, 10]
  {
    assert Shuffle([10, 20, 30], [1, 2, 2], 0) == [10, 20, 30];
    assert Shuffle([10, 20, 30], [1, 2, 2], 1) == [20, 10, 30];
    assert Shuffle([10, 20, 30], [1, 2, 2], 2) == [20, 30, 10];
  }

  lemma {:induction false} SameDraws<T>(s: seq<T>, draws: seq<nat>, other: seq<nat>, k: nat)
    requires ValidDraws(draws, |s|) && ValidDraws(other, |s|) && k <= |s| && draws[..k] == other[..k]
    ensures Shuffle(s, draws, k) == Shuffle(s, other, k)
  {
    if k > 0 {
      assert draws[k - 1] == draws[..k][k - 1] == other[..k][k - 1] == other[k - 1];
      assert draws[..k - 1] == draws[..k][..k - 1] == other[..k][..k - 1] == other[..k - 1];
      SameDraws(s, draws, other, k - 1);
    }
  }

  /** Draws whose first k turns put the first k elements of t in place. */
  lemma {:induction false} PlaceFirst<T>(s: seq<T>, t: seq<T>, k: nat) returns (draws: seq<nat>)
    requires multiset(s) == multiset(t) && k <= |s|
    ensures |s| == |t| && ValidDraws(draws, |s|)
    ensures Shuffle(s, draws, k)[..k] == t[..k]
  {
    assert |s| == |multiset(s)| == |multiset(t)| == |t|;
    if k == 0 {
      draws := Identity(|s|);
    } else {
      var front := PlaceFirst(s, t, k - 1);
      var now := Shuffle(s, front, k - 1);
      ShuffleKeepsElements(s, front, k - 1);
      var p := StillToPlace(now, t, k - 1);
      draws := front[k - 1 := p];
      SameDraws(s, draws, front, k - 1);
      OneMorePlaced(now, t, k - 1, p);
    }
  }

  lemma OneMorePlaced<T>(now: seq<T>, t: seq<T>, k: nat, p: nat)
    requires k <= p < |now| == |t| && now[..k] == t[..k] && now[p] == t[k]
    ensures Swap(now, k, p)[..k + 1] == t[..k + 1]
  {
    forall i | 0 <= i <= k ensures Swap(now, k, p)[i] == t[i] {
      if i < k {
        assert now[i] == now[..k][i] == t[..k][i];
      }
    }
  }

  /** When the first k elements agree, the next one wanted is among the others. */
  lemma StillToPlace<T>(now: seq<T>, t: seq<T>, k: nat) returns (p: nat)
    requires multiset(now) == multiset(t) && k < |t| == |now| && now[..k] == t[..k]
    ensures k <= p < |now| && now[p] == t[k]
  {
    assert now == now[..k] + now[k..] && t == t[..k] + t[k..];
    assert multiset(now[k..]) == multiset(now) - multiset(now[..k]);
    assert multiset(t[k..]) == multiset(t) - multiset(t[..k]);
    assert t[k] == t[k..][0] && t[k] in multiset(t[k..]);
    assert t[k] in now[k..];
    var i :| 0 <= i < |now[k..]| && now[k..][i] == t[k];
    p := k + i;
  }

  /** Every order can come out: for each permutation there are draws that make it. */
  lemma EveryOrder<T>(s: seq<T>, t: seq<T>) returns (draws: seq<nat>)
    requires multiset(s) == multiset(t)
    ensures ValidDraws(draws, |s|) && Shuffle(s, draws, |s|) == t
  {
    draws := PlaceFirst(s, t, |s|);
    assert t[..|s|] == t && Shuffle(s, draws, |s|)[..|s|] == Shuffle(s, draws, |s|);
  }
}
