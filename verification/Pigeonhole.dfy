/** Counting distinct numbers. */
module Pigeonhole {

  predicate Distinct<T(==)>(s: seq<T>) {
    forall i, k :: 0 <= i < k < |s| ==> s[i] != s[k]
  }

  function Elements<T(==)>(s: seq<T>): set<T> {
    set x | x in s
  }

  function Below(n: nat): (s: set<nat>)
    ensures forall k: nat :: k in s <==> k < n
  {
    if n == 0 then {} else Below(n - 1) + {n - 1}
  }

  lemma {:induction false} BelowSize(n: nat)
    ensures |Below(n)| == n
  {
    if n > 0 {
      BelowSize(n - 1);
    }
  }

  lemma {:induction false} DistinctSize<T>(s: seq<T>)
    requires Distinct(s)
    ensures |Elements(s)| == |s|
  {
    if s != [] {
      var front, last := s[..|s| - 1], s[|s| - 1];
      DistinctSize(front);
      assert Elements(s) == Elements(front) + {last};
      assert last !in Elements(front);
    }
  }

  lemma {:induction false} SubsetSize<T>(a: set<T>, b: set<T>)
    requires a <= b
    ensures |a| <= |b|
    ensures |a| == |b| ==> a == b
  {
    if a != {} {
      var x :| x in a;
      SubsetSize(a - {x}, b - {x});
      assert a == (a - {x}) + {x} && b == (b - {x}) + {x};
    }
  }

  /** Distinct numbers below n are at most n, and exactly n only when none is missing. */
  lemma DistinctBelow(ids: seq<nat>, n: nat)
    requires Distinct(ids) && forall i :: 0 <= i < |ids| ==> ids[i] < n
    ensures |ids| <= n
    ensures |ids| == n <==> forall k: nat :: k < n ==> k in ids
  {
    DistinctSize(ids);
    BelowSize(n);
    SubsetSize(Elements(ids), Below(n));
    if |ids| == n {
      forall k: nat | k < n ensures k in ids {
        assert k in Elements(ids);
      }
    } else if forall k: nat :: k < n ==> k in ids {
      SubsetSize(Below(n), Elements(ids));
    }
  }
}
