/**
 * Counting facts about flat sequences of expert ids, used by the segment
 * builder: how many entries equal an id, how many lie below a bound, and how
 * those counts survive a permutation (the argsort of the routing ids).
 */
module Counting {

  /** Number of entries of `s` equal to `e` (a one-hot column summed). */
  function Occurrences(s: seq<int>, e: int): (n: nat)
    ensures n <= |s|
  {
    if s == [] then 0
    else Occurrences(s[..|s| - 1], e) + (if s[|s| - 1] == e then 1 else 0)
  }

  /** Number of entries of `s` strictly below `b`. */
  function CountBelow(s: seq<int>, b: int): (n: nat)
    ensures n <= |s|
  {
    if s == [] then 0
    else CountBelow(s[..|s| - 1], b) + (if s[|s| - 1] < b then 1 else 0)
  }

  /** `s` is in ascending key order (ties in any order). */
  ghost predicate Sorted(s: seq<int>)
  {
    forall i, j :: 0 <= i < j < |s| ==> s[i] <= s[j]
  }

  /** Every index of `P` addresses an entry of a sequence of length `n`. */
  ghost predicate IndicesIn(P: seq<int>, n: int)
  {
    forall j :: 0 <= j < |P| ==> 0 <= P[j] < n
  }

  /** `P` lists every index of `[0, n)` exactly once. */
  ghost predicate IsPermutation(P: seq<int>, n: int)
  {
    && |P| == n
    && IndicesIn(P, n)
    && (forall i, j :: 0 <= i < j < |P| ==> P[i] != P[j])
    && (forall v :: 0 <= v < n ==> v in P)
  }

  /** The keys read through an index sequence: `ids[P[j]]` for each `j`. */
  function Gather(ids: seq<int>, P: seq<int>): (keys: seq<int>)
    requires IndicesIn(P, |ids|)
    ensures |keys| == |P|
    ensures forall j :: 0 <= j < |P| ==> keys[j] == ids[P[j]]
  {
    seq(|P|, j requires 0 <= j < |P| => ids[P[j]])
  }

  lemma {:induction false} OccurrencesConcat(a: seq<int>, b: seq<int>, e: int)
    ensures Occurrences(a + b, e) == Occurrences(a, e) + Occurrences(b, e)
    decreases |b|
  {
    if b == [] {
      assert a + b == a;
    } else {
      assert (a + b)[..|a + b| - 1] == a + b[..|b| - 1];
      OccurrencesConcat(a, b[..|b| - 1], e);
    }
  }

  lemma {:induction false} CountBelowConcat(a: seq<int>, b: seq<int>, x: int)
    ensures CountBelow(a + b, x) == CountBelow(a, x) + CountBelow(b, x)
    decreases |b|
  {
    if b == [] {
      assert a + b == a;
    } else {
      assert (a + b)[..|a + b| - 1] == a + b[..|b| - 1];
      CountBelowConcat(a, b[..|b| - 1], x);
    }
  }

  /** An id occurs iff its count is positive. */
  lemma {:induction false} OccurrencesPositive(s: seq<int>, e: int)
    ensures Occurrences(s, e) > 0 <==> e in s
  {
    if s != [] {
      OccurrencesPositive(s[..|s| - 1], e);
      assert s == s[..|s| - 1] + [s[|s| - 1]];
    }
  }

  /** The count of one id is the difference of two "below" counts. */
  lemma {:induction false} OccurrencesAsCountBelow(s: seq<int>, e: int)
    ensures Occurrences(s, e) == CountBelow(s, e + 1) - CountBelow(s, e)
  {
    if s != [] {
      OccurrencesAsCountBelow(s[..|s| - 1], e);
    }
  }

  /** When no entry is negative, nothing lies below zero. */
  lemma {:induction false} CountBelowZero(s: seq<int>)
    requires forall j :: 0 <= j < |s| ==> s[j] >= 0
    ensures CountBelow(s, 0) == 0
  {
    if s != [] {
      CountBelowZero(s[..|s| - 1]);
    }
  }

  /**
   * In a sorted sequence the entries below `b` are exactly a prefix, whose
   * length is `CountBelow(s, b)`.
   */
  lemma {:induction false} SortedCountBelow(s: seq<int>, b: int)
    requires Sorted(s)
    ensures forall j :: 0 <= j < |s| ==> (s[j] < b <==> j < CountBelow(s, b))
  {
    if s != [] {
      var t := s[..|s| - 1];
      assert Sorted(t);
      SortedCountBelow(t, b);
      if s[|s| - 1] < b {
        assert forall j :: 0 <= j < |t| ==> t[j] < b;
      }
    }
  }

  /** Dropping the slot that holds the largest index keeps a permutation. */
  lemma RemoveLast(P: seq<int>, n: int, k: int)
    requires n > 0 && IsPermutation(P, n)
    requires 0 <= k < n && P[k] == n - 1
    ensures IsPermutation(P[..k] + P[k + 1..], n - 1)
  {
    var Q := P[..k] + P[k + 1..];
    assert forall j :: 0 <= j < |Q| ==> Q[j] == if j < k then P[j] else P[j + 1];
    forall v | 0 <= v < n - 1
      ensures v in Q
    {
      assert v in P;
      var j :| 0 <= j < |P| && P[j] == v;
      if j < k {
        assert Q[j] == v;
      } else {
        assert j != k;
        assert Q[j - 1] == v;
      }
    }
  }

  /** Gathering through a concatenation of index sequences concatenates. */
  lemma GatherConcat(ids: seq<int>, P: seq<int>, Q: seq<int>)
    requires IndicesIn(P, |ids|) && IndicesIn(Q, |ids|)
    ensures IndicesIn(P + Q, |ids|)
    ensures Gather(ids, P + Q) == Gather(ids, P) + Gather(ids, Q)
  {
    assert IndicesIn(P + Q, |ids|);
  }

  /** Gathering splits around one index position. */
  lemma GatherSplit(ids: seq<int>, P: seq<int>, k: int)
    requires IndicesIn(P, |ids|) && 0 <= k < |P|
    ensures IndicesIn(P[..k], |ids|) && IndicesIn(P[k + 1..], |ids|)
    ensures Gather(ids, P) == Gather(ids, P[..k]) + [ids[P[k]]] + Gather(ids, P[k + 1..])
  {
    assert IndicesIn(P[..k], |ids|);
    assert IndicesIn(P[k + 1..], |ids|);
  }

  /** Gathering from a prefix that holds every addressed index changes nothing. */
  lemma GatherFront(ids: seq<int>, m: int, Q: seq<int>)
    requires 0 <= m <= |ids| && IndicesIn(Q, m)
    ensures IndicesIn(Q, |ids|) && Gather(ids[..m], Q) == Gather(ids, Q)
  {
  }

  /** The "below" count of `g1 + [x] + g2` splits around `x`. */
  lemma CountBelowAround(g1: seq<int>, x: int, g2: seq<int>, b: int)
    ensures CountBelow(g1 + [x] + g2, b) == CountBelow(g1 + g2, b) + (if x < b then 1 else 0)
  {
    CountBelowConcat(g1, g2, b);
    CountBelowConcat(g1 + [x], g2, b);
    CountBelowConcat(g1, [x], b);
    assert [x][..0] == [];
  }

  /**
   * Removing the slot `k` that reads the last id from the index sequence
   * removes exactly that id from the gathered keys.
   */
  lemma GatherDropLast(ids: seq<int>, P: seq<int>, k: int, b: int)
    requires |ids| > 0 && IndicesIn(P, |ids|) && 0 <= k < |P| && P[k] == |ids| - 1
    requires IndicesIn(P[..k] + P[k + 1..], |ids| - 1)
    ensures CountBelow(Gather(ids, P), b)
            == CountBelow(Gather(ids[..|ids| - 1], P[..k] + P[k + 1..]), b) + (if ids[|ids| - 1] < b then 1 else 0)
  {
    var n := |ids|;
    var P1, P2 := P[..k], P[k + 1..];
    GatherSplit(ids, P, k);
    GatherConcat(ids, P1, P2);
    GatherFront(ids, n - 1, P1 + P2);
    CountBelowAround(Gather(ids, P1), ids[n - 1], Gather(ids, P2), b);
  }

  /**
   * Reading the ids through a permutation keeps every "below" count: argsort
   * only reorders the routing slots.
   */
  lemma {:induction false} GatherCountBelow(ids: seq<int>, P: seq<int>, b: int)
    requires IsPermutation(P, |ids|)
    ensures CountBelow(Gather(ids, P), b) == CountBelow(ids, b)
    decreases |ids|
  {
    var n := |ids|;
    if n == 0 {
      assert Gather(ids, P) == [];
    } else {
      assert n - 1 in P;
      var k :| 0 <= k < |P| && P[k] == n - 1;
      RemoveLast(P, n, k);
      GatherCountBelow(ids[..n - 1], P[..k] + P[k + 1..], b);
      GatherDropLast(ids, P, k, b);
    }
  }

  /** Reading through a permutation keeps the count of every id. */
  lemma GatherOccurrences(ids: seq<int>, P: seq<int>, e: int)
    requires IsPermutation(P, |ids|)
    ensures Occurrences(Gather(ids, P), e) == Occurrences(ids, e)
  {
    GatherCountBelow(ids, P, e);
    GatherCountBelow(ids, P, e + 1);
    OccurrencesAsCountBelow(ids, e);
    OccurrencesAsCountBelow(Gather(ids, P), e);
  }
}
