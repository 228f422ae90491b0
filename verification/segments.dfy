/**
 * The segment builder of the fused MoE layer: the flat top-k expert ids are
 * argsorted, and for every expert a scan over the sorted order in blocks of
 * `BLOCK` lanes finds the half-open range `[start, end)` of the sorted
 * positions that hold that expert.
 */
module Segments {
  import opened Counting

  /** Lanes per block of the start/end scan. */
  const BLOCK: nat := 128

  /** Position of the first entry of `s` equal to `e`. */
  function FirstIndexOf(s: seq<int>, e: int): (r: nat)
    requires e in s
    ensures r < |s| && s[r] == e
    ensures forall j :: 0 <= j < r ==> s[j] != e
  {
    if s[0] == e then 0 else 1 + FirstIndexOf(s[1..], e)
  }

  /**
   * The start the scan stores for expert `e` over the sorted keys: the first
   * sorted position holding `e`, or 0 when `e` is absent (the -1 sentinel
   * multiplied by zero).
   */
  function SegmentStart(keys: seq<int>, e: int): (s: nat)
    ensures s <= |keys|
    ensures e in keys ==> s < |keys| && keys[s] == e && forall j :: 0 <= j < s ==> keys[j] != e
    ensures e !in keys ==> s == 0
  {
    if e in keys then FirstIndexOf(keys, e) else 0
  }

  /** The end the scan stores: the start plus the number of matches. */
  function SegmentEnd(keys: seq<int>, e: int): int
  {
    SegmentStart(keys, e) + Occurrences(keys, e)
  }

  /** A `(tokens, topK)` table flattened row by row, token-major: slot `t * topK + s`. */
  function Flatten<T>(rows: seq<seq<T>>): (flat: seq<T>)
    ensures |flat| == SumOfLengths(rows)
  {
    if rows == [] then [] else Flatten(rows[..|rows| - 1]) + rows[|rows| - 1]
  }

  function SumOfLengths<T>(rows: seq<seq<T>>): nat
  {
    if rows == [] then 0 else SumOfLengths(rows[..|rows| - 1]) + |rows[|rows| - 1]|
  }

  /**
   * One block of the scan at `sidxStart`: the masked loads of the sorted
   * slots and their ids, the number of lanes matching `expId`, and the argmax
   * of the match mask (its first set lane, or 0 when none is set). Lanes past
   * the end load the padding id `numExperts`, which matches no expert that
   * has a program instance.
   */
  method ScanBlock(topkIdx: seq<int>, sortedIdx: seq<int>, numExperts: int, expId: int, sidxStart: int)
    returns (blockCnt: nat, firstLane: nat)
    requires 0 <= expId < numExperts
    requires IndicesIn(sortedIdx, |topkIdx|)
    requires 0 <= sidxStart < |sortedIdx|
    ensures BlockScanned(Gather(topkIdx, sortedIdx), expId, sidxStart, Min(sidxStart + BLOCK, |sortedIdx|), blockCnt, firstLane)
  {
    ghost var keys := Gather(topkIdx, sortedIdx);
    var len := |sortedIdx|;
    blockCnt, firstLane := 0, 0;
    var lane := 0;
    ghost var upto := sidxStart;
    while lane < BLOCK
      invariant 0 <= lane <= BLOCK
      invariant upto == Min(sidxStart + lane, len)
      invariant BlockScanned(keys, expId, sidxStart, upto, blockCnt, firstLane)
    {
      var off := sidxStart + lane;
      var mask := off < len;
      var sidx := if mask then sortedIdx[off] else 0;
      var tidx := if mask then topkIdx[sidx] else numExperts;
      var hit := tidx == expId;
      if mask {
        assert tidx == keys[off];
        LaneStep(keys, expId, sidxStart, off, blockCnt, firstLane);
        upto := off + 1;
      }
      if hit && blockCnt == 0 {
        firstLane := lane;
      }
      blockCnt := blockCnt + (if hit then 1 else 0);
      lane := lane + 1;
    }
  }

  /**
   * The state of a block scan over `[lo, hi)`: `blockCnt` matches, and when
   * there is one, `lo + firstLane` is the first.
   */
  ghost predicate BlockScanned(keys: seq<int>, e: int, lo: int, hi: int, blockCnt: int, firstLane: int)
  {
    && 0 <= lo <= hi <= |keys|
    && blockCnt == Occurrences(keys[lo..hi], e)
    && (blockCnt == 0 ==> NoMatch(keys, e, lo, hi))
    && (blockCnt > 0 ==> lo + firstLane < hi && FirstMatchAt(keys, e, lo, lo + firstLane))
  }

  /** Reading one more in-range lane at `off` advances a block scan. */
  lemma LaneStep(keys: seq<int>, e: int, lo: int, off: int, blockCnt: int, firstLane: int)
    requires BlockScanned(keys, e, lo, off, blockCnt, firstLane) && off < |keys|
    ensures BlockScanned(keys, e, lo, off + 1, blockCnt + (if keys[off] == e then 1 else 0),
                         if keys[off] == e && blockCnt == 0 then off - lo else firstLane)
  {
    assert keys[lo..off + 1][..off - lo] == keys[lo..off];
  }

  /** No key in `[lo, hi)` is `e`. */
  ghost predicate NoMatch(keys: seq<int>, e: int, lo: int, hi: int)
    requires 0 <= lo && hi <= |keys|
  {
    forall j :: lo <= j < hi ==> keys[j] != e
  }

  /** Position `at` holds `e` and no position in `[lo, at)` does. */
  ghost predicate FirstMatchAt(keys: seq<int>, e: int, lo: int, at: int)
  {
    0 <= lo <= at < |keys| && keys[at] == e && forall j :: lo <= j < at ==> keys[j] != e
  }

  /**
   * The state of the whole scan after the prefix `[0, scanned)`: `cnt`
   * matches, and `expStart` is the first of them or still the -1 sentinel.
   */
  ghost predicate Scanned(keys: seq<int>, e: int, scanned: int, cnt: int, expStart: int)
  {
    && 0 <= scanned <= |keys|
    && cnt == Occurrences(keys[..scanned], e)
    && (cnt == 0 ==> expStart == -1 && NoMatch(keys, e, 0, scanned))
    && (cnt > 0 ==> FirstMatchAt(keys, e, 0, expStart) && expStart < scanned)
  }

  /** Adding one scanned block to the running count and start. */
  lemma BlockStep(keys: seq<int>, e: int, lo: int, hi: int, cnt: int, expStart: int, blockCnt: int, firstLane: int)
    requires Scanned(keys, e, lo, cnt, expStart)
    requires BlockScanned(keys, e, lo, hi, blockCnt, firstLane)
    ensures Scanned(keys, e, hi, cnt + blockCnt,
                    if cnt + blockCnt > 0 && expStart < 0 then lo + firstLane else expStart)
  {
    assert keys[..hi] == keys[..lo] + keys[lo..hi];
    OccurrencesConcat(keys[..lo], keys[lo..hi], e);
  }

  /** A finished scan holds the segment bounds. */
  lemma ScanDone(keys: seq<int>, e: int, cnt: int, expStart: int)
    requires Scanned(keys, e, |keys|, cnt, expStart)
    ensures (if expStart < 0 then 0 else expStart) == SegmentStart(keys, e)
    ensures (if expStart < 0 then 0 else expStart) + cnt == SegmentEnd(keys, e)
  {
    assert keys[..|keys|] == keys;
    OccurrencesPositive(keys, e);
  }

  /**
   * One program instance of the start/end scan, for expert `expId`: walks the
   * sorted order `BLOCK` lanes at a time, adds each block's matches to `cnt`
   * and records the first matching position once `cnt` becomes positive.
   */
  method StartEndKernel(topkIdx: seq<int>, sortedIdx: seq<int>, numExperts: int, expId: int)
    returns (expStart: int, expEnd: int)
    requires 0 <= expId < numExperts
    requires IndicesIn(sortedIdx, |topkIdx|)
    ensures expStart == SegmentStart(Gather(topkIdx, sortedIdx), expId)
    ensures expEnd == SegmentEnd(Gather(topkIdx, sortedIdx), expId)
  {
    ghost var keys := Gather(topkIdx, sortedIdx);
    var len := |sortedIdx|;
    expStart := -1;
    var cnt := 0;
    var sidxStart := 0;
    assert keys[..0] == [];
    while sidxStart < len
      invariant 0 <= sidxStart
      invariant Scanned(keys, expId, Min(sidxStart, len), cnt, expStart)
      decreases len - sidxStart
    {
      var blockCnt, firstLane := ScanBlock(topkIdx, sortedIdx, numExperts, expId, sidxStart);
      BlockStep(keys, expId, sidxStart, Min(sidxStart + BLOCK, len), cnt, expStart, blockCnt, firstLane);
      cnt := cnt + blockCnt;
      if cnt > 0 && expStart < 0 {
        expStart := sidxStart + firstLane;
      }
      sidxStart := sidxStart + BLOCK;
    }
    ScanDone(keys, expId, cnt, expStart);
    if expStart < 0 {
      expStart := expStart * 0;
    }
    expEnd := expStart + cnt;
  }

  function Min(a: int, b: int): int
  {
    if a <= b then a else b
  }

  /**
   * `get_start_end`: one scan instance per expert id, each storing its pair
   * into the two halves of a freshly allocated start/end table.
   */
  method GetStartEnd(topkIdx: seq<int>, sortedIdx: seq<int>, numExperts: nat)
    returns (expStart: array<int>, expEnd: array<int>)
    requires IndicesIn(sortedIdx, |topkIdx|)
    ensures fresh(expStart) && fresh(expEnd)
    ensures expStart.Length == numExperts && expEnd.Length == numExperts
    ensures forall e :: 0 <= e < numExperts ==>
              expStart[e] == SegmentStart(Gather(topkIdx, sortedIdx), e)
              && expEnd[e] == SegmentEnd(Gather(topkIdx, sortedIdx), e)
  {
    expStart := new int[numExperts];
    expEnd := new int[numExperts];
    var expId := 0;
    while expId < numExperts
      invariant 0 <= expId <= numExperts
      invariant forall e :: 0 <= e < expId ==>
                  expStart[e] == SegmentStart(Gather(topkIdx, sortedIdx), e)
                  && expEnd[e] == SegmentEnd(Gather(topkIdx, sortedIdx), e)
    {
      var s, t := StartEndKernel(topkIdx, sortedIdx, numExperts, expId);
      expStart[expId], expEnd[expId] := s, t;
      expId := expId + 1;
    }
  }

  /**
   * `_get_sorted_idx`: flattens the top-k ids and builds the segments over
   * the given argsort of them. The sort itself is a parameter: any order of
   * the flat slots that is ascending by id is accepted.
   */
  method GetSortedIdx(topkIds: seq<seq<int>>, argsort: seq<int>, numExperts: nat)
    returns (sortedIdx: seq<int>, expStart: array<int>, expEnd: array<int>)
    requires IsPermutation(argsort, |Flatten(topkIds)|)
    requires Sorted(Gather(Flatten(topkIds), argsort))
    ensures sortedIdx == argsort
    ensures fresh(expStart) && fresh(expEnd)
    ensures expStart.Length == numExperts && expEnd.Length == numExperts
    ensures forall e :: 0 <= e < numExperts ==> IsSegment(Flatten(topkIds), sortedIdx, e, expStart[e], expEnd[e])
  {
    var flat := Flatten(topkIds);
    sortedIdx := argsort;
    expStart, expEnd := GetStartEnd(flat, sortedIdx, numExperts);
    forall e | 0 <= e < numExperts
      ensures IsSegment(flat, sortedIdx, e, expStart[e], expEnd[e])
    {
      SegmentExact(flat, sortedIdx, e);
    }
  }

  /**
   * `[s, t)` is the segment of expert `e`: it has as many positions as `e`
   * has slots, and a sorted position lies in it iff it reads a slot of `e`.
   */
  ghost predicate IsSegment(ids: seq<int>, P: seq<int>, e: int, s: int, t: int)
    requires IndicesIn(P, |ids|)
  {
    && 0 <= s <= t <= |P|
    && t - s == Occurrences(ids, e)
    && (forall j :: 0 <= j < |P| ==> (s <= j < t <==> ids[P[j]] == e))
  }

  /**
   * Whatever the order of `sortedIdx`, the stored range lies inside the
   * sorted order, so every position the projection kernel reads exists.
   */
  lemma SegmentInBounds(keys: seq<int>, e: int)
    ensures 0 <= SegmentStart(keys, e) <= SegmentEnd(keys, e) <= |keys|
  {
    var s := SegmentStart(keys, e);
    assert keys == keys[..s] + keys[s..];
    OccurrencesConcat(keys[..s], keys[s..], e);
    OccurrencesPositive(keys[..s], e);
  }

  /**
   * When the argsort orders the ids ascending, the range of expert `e` holds
   * exactly the slots routed to `e`, and its length is their number.
   */
  lemma SegmentExact(ids: seq<int>, P: seq<int>, e: int)
    requires IsPermutation(P, |ids|) && Sorted(Gather(ids, P))
    ensures IsSegment(ids, P, e, SegmentStart(Gather(ids, P), e), SegmentEnd(Gather(ids, P), e))
  {
    var keys := Gather(ids, P);
    GatherOccurrences(ids, P, e);
    OccurrencesAsCountBelow(keys, e);
    SortedCountBelow(keys, e);
    SortedCountBelow(keys, e + 1);
    OccurrencesPositive(keys, e);
    SegmentInBounds(keys, e);
    if e in keys {
      FirstIsCountBelow(keys, e);
    }
  }

  /** In sorted keys the first position of `e` is the number of smaller keys. */
  lemma FirstIsCountBelow(keys: seq<int>, e: int)
    requires Sorted(keys) && e in keys
    ensures SegmentStart(keys, e) == CountBelow(keys, e)
  {
    var f := SegmentStart(keys, e);
    SortedCountBelow(keys, e);
    if f > 0 {
      assert keys[f - 1] <= keys[f];
      assert keys[f - 1] < e;
    }
  }

  /** Two different experts never share a sorted position. */
  lemma SegmentsApart(ids: seq<int>, P: seq<int>, e1: int, e2: int, j: int)
    requires IsPermutation(P, |ids|) && Sorted(Gather(ids, P)) && e1 != e2
    requires SegmentStart(Gather(ids, P), e1) <= j < SegmentEnd(Gather(ids, P), e1)
    ensures !(SegmentStart(Gather(ids, P), e2) <= j < SegmentEnd(Gather(ids, P), e2))
  {
    SegmentExact(ids, P, e1);
    SegmentExact(ids, P, e2);
    assert 0 <= j < |P| && ids[P[j]] == e1;
  }

  /** The documented reference: tokens per expert (a one-hot column sum). */
  function ExpTokCnt(ids: seq<int>, e: int): nat
  {
    Occurrences(ids, e)
  }

  /** The documented reference end: the running sum of the counts up to `e`. */
  function CumsumEnd(ids: seq<int>, e: nat): nat
  {
    if e == 0 then ExpTokCnt(ids, 0) else CumsumEnd(ids, e - 1) + ExpTokCnt(ids, e)
  }

  /** The documented reference start: the end minus the count. */
  function CumsumStart(ids: seq<int>, e: nat): int
  {
    CumsumEnd(ids, e) - ExpTokCnt(ids, e)
  }

  /** With non-negative ids, the running count sum is a "below" count. */
  lemma {:induction false} CumsumEndIsCountBelow(ids: seq<int>, e: nat)
    requires forall j :: 0 <= j < |ids| ==> ids[j] >= 0
    ensures CumsumEnd(ids, e) == CountBelow(ids, e + 1)
  {
    OccurrencesAsCountBelow(ids, e);
    if e == 0 {
      CountBelowZero(ids);
    } else {
      CumsumEndIsCountBelow(ids, e - 1);
    }
  }

  /**
   * The scan agrees with the one-hot/cumsum reference of its docstring on
   * every expert that owns slots, and on the length of every range; an
   * expert without slots gets `[0, 0)` where the reference gives an empty
   * range at the running sum.
   */
  lemma MatchesCumsumReference(ids: seq<int>, P: seq<int>, numExperts: nat, e: nat)
    requires IsPermutation(P, |ids|) && Sorted(Gather(ids, P))
    requires forall j :: 0 <= j < |ids| ==> 0 <= ids[j] < numExperts
    requires e < numExperts
    ensures SegmentEnd(Gather(ids, P), e) - SegmentStart(Gather(ids, P), e)
            == CumsumEnd(ids, e) - CumsumStart(ids, e)
    ensures ExpTokCnt(ids, e) > 0 ==>
              SegmentStart(Gather(ids, P), e) == CumsumStart(ids, e)
              && SegmentEnd(Gather(ids, P), e) == CumsumEnd(ids, e)
    ensures ExpTokCnt(ids, e) == 0 ==>
              SegmentStart(Gather(ids, P), e) == 0 && SegmentEnd(Gather(ids, P), e) == 0
  {
    var keys := Gather(ids, P);
    GatherOccurrences(ids, P, e);
    GatherCountBelow(ids, P, e);
    GatherCountBelow(ids, P, e + 1);
    CumsumEndIsCountBelow(ids, e);
    OccurrencesAsCountBelow(ids, e);
    OccurrencesPositive(keys, e);
    if e in keys {
      FirstIsCountBelow(keys, e);
    }
  }

  /**
   * When every token routes to `topK` distinct experts, no expert owns more
   * slots than there are tokens, so its segment fits in the padded row count
   * the launcher sizes the grid by.
   */
  lemma {:induction false} SegmentAtMostTokens(topkIds: seq<seq<int>>, e: int)
    requires forall t :: 0 <= t < |topkIds| ==> DistinctIds(topkIds[t])
    ensures Occurrences(Flatten(topkIds), e) <= |topkIds|
  {
    if topkIds != [] {
      var last := topkIds[|topkIds| - 1];
      SegmentAtMostTokens(topkIds[..|topkIds| - 1], e);
      OccurrencesConcat(Flatten(topkIds[..|topkIds| - 1]), last, e);
      AtMostOnce(last, e);
    }
  }

  /** No id appears twice in one token's top-k row. */
  ghost predicate DistinctIds(row: seq<int>)
  {
    forall i, j :: 0 <= i < j < |row| ==> row[i] != row[j]
  }

  lemma {:induction false} AtMostOnce(row: seq<int>, e: int)
    requires DistinctIds(row)
    ensures Occurrences(row, e) <= 1
  {
    if row != [] {
      var front := row[..|row| - 1];
      assert DistinctIds(front);
      AtMostOnce(front, e);
      if row[|row| - 1] == e {
        OccurrencesPositive(front, e);
      }
    }
  }
}
