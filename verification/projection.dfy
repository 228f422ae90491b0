/**
 * The body of one program instance of the fused MoE projection kernel:
 * masked tile loads, the blocked K-loop that accumulates a tile of exact
 * dot products, the optional routing-weight scaling, and the masked store
 * of the tile into the output buffer.
 */
module Projection {
  import opened Tiles
  import opened Segments

  /** `x[0] * y[0] + ... + x[n - 1] * y[n - 1]`, in exact arithmetic. */
  function Dot(x: seq<real>, y: seq<real>, n: nat): real
    requires n <= |x| && n <= |y|
  {
    if n == 0 then 0.0 else Dot(x, y, n - 1) + x[n - 1] * y[n - 1]
  }

  /** Column `j` of a tile stored row by row. */
  function Column(t: seq<seq<real>>, j: nat): seq<real>
    requires forall kk :: 0 <= kk < |t| ==> j < |t[kk]|
  {
    seq(|t|, kk requires 0 <= kk < |t| => t[kk][j])
  }

  /**
   * The A tile of the K-step starting at column `lo`: one row per lane,
   * `bk` columns; a lane that is masked off, or a column at or past `k`,
   * reads 0.
   */
  function LoadA(a: seq<seq<real>>, mask: seq<bool>, offsAm: seq<int>, lo: nat, k: nat, bk: nat): (x: seq<seq<real>>)
    requires |mask| == |offsAm|
    requires forall i :: 0 <= i < |mask| && mask[i] ==> 0 <= offsAm[i] < |a| && |a[offsAm[i]]| == k
    ensures |x| == |mask| && Shaped(x, bk)
  {
    seq(|mask|, i requires 0 <= i < |mask| =>
      seq(bk, kk requires 0 <= kk < bk =>
        if mask[i] && kk < k - lo then a[offsAm[i]][lo + kk] else 0.0))
  }

  /**
   * The B tile of the same K-step, stored `[kk][j]`: row `offsBn[j]` of the
   * expert's weight, columns from `lo`; a column at or past `k` reads 0.
   */
  function LoadB(bE: seq<seq<real>>, offsBn: seq<int>, lo: nat, k: nat, bk: nat): (y: seq<seq<real>>)
    requires forall j :: 0 <= j < |offsBn| ==> 0 <= offsBn[j] < |bE| && |bE[offsBn[j]]| == k
    ensures |y| == bk && Shaped(y, |offsBn|)
  {
    seq(bk, kk requires 0 <= kk < bk =>
      seq(|offsBn|, j requires 0 <= j < |offsBn| =>
        if kk < k - lo then bE[offsBn[j]][lo + kk] else 0.0))
  }

  /** `tl.dot(x, y, acc=acc)`: the product of tiles `x` and `y` added to `acc`, all `n` columns wide. */
  function TileDot(x: seq<seq<real>>, y: seq<seq<real>>, acc: seq<seq<real>>, n: nat): (c: seq<seq<real>>)
    requires |x| == |acc| && Shaped(x, |y|) && Shaped(y, n) && Shaped(acc, n)
    ensures |c| == |acc| && Shaped(c, n)
  {
    seq(|acc|, i requires 0 <= i < |acc| =>
      seq(n, j requires 0 <= j < n => acc[i][j] + Dot(x[i], Column(y, j), |y|)))
  }

  /** Every row of `t` has width `w`. */
  ghost predicate Shaped(t: seq<seq<real>>, w: nat)
  {
    forall i :: 0 <= i < |t| ==> |t[i]| == w
  }

  /**
   * After the K-steps that covered columns `[0, upto)`, entry `(i, j)` of
   * the accumulator is the dot product of lane `i`'s A row and column tile
   * `j`'s B row over those columns, and 0 on a masked-off lane.
   */
  ghost predicate AccumulatedUpTo(a: seq<seq<real>>, bE: seq<seq<real>>, mask: seq<bool>, offsAm: seq<int>,
                                  offsBn: seq<int>, k: nat, acc: seq<seq<real>>, upto: nat)
    requires |mask| == |offsAm| && upto <= k
    requires forall i :: 0 <= i < |mask| && mask[i] ==> 0 <= offsAm[i] < |a| && |a[offsAm[i]]| == k
    requires forall j :: 0 <= j < |offsBn| ==> 0 <= offsBn[j] < |bE| && |bE[offsBn[j]]| == k
  {
    && |acc| == |mask| && Shaped(acc, |offsBn|)
    && forall i, j {:trigger acc[i][j]} :: 0 <= i < |mask| && 0 <= j < |offsBn| ==>
         acc[i][j] == if mask[i] then Dot(a[offsAm[i]], bE[offsBn[j]], upto) else 0.0
  }

  /**
   * One iteration of the K-loop starting at column `lo`: the masked A and B
   * tiles are loaded and their product added to the accumulator, which
   * keeps its shape.
   */
  function KStep(a: seq<seq<real>>, bE: seq<seq<real>>, mask: seq<bool>, offsAm: seq<int>,
                 offsBn: seq<int>, k: nat, bk: nat, acc: seq<seq<real>>, lo: nat): (next: seq<seq<real>>)
    requires |mask| == |offsAm| && |acc| == |mask| && Shaped(acc, |offsBn|)
    requires forall i :: 0 <= i < |mask| && mask[i] ==> 0 <= offsAm[i] < |a| && |a[offsAm[i]]| == k
    requires forall j :: 0 <= j < |offsBn| ==> 0 <= offsBn[j] < |bE| && |bE[offsBn[j]]| == k
    ensures |next| == |mask| && Shaped(next, |offsBn|)
  {
    TileDot(LoadA(a, mask, offsAm, lo, k, bk), LoadB(bE, offsBn, lo, k, bk), acc, |offsBn|)
  }

  /**
   * The blocked K-loop: `cdiv(k, bk)` steps, each loading masked tiles and
   * adding their product to the accumulator. The result is the plain dot
   * product over all `k` columns on every unmasked lane, and 0 elsewhere.
   */
  method Accumulate(a: seq<seq<real>>, bE: seq<seq<real>>, mask: seq<bool>, offsAm: seq<int>,
                    offsBn: seq<int>, k: nat, bk: nat)
    returns (acc: seq<seq<real>>)
    requires bk > 0 && |mask| == |offsAm|
    requires forall i :: 0 <= i < |mask| && mask[i] ==> 0 <= offsAm[i] < |a| && |a[offsAm[i]]| == k
    requires forall j :: 0 <= j < |offsBn| ==> 0 <= offsBn[j] < |bE| && |bE[offsBn[j]]| == k
    ensures |acc| == |mask| && Shaped(acc, |offsBn|)
    ensures forall i, j {:trigger acc[i][j]} :: 0 <= i < |mask| && 0 <= j < |offsBn| ==>
              acc[i][j] == if mask[i] then Dot(a[offsAm[i]], bE[offsBn[j]], k) else 0.0
  {
    acc := seq(|mask|, i requires 0 <= i < |mask| => seq(|offsBn|, j requires 0 <= j < |offsBn| => 0.0));
    var steps := Cdiv(k, bk);
    var kb: nat, lo: nat := 0, 0;
    while kb < steps
      invariant 0 <= kb <= steps && lo == kb * bk
      invariant AccumulatedUpTo(a, bE, mask, offsAm, offsBn, k, acc, Min(lo, k))
    {
      StepInRange(kb, steps, bk, k);
      AccumulateStep(a, bE, mask, offsAm, offsBn, k, bk, acc, lo);
      acc := KStep(a, bE, mask, offsAm, offsBn, k, bk, acc, lo);
      kb, lo := kb + 1, lo + bk;
    }
    StepInRange(kb, steps, bk, k);
    assert Min(lo, k) == k;

  }

  /** A K-step that the loop takes starts below `k`; the step after the last covers `k`. */
  lemma StepInRange(kb: nat, steps: nat, bk: nat, k: nat)
    requires bk > 0 && steps == Cdiv(k, bk) && kb <= steps
    ensures kb < steps ==> kb * bk < k
    ensures (kb + 1) * bk == kb * bk + bk
    ensures kb == steps ==> kb * bk >= k
  {
    if kb < steps {
      MulMonotone(kb, steps - 1, bk);
    }
  }

  /** One K-step extends the covered columns from `lo` to `min(lo + bk, k)`. */
  lemma AccumulateStep(a: seq<seq<real>>, bE: seq<seq<real>>, mask: seq<bool>, offsAm: seq<int>,
                       offsBn: seq<int>, k: nat, bk: nat, acc: seq<seq<real>>, lo: nat)
    requires |mask| == |offsAm| && lo < k
    requires forall i :: 0 <= i < |mask| && mask[i] ==> 0 <= offsAm[i] < |a| && |a[offsAm[i]]| == k
    requires forall j :: 0 <= j < |offsBn| ==> 0 <= offsBn[j] < |bE| && |bE[offsBn[j]]| == k
    requires AccumulatedUpTo(a, bE, mask, offsAm, offsBn, k, acc, lo)
    ensures AccumulatedUpTo(a, bE, mask, offsAm, offsBn, k,
                            KStep(a, bE, mask, offsAm, offsBn, k, bk, acc, lo),
                            Min(lo + bk, k))
  {
    var ta := LoadA(a, mask, offsAm, lo, k, bk);
    var tb := LoadB(bE, offsBn, lo, k, bk);
    var next := KStep(a, bE, mask, offsAm, offsBn, k, bk, acc, lo);
    var upto: nat := Min(lo + bk, k);
    assert |next| == |mask| && Shaped(next, |offsBn|);
    forall i, j {:trigger next[i][j]} | 0 <= i < |mask| && 0 <= j < |offsBn|
      ensures next[i][j] == if mask[i] then Dot(a[offsAm[i]], bE[offsBn[j]], upto) else 0.0
    {
      assert next[i][j] == acc[i][j] + Dot(ta[i], Column(tb, j), bk);
      StepCell(a, bE, mask, offsAm, offsBn, k, bk, acc, lo, i, j);
    }
    assert AccumulatedUpTo(a, bE, mask, offsAm, offsBn, k, next, upto);
  }

  /** One lane and column of a K-step: the step's block product extends that cell's dot product. */
  lemma StepCell(a: seq<seq<real>>, bE: seq<seq<real>>, mask: seq<bool>, offsAm: seq<int>,
                 offsBn: seq<int>, k: nat, bk: nat, acc: seq<seq<real>>, lo: nat, i: nat, j: nat)
    requires |mask| == |offsAm| && lo < k && i < |mask| && j < |offsBn|
    requires forall i :: 0 <= i < |mask| && mask[i] ==> 0 <= offsAm[i] < |a| && |a[offsAm[i]]| == k
    requires forall j :: 0 <= j < |offsBn| ==> 0 <= offsBn[j] < |bE| && |bE[offsBn[j]]| == k
    requires AccumulatedUpTo(a, bE, mask, offsAm, offsBn, k, acc, lo)
    ensures acc[i][j] + Dot(LoadA(a, mask, offsAm, lo, k, bk)[i], Column(LoadB(bE, offsBn, lo, k, bk), j), bk)
            == if mask[i] then Dot(a[offsAm[i]], bE[offsBn[j]], Min(lo + bk, k)) else 0.0
  {
    var u := LoadA(a, mask, offsAm, lo, k, bk)[i];
    var v := Column(LoadB(bE, offsBn, lo, k, bk), j);
    if mask[i] {
      BlockDot(a[offsAm[i]], bE[offsBn[j]], u, v, lo, k, bk);
      assert acc[i][j] == Dot(a[offsAm[i]], bE[offsBn[j]], lo);
    } else {
      DotZero(u, v, bk);
      assert acc[i][j] == 0.0;
    }
  }

  /**
   * The masked slice of one K-step contributes exactly the columns
   * `[lo, min(lo + w, k))` of the full dot product: every column below `k`
   * is counted once and the padding past `k` adds nothing.
   */
  lemma {:induction false} BlockDot(x: seq<real>, y: seq<real>, u: seq<real>, v: seq<real>, lo: nat, k: nat, w: nat)
    requires lo <= k && |x| == k && |y| == k && w <= |u| && w <= |v|
    requires forall kk :: 0 <= kk < |u| ==> u[kk] == if kk < k - lo then x[lo + kk] else 0.0
    requires forall kk :: 0 <= kk < |v| ==> v[kk] == if kk < k - lo then y[lo + kk] else 0.0
    ensures Dot(u, v, w) == Dot(x, y, Min(lo + w, k)) - Dot(x, y, lo)
  {
    if w > 0 {
      BlockDot(x, y, u, v, lo, k, w - 1);
    }
  }

  /** A zero row contributes nothing to a dot product. */
  lemma {:induction false} DotZero(u: seq<real>, v: seq<real>, w: nat)
    requires w <= |u| && w <= |v|
    requires forall kk :: 0 <= kk < |u| ==> u[kk] == 0.0
    ensures Dot(u, v, w) == 0.0
  {
    if w > 0 {
      DotZero(u, v, w - 1);
    }
  }

  /** `accumulator * weight[:, None]`: lane `i` of the tile scaled by `weight[i]`. */
  function Scale(acc: seq<seq<real>>, weight: seq<real>): (c: seq<seq<real>>)
    requires |weight| == |acc|
    ensures |c| == |acc| && forall i :: 0 <= i < |c| ==> |c[i]| == |acc[i]|
  {
    seq(|acc|, i requires 0 <= i < |acc| =>
      seq(|acc[i]|, j requires 0 <= j < |acc[i]| => acc[i][j] * weight[i]))
  }

  /** The output buffer's contents as a value, row by row. */
  function Contents(C: array2<real>): seq<seq<real>>
    reads C
  {
    seq(C.Length0, r requires 0 <= r < C.Length0 reads C =>
      seq(C.Length1, col requires 0 <= col < C.Length1 reads C => C[r, col]))
  }

  /**
   * The store of one lane: row `r` of `C` receives `vals[j]` at column
   * `cols[j]`. Columns may repeat (the `% N` wrap), and then carry the same
   * value: `want[col]` is the value the lane owes column `col`.
   */
  method StoreRow(C: array2<real>, r: nat, cols: seq<int>, vals: seq<real>, ghost want: seq<real>)
    requires r < C.Length0 && |want| == C.Length1 && |vals| == |cols|
    requires forall j :: 0 <= j < |cols| ==> 0 <= cols[j] < C.Length1 && vals[j] == want[cols[j]]
    modifies C
    ensures forall col :: 0 <= col < C.Length1 ==>
              C[r, col] == if col in cols then want[col] else old(C[r, col])
    ensures forall r', col :: 0 <= r' < C.Length0 && 0 <= col < C.Length1 && r' != r ==>
              C[r', col] == old(C[r', col])
  {
    var j := 0;
    while j < |cols|
      invariant 0 <= j <= |cols|
      invariant forall col :: 0 <= col < C.Length1 ==>
                  C[r, col] == if col in cols[..j] then want[col] else old(C[r, col])
      invariant forall r', col :: 0 <= r' < C.Length0 && 0 <= col < C.Length1 && r' != r ==>
                  C[r', col] == old(C[r', col])
    {
      C[r, cols[j]] := vals[j];
      assert cols[..j + 1] == cols[..j] + [cols[j]];
      j := j + 1;
    }
    assert cols[..j] == cols;
  }

  /** Some unmasked lane among the first `upto` stores into row `r`. */
  ghost predicate LaneRow(rows: seq<int>, mask: seq<bool>, upto: int, r: int)
    requires 0 <= upto <= |rows| == |mask|
  {
    exists i :: 0 <= i < upto && mask[i] && rows[i] == r
  }

  /**
   * From `before` to `after`, every unmasked lane `i` has stored into row
   * `rows[i]` the values it owes at the columns `cols`; everything else kept
   * its value.
   */
  ghost predicate StoredLanes(rows: seq<int>, mask: seq<bool>, cols: seq<int>, want: seq<seq<real>>, width: nat,
                              before: seq<seq<real>>, after: seq<seq<real>>)
    requires |rows| == |mask| == |want| && Shaped(want, width) && Shaped(before, width)
    requires forall i :: 0 <= i < |rows| && mask[i] ==> 0 <= rows[i] < |before|
  {
    && |after| == |before| && Shaped(after, width)
    && (forall i, col :: 0 <= i < |rows| && mask[i] && 0 <= col < width ==>
          after[rows[i]][col] == if col in cols then want[i][col] else before[rows[i]][col])
    && (forall r, col :: 0 <= r < |before| && 0 <= col < width && !LaneRow(rows, mask, |rows|, r) ==>
          after[r][col] == before[r][col])
  }

  /**
   * `tl.store(c_ptrs, c, mask=mask_sid[:, None])`: every unmasked lane `i`
   * stores its row of the tile into row `rows[i]` of `C`, at the columns
   * `cols`; masked lanes and all other rows are left alone.
   */
  method StoreTile(C: array2<real>, rows: seq<int>, mask: seq<bool>, cols: seq<int>, c: seq<seq<real>>,
                   ghost want: seq<seq<real>>)
    requires |rows| == |mask| == |c| == |want| && Shaped(want, C.Length1) && Shaped(c, |cols|)
    requires forall i :: 0 <= i < |rows| && mask[i] ==> 0 <= rows[i] < C.Length0
    requires forall j :: 0 <= j < |cols| ==> 0 <= cols[j] < C.Length1
    requires forall i, j :: 0 <= i < |c| && 0 <= j < |cols| && mask[i] ==> c[i][j] == want[i][cols[j]]
    requires forall i, i' :: 0 <= i < i' < |rows| && mask[i] && mask[i'] ==> rows[i] != rows[i']
    modifies C
    ensures StoredLanes(rows, mask, cols, want, C.Length1, old(Contents(C)), Contents(C))
  {
    var i := 0;
    while i < |rows|
      invariant 0 <= i <= |rows|
      invariant forall i', col :: 0 <= i' < i && mask[i'] && 0 <= col < C.Length1 ==>
                  C[rows[i'], col] == if col in cols then want[i'][col] else old(C[rows[i'], col])
      invariant forall r, col :: 0 <= r < C.Length0 && 0 <= col < C.Length1 && !LaneRow(rows, mask, i, r) ==>
                  C[r, col] == old(C[r, col])
    {
      if mask[i] {
        StoreRow(C, rows[i], cols, c[i], want[i]);
      }
      i := i + 1;
    }
  }

  /**
   * The arguments of one launch of the projection kernel: the input rows `a`,
   * the expert weights `b[e][n][k]`, the sorted slots and per-expert segment
   * bounds, the flat routing weights, and the launch flags.
   */
  datatype Pass = Pass(
    a: seq<seq<real>>, b: seq<seq<seq<real>>>,
    sortedIdx: seq<int>, expStart: seq<int>, expEnd: seq<int>, weights: seq<real>,
    enableWeights: bool, topK: nat, numTokens: nat, expertOffset: nat,
    reindexA: bool, reindexC: bool, n: nat, k: nat, cfg: TileConfig)
  {
    /** What the kernel's loads need: shapes, segment bounds and in-range row indices. */
    ghost predicate Valid()
    {
      && cfg.Valid()
      && (reindexA ==> topK > 0)
      && (forall e :: 0 <= e < |b| ==> |b[e]| == n)
      && (forall e, col :: 0 <= e < |b| && 0 <= col < n ==> |b[e][col]| == k)
      && |expStart| == |expEnd| && expertOffset + |b| <= |expStart|
      && (forall e :: expertOffset <= e < expertOffset + |b| ==> 0 <= expStart[e] && expEnd[e] <= |sortedIdx|)
      && (forall p :: 0 <= p < |sortedIdx| ==> 0 <= sortedIdx[p])
      && (forall p :: 0 <= p < |sortedIdx| ==> ARow(p) < |a| && |a[ARow(p)]| == k)
      && (enableWeights ==> forall p :: 0 <= p < |sortedIdx| ==> sortedIdx[p] < |weights|)
    }

    /** The output buffer has a row for every row index the kernel may store to. */
    ghost predicate Fits(rows: nat)
      requires Valid()
    {
      forall p :: 0 <= p < |sortedIdx| ==> CRow(p) < rows
    }

    /** With `reindex_c`, no two sorted positions store to the same row. */
    ghost predicate RowsDistinct()
    {
      reindexC ==> forall p, q :: 0 <= p < q < |sortedIdx| ==> sortedIdx[p] != sortedIdx[q]
    }

    /** Input row read for sorted position `p`: `sid // top_k` or the position itself. */
    function ARow(p: int): int
      requires 0 <= p < |sortedIdx| && (reindexA ==> topK > 0)
    {
      if reindexA then sortedIdx[p] / topK else p
    }

    /** Output row written for sorted position `p`: `sid` or the position itself. */
    function CRow(p: int): int
      requires 0 <= p < |sortedIdx|
    {
      if reindexC then sortedIdx[p] else p
    }

    /** First sorted position of local expert `expId`. */
    function Start(expId: nat): int
      requires Valid() && expId < |b|
    {
      expStart[expertOffset + expId]
    }

    /** End of the segment of local expert `expId`. */
    function End(expId: nat): int
      requires Valid() && expId < |b|
    {
      expEnd[expertOffset + expId]
    }

    /** The tile grid of one expert: `cdiv(M_NP2, BM)` by `cdiv(N, BN)` tiles. */
    function Grid(): TileGrid
      requires cfg.Valid()
    {
      TileGrid(Cdiv(PaddedRows(numTokens), cfg.blockM), Cdiv(n, cfg.blockN), cfg.groupM)
    }

    /** The value the kernel owes output column `col` of sorted position `p` of expert `expId`. */
    function Expected(expId: nat, p: int, col: int): real
      requires Valid() && expId < |b| && 0 <= p < |sortedIdx| && 0 <= col < n
    {
      var d := Dot(a[ARow(p)], b[expId][col], k);
      if enableWeights then d * weights[sortedIdx[p]] else d
    }

    /** The tile `(pid_m, pid_n)` of program `pid`. */
    function Tile(pid: nat): (nat, nat)
      requires cfg.Valid() && pid < Grid().Size()
    {
      GridValid(pid);
      TileOf(Grid(), pid)
    }

    /** The output columns of program `pid`'s tile: `(pid_n * BN + j) % N`. */
    function Columns(pid: nat): (cols: seq<int>)
      requires cfg.Valid() && pid < Grid().Size()
      ensures |cols| == cfg.blockN && forall j :: 0 <= j < |cols| ==> 0 <= cols[j] < n
    {
      GridValid(pid);
      seq(cfg.blockN, j requires 0 <= j < cfg.blockN => (Tile(pid).1 * cfg.blockN + j) % n)
    }

    /** Sorted position `p` lies in the segment of local expert `expId`. */
    ghost predicate InSegment(expId: nat, p: int)
      requires Valid() && expId < |b|
    {
      Start(expId) <= p < End(expId)
    }

    /** Sorted position of the first row of program `pid`'s tile: `exp_start + pid_m * BM`. */
    function TileBase(expId: nat, pid: nat): (r: int)
      requires Valid() && expId < |b| && pid < Grid().Size()
      ensures Start(expId) <= r
    {
      MulNonNegative(Tile(pid).0, cfg.blockM);
      Start(expId) + Tile(pid).0 * cfg.blockM
    }

    /** Sorted position `p` is one of the rows of program `pid`'s tile for expert `expId`. */
    ghost predicate InTileRows(expId: nat, pid: nat, p: int)
      requires Valid() && expId < |b| && pid < Grid().Size()
    {
      TileBase(expId, pid) <= p < End(expId) && p < TileBase(expId, pid) + cfg.blockM
    }

    /** Row `r` of the output is stored to by program `pid` of expert `expId`. */
    ghost predicate TileRow(expId: nat, pid: nat, r: int)
      requires Valid() && expId < |b| && pid < Grid().Size()
    {
      exists p :: 0 <= p < |sortedIdx| && InTileRows(expId, pid, p) && CRow(p) == r
    }

    /** The pass's tile grid is the one the launcher sizes for each expert. */
    lemma GridIsExpertGrid()
      requires cfg.Valid()
      ensures Grid() == ExpertGrid(numTokens, n, cfg)
    {
    }

    /** A launched program has a grid with a tile and a non-empty output width. */
    lemma GridValid(pid: nat)
      requires cfg.Valid() && pid < Grid().Size()
      ensures Grid().Valid() && n > 0
    {
      var m, w := Grid().numPidM, Grid().numPidN;
      assert m > 0;
      MulSign(w, m);
      MulNonNegative(w - 1, cfg.blockN);
    }
  }

  /**
   * The effect of program `pid` of expert `expId` on the output, from
   * `before` to `after`: each of its rows gets the owed value at the tile's
   * columns and keeps its old value elsewhere; every other row is unchanged.
   */
  ghost predicate TileApplied(pass: Pass, expId: nat, pid: nat, before: seq<seq<real>>, after: seq<seq<real>>)
    requires pass.Valid() && expId < |pass.b| && pid < pass.Grid().Size()
    requires pass.Fits(|before|) && Shaped(before, pass.n)
  {
    && |after| == |before| && Shaped(after, pass.n)
    && (forall p, col :: 0 <= p < |pass.sortedIdx| && pass.InTileRows(expId, pid, p) && 0 <= col < pass.n ==>
          after[pass.CRow(p)][col]
          == if col in pass.Columns(pid) then pass.Expected(expId, p, col) else before[pass.CRow(p)][col])
    && (forall r, col :: 0 <= r < |before| && 0 <= col < pass.n && !pass.TileRow(expId, pid, r) ==>
          after[r][col] == before[r][col])
  }

  /**
   * One program instance `(pid, exp_id)` of `fused_moe_kernel`: reads its
   * expert's segment, maps `pid` to a tile, returns early on an empty
   * segment or a tile past the segment, and otherwise computes the tile and
   * stores it into `C`.
   */
  method ProgramInstance(pass: Pass, C: array2<real>, expId: nat, pid: nat)
    requires pass.Valid() && pass.Fits(C.Length0) && C.Length1 == pass.n && pass.RowsDistinct()
    requires expId < |pass.b| && pid < pass.Grid().Size()
    modifies C
    ensures TileApplied(pass, expId, pid, old(Contents(C)), Contents(C))
  {
    pass.GridValid(pid);
    var expStart := pass.expStart[expId + pass.expertOffset];
    var expEnd := pass.expEnd[expId + pass.expertOffset];
    var m := expEnd - expStart;
    var bm, bn := pass.cfg.blockM, pass.cfg.blockN;
    if m <= 0 {
      IdleTile(pass, expId, pid, Contents(C));
      return;
    }
    var grid := TileGrid(Cdiv(PaddedRows(pass.numTokens), bm), Cdiv(pass.n, bn), pass.cfg.groupM);
    var pidM, pidN := TileOf(grid, pid).0, TileOf(grid, pid).1;
    ColumnTileInRange(pidN, grid.numPidN, bn, pass.n);
    if pidM * bm >= m || pidN * bn >= pass.n {
      IdleTile(pass, expId, pid, Contents(C));
      return;
    }
    var offsSid, maskSid, offsCm, offsBn, c := ComputeTile(pass, expId, pid);
    WriteTile(pass, C, expId, pid, offsSid, maskSid, offsCm, offsBn, c);
  }

  /** The masked store of a computed tile applies exactly that program's effect. */
  method WriteTile(pass: Pass, C: array2<real>, expId: nat, pid: nat, offsSid: seq<int>, maskSid: seq<bool>,
                   offsCm: seq<int>, offsBn: seq<int>, c: seq<seq<real>>)
    requires pass.Valid() && pass.Fits(C.Length0) && C.Length1 == pass.n && pass.RowsDistinct()
    requires expId < |pass.b| && pid < pass.Grid().Size()
    requires |offsSid| == |maskSid| == |offsCm| == |c| == pass.cfg.blockM && Shaped(c, |offsBn|)
    requires forall i :: 0 <= i < |offsSid| ==> offsSid[i] == pass.TileBase(expId, pid) + i
    requires forall i :: 0 <= i < |offsSid| ==> maskSid[i] == (offsSid[i] < pass.End(expId))
    requires forall i :: 0 <= i < |offsSid| && maskSid[i] ==>
               0 <= offsSid[i] < |pass.sortedIdx| && offsCm[i] == pass.CRow(offsSid[i])
    requires offsBn == pass.Columns(pid) && forall j :: 0 <= j < |offsBn| ==> 0 <= offsBn[j] < pass.n
    requires forall i, j :: 0 <= i < |c| && 0 <= j < |offsBn| && maskSid[i] ==>
               c[i][j] == pass.Expected(expId, offsSid[i], offsBn[j])
    modifies C
    ensures TileApplied(pass, expId, pid, old(Contents(C)), Contents(C))
  {
    var bm := pass.cfg.blockM;
    ghost var want := seq(bm, i requires 0 <= i < bm =>
      seq(pass.n, col requires 0 <= col < pass.n => if maskSid[i] then pass.Expected(expId, offsSid[i], col) else 0.0));
    ghost var before := Contents(C);
    LanesDistinct(pass, offsSid, maskSid, offsCm);
    StoreTile(C, offsCm, maskSid, offsBn, c, want);
    TileFromLanes(pass, expId, pid, offsSid, maskSid, offsCm, offsBn, want, before, Contents(C));
  }

  /**
   * The tile of program `pid` for expert `expId`, before the store: the
   * lanes' sorted positions and mask, their output rows, the tile's output
   * columns, and on every unmasked lane the dot product of its input row
   * with each column's weight row, times the slot's routing weight when
   * weights are enabled.
   */
  method ComputeTile(pass: Pass, expId: nat, pid: nat)
    returns (offsSid: seq<int>, maskSid: seq<bool>, offsCm: seq<int>, offsBn: seq<int>, c: seq<seq<real>>)
    requires pass.Valid() && expId < |pass.b| && pid < pass.Grid().Size()
    ensures |offsSid| == |maskSid| == |offsCm| == |c| == pass.cfg.blockM && Shaped(c, |offsBn|)
    ensures forall i :: 0 <= i < |offsSid| ==> offsSid[i] == pass.TileBase(expId, pid) + i
    ensures forall i :: 0 <= i < |offsSid| ==> maskSid[i] == (offsSid[i] < pass.End(expId))
    ensures forall i :: 0 <= i < |offsSid| && maskSid[i] ==>
              0 <= offsSid[i] < |pass.sortedIdx| && offsCm[i] == pass.CRow(offsSid[i])
    ensures offsBn == pass.Columns(pid) && forall j :: 0 <= j < |offsBn| ==> 0 <= offsBn[j] < pass.n
    ensures forall i, j :: 0 <= i < |c| && 0 <= j < |offsBn| && maskSid[i] ==>
              c[i][j] == pass.Expected(expId, offsSid[i], offsBn[j])
  {
    var sid, offsAm;
    offsSid, maskSid, sid, offsAm, offsCm, offsBn := TileLanes(pass, expId, pid);
    var acc := Accumulate(pass.a, pass.b[expId], maskSid, offsAm, offsBn, pass.k, pass.cfg.blockK);
    c := acc;
    if pass.enableWeights {
      var weight := seq(pass.cfg.blockM, i requires 0 <= i < pass.cfg.blockM => if maskSid[i] then pass.weights[sid[i]] else 0.0);
      c := Scale(acc, weight);
      TileValues(pass, expId, offsSid, maskSid, sid, offsAm, offsBn, acc, weight, c);
    } else {
      TileValues(pass, expId, offsSid, maskSid, sid, offsAm, offsBn, acc, [], c);
    }
  }

  /**
   * The lane vectors of one program: sorted positions, their mask, the slot
   * each unmasked lane holds, the input and output rows it addresses, and
   * the tile's output columns.
   */
  method TileLanes(pass: Pass, expId: nat, pid: nat)
    returns (offsSid: seq<int>, maskSid: seq<bool>, sid: seq<int>, offsAm: seq<int>, offsCm: seq<int>, offsBn: seq<int>)
    requires pass.Valid() && expId < |pass.b| && pid < pass.Grid().Size()
    ensures |offsSid| == |maskSid| == |sid| == |offsAm| == |offsCm| == pass.cfg.blockM
    ensures forall i :: 0 <= i < |offsSid| ==> offsSid[i] == pass.TileBase(expId, pid) + i
    ensures forall i :: 0 <= i < |offsSid| ==> maskSid[i] == (offsSid[i] < pass.End(expId))
    ensures forall i :: 0 <= i < |offsSid| && maskSid[i] ==>
              && 0 <= offsSid[i] < |pass.sortedIdx| && pass.InTileRows(expId, pid, offsSid[i])
              && sid[i] == pass.sortedIdx[offsSid[i]]
              && offsAm[i] == pass.ARow(offsSid[i]) && offsCm[i] == pass.CRow(offsSid[i])
              && 0 <= offsAm[i] < |pass.a| && |pass.a[offsAm[i]]| == pass.k
    ensures offsBn == pass.Columns(pid)
    ensures forall j :: 0 <= j < |offsBn| ==> 0 <= offsBn[j] < pass.n
  {
    pass.GridValid(pid);
    var bm, bn := pass.cfg.blockM, pass.cfg.blockN;
    var expStart := pass.expStart[expId + pass.expertOffset];
    var expEnd := pass.expEnd[expId + pass.expertOffset];
    var pidM, pidN := pass.Tile(pid).0, pass.Tile(pid).1;
    var rowBase := expStart + pidM * bm;
    assert rowBase == pass.TileBase(expId, pid);
    offsSid := seq(bm, i requires 0 <= i < bm => rowBase + i);
    maskSid := seq(bm, i requires 0 <= i < bm => offsSid[i] < expEnd);
    sid := seq(bm, i requires 0 <= i < bm => if maskSid[i] then pass.sortedIdx[offsSid[i]] else 0);
    offsAm := if pass.reindexA then seq(bm, i requires 0 <= i < bm => sid[i] / pass.topK) else offsSid;
    var colBase := pidN * bn;
    offsBn := seq(bn, j requires 0 <= j < bn => (colBase + j) % pass.n);
    assert offsBn == pass.Columns(pid);
    offsCm := if pass.reindexC then sid else offsSid;
    LanesSound(pass, expId, pid, offsSid, maskSid, sid, offsAm, offsCm);
  }

  /** A program whose row tile starts at or past its segment's length changes nothing. */
  lemma IdleTile(pass: Pass, expId: nat, pid: nat, v: seq<seq<real>>)
    requires pass.Valid() && expId < |pass.b| && pid < pass.Grid().Size()
    requires pass.Fits(|v|) && Shaped(v, pass.n)
    requires pass.End(expId) <= pass.TileBase(expId, pid)
    ensures TileApplied(pass, expId, pid, v, v)
  {
  }

  /**
   * The lanes of a program's tile: lane `i` is sorted position
   * `start + pid_m * BM + i`, unmasked exactly when that position is inside
   * the segment, and then reads input row `ARow` and stores to output row
   * `CRow` of that position.
   */
  lemma LanesSound(pass: Pass, expId: nat, pid: nat, offsSid: seq<int>, maskSid: seq<bool>, sid: seq<int>,
                   offsAm: seq<int>, offsCm: seq<int>)
    requires pass.Valid() && expId < |pass.b| && pid < pass.Grid().Size()
    requires 0 <= pass.Start(expId) <= pass.TileBase(expId, pid) && pass.End(expId) <= |pass.sortedIdx|
    requires |offsSid| == |maskSid| == |sid| == |offsAm| == |offsCm| == pass.cfg.blockM
    requires forall i :: 0 <= i < |offsSid| ==>
               offsSid[i] == pass.TileBase(expId, pid) + i
    requires forall i :: 0 <= i < |offsSid| ==> maskSid[i] == (offsSid[i] < pass.End(expId))
    requires forall i :: 0 <= i < |offsSid| && maskSid[i] ==> sid[i] == pass.sortedIdx[offsSid[i]]
    requires forall i :: 0 <= i < |offsSid| && maskSid[i] ==>
               offsAm[i] == if pass.reindexA then sid[i] / pass.topK else offsSid[i]
    requires forall i :: 0 <= i < |offsSid| && maskSid[i] ==>
               offsCm[i] == if pass.reindexC then sid[i] else offsSid[i]
    ensures forall i :: 0 <= i < |offsSid| && maskSid[i] ==>
              && 0 <= offsSid[i] < |pass.sortedIdx| && pass.InTileRows(expId, pid, offsSid[i])
              && offsAm[i] == pass.ARow(offsSid[i]) && offsCm[i] == pass.CRow(offsSid[i])
              && 0 <= offsAm[i] < |pass.a| && |pass.a[offsAm[i]]| == pass.k
  {
    forall i | 0 <= i < |offsSid| && maskSid[i]
      ensures 0 <= offsSid[i] < |pass.sortedIdx| && pass.InTileRows(expId, pid, offsSid[i])
      ensures offsAm[i] == pass.ARow(offsSid[i]) && offsCm[i] == pass.CRow(offsSid[i])
      ensures 0 <= offsAm[i] < |pass.a| && |pass.a[offsAm[i]]| == pass.k
    {
      assert 0 <= offsSid[i] < |pass.sortedIdx|;
    }
  }

  /**
   * The computed tile, scaled by the routing weight of each lane's slot when
   * weights are enabled, holds on every unmasked lane the value that lane
   * owes each of its columns.
   */
  lemma TileValues(pass: Pass, expId: nat, offsSid: seq<int>, maskSid: seq<bool>, sid: seq<int>, offsAm: seq<int>,
                   offsBn: seq<int>, acc: seq<seq<real>>, weight: seq<real>, c: seq<seq<real>>)
    requires pass.Valid() && expId < |pass.b|
    requires |offsSid| == |maskSid| == |sid| == |offsAm| == |acc| && Shaped(acc, |offsBn|)
    requires forall i :: 0 <= i < |offsSid| && maskSid[i] ==>
               && 0 <= offsSid[i] < |pass.sortedIdx|
               && offsAm[i] == pass.ARow(offsSid[i]) && sid[i] == pass.sortedIdx[offsSid[i]]
    requires forall j :: 0 <= j < |offsBn| ==> 0 <= offsBn[j] < pass.n
    requires forall i, j {:trigger acc[i][j]} :: 0 <= i < |acc| && 0 <= j < |offsBn| ==>
               acc[i][j] == if maskSid[i] then Dot(pass.a[offsAm[i]], pass.b[expId][offsBn[j]], pass.k) else 0.0
    requires pass.enableWeights ==> |weight| == |acc| && c == Scale(acc, weight)
    requires pass.enableWeights ==> forall i :: 0 <= i < |offsSid| && maskSid[i] ==> weight[i] == pass.weights[sid[i]]
    requires !pass.enableWeights ==> c == acc
    ensures |c| == |acc| && Shaped(c, |offsBn|)
    ensures forall i, j :: 0 <= i < |c| && 0 <= j < |offsBn| && maskSid[i] ==>
              c[i][j] == pass.Expected(expId, offsSid[i], offsBn[j])
  {
    forall i, j | 0 <= i < |c| && 0 <= j < |offsBn| && maskSid[i]
      ensures c[i][j] == pass.Expected(expId, offsSid[i], offsBn[j])
    {
      assert acc[i][j] == Dot(pass.a[offsAm[i]], pass.b[expId][offsBn[j]], pass.k);
    }
  }

  /** Distinct unmasked lanes store to distinct output rows. */
  lemma LanesDistinct(pass: Pass, offsSid: seq<int>, maskSid: seq<bool>, offsCm: seq<int>)
    requires pass.Valid() && pass.RowsDistinct() && |offsSid| == |maskSid| == |offsCm|
    requires forall i :: 0 <= i < |offsSid| && maskSid[i] ==>
               0 <= offsSid[i] < |pass.sortedIdx| && offsCm[i] == pass.CRow(offsSid[i])
    requires forall i, i' :: 0 <= i < i' < |offsSid| ==> offsSid[i] < offsSid[i']
    ensures forall i, i' :: 0 <= i < i' < |offsSid| && maskSid[i] && maskSid[i'] ==> offsCm[i] != offsCm[i']
  {
  }

  /** The lanes' stores are exactly the effect `TileApplied` describes. */
  lemma TileFromLanes(pass: Pass, expId: nat, pid: nat, offsSid: seq<int>, maskSid: seq<bool>, offsCm: seq<int>,
                      offsBn: seq<int>, want: seq<seq<real>>, before: seq<seq<real>>, after: seq<seq<real>>)
    requires pass.Valid() && expId < |pass.b| && pid < pass.Grid().Size()
    requires pass.Fits(|before|) && Shaped(before, pass.n)
    requires |offsSid| == |maskSid| == |offsCm| == |want| == pass.cfg.blockM && Shaped(want, pass.n)
    requires forall i :: 0 <= i < |offsSid| ==>
               offsSid[i] == pass.TileBase(expId, pid) + i
    requires forall i :: 0 <= i < |offsSid| ==> maskSid[i] == (offsSid[i] < pass.End(expId))
    requires forall i :: 0 <= i < |offsSid| && maskSid[i] ==>
               0 <= offsSid[i] < |pass.sortedIdx| && offsCm[i] == pass.CRow(offsSid[i])
    requires forall i, col :: 0 <= i < |offsSid| && maskSid[i] && 0 <= col < pass.n ==>
               want[i][col] == pass.Expected(expId, offsSid[i], col)
    requires offsBn == pass.Columns(pid)
    requires StoredLanes(offsCm, maskSid, offsBn, want, pass.n, before, after)
    ensures TileApplied(pass, expId, pid, before, after)
  {
    forall p, col | 0 <= p < |pass.sortedIdx| && pass.InTileRows(expId, pid, p) && 0 <= col < pass.n
      ensures after[pass.CRow(p)][col]
              == if col in pass.Columns(pid) then pass.Expected(expId, p, col) else before[pass.CRow(p)][col]
    {
      var i := p - pass.TileBase(expId, pid);
      assert offsSid[i] == p && maskSid[i];
    }
    forall r, col | 0 <= r < |before| && 0 <= col < pass.n && !pass.TileRow(expId, pid, r)
      ensures after[r][col] == before[r][col]
    {
      forall i | 0 <= i < |offsCm| && maskSid[i]
        ensures offsCm[i] != r
      {
        assert pass.InTileRows(expId, pid, offsSid[i]);
      }
    }
  }

  /** A column tile of the grid starts inside the output width. */
  lemma ColumnTileInRange(pidN: nat, numPidN: nat, bn: nat, n: nat)
    requires bn > 0 && numPidN == Cdiv(n, bn) && pidN < numPidN
    ensures pidN * bn < n
  {
    MulMonotone(pidN, numPidN - 1, bn);
  }
}
