/**
 * `fused_moe_kernel_launcher`: one launch of the projection kernel over the
 * grid of (row tile times column tile) programs by local experts, with the
 * programs run one after another. The result is stated per output cell:
 * every sorted position inside the launched rows of its expert's segment
 * gets its owed value in every column, and every other row is untouched.
 */
module Launcher {
  import opened Tiles
  import opened Projection

  /**
   * Sorted position `p` lies in the segment of local expert `e` and within
   * the `cdiv(M_NP2, BM) * BM` rows the grid launches for that segment.
   */
  ghost predicate Covered(pass: Pass, e: nat, p: int)
    requires pass.Valid() && e < |pass.b|
  {
    pass.Start(e) <= p < pass.End(e) && p - pass.Start(e) < pass.Grid().numPidM * pass.cfg.blockM
  }

  /** Output row `r` is the row of some covered sorted position. */
  ghost predicate OwnedRow(pass: Pass, r: int)
    requires pass.Valid()
  {
    exists e: nat, p :: e < |pass.b| && 0 <= p < |pass.sortedIdx| && Covered(pass, e, p) && pass.CRow(p) == r
  }

  /** No sorted position lies in the segments of two local experts. */
  ghost predicate SegmentsDisjoint(pass: Pass)
    requires pass.Valid()
  {
    forall e1: nat, e2: nat, p ::
      e1 < e2 < |pass.b| && pass.InSegment(e1, p) ==> !pass.InSegment(e2, p)
  }

  /** The program id whose tile holds column `col` of covered position `p` of expert `e`. */
  ghost function CellPid(pass: Pass, e: nat, p: int, col: int): (pid: nat)
    requires pass.Valid() && e < |pass.b| && Covered(pass, e, p) && 0 <= col < pass.n
    ensures pid < pass.Grid().Size()
  {
    CellTile(pass, e, p, col);
    TileOfPidOf(pass.Grid(), (p - pass.Start(e)) / pass.cfg.blockM, col / pass.cfg.blockN);
    PidOf(pass.Grid(), (p - pass.Start(e)) / pass.cfg.blockM, col / pass.cfg.blockN)
  }

  /** The tile coordinates of a covered cell are inside the grid. */
  lemma CellTile(pass: Pass, e: nat, p: int, col: int)
    requires pass.Valid() && e < |pass.b| && Covered(pass, e, p) && 0 <= col < pass.n
    ensures pass.Grid().Valid()
    ensures 0 <= (p - pass.Start(e)) / pass.cfg.blockM < pass.Grid().numPidM
    ensures 0 <= col / pass.cfg.blockN < pass.Grid().numPidN
  {
    var g := pass.Grid();
    assert g.numPidN * pass.cfg.blockN >= pass.n;
    CellCoords(p - pass.Start(e), pass.cfg.blockM, g.numPidM, col, pass.cfg.blockN, g.numPidN, pass.n);
  }

  /** The program `(pid, expId)` comes after the one computing the cell `(e, p, col)`. */
  ghost predicate Before(pass: Pass, e: nat, p: int, col: int, expId: nat, pid: nat)
    requires pass.Valid() && e < |pass.b| && Covered(pass, e, p) && 0 <= col < pass.n
  {
    e < expId || (e == expId && CellPid(pass, e, p, col) < pid)
  }

  /**
   * The launch has run every program before `(pid, expId)`: every cell those
   * programs compute holds its owed value, and every row no program owns
   * still holds its initial contents.
   */
  ghost predicate Progress(pass: Pass, expId: nat, pid: nat, init: seq<seq<real>>, cur: seq<seq<real>>)
    requires pass.Valid() && pass.Fits(|init|) && Shaped(init, pass.n)
  {
    && |cur| == |init| && Shaped(cur, pass.n)
    && (forall e: nat, p, col ::
          e < |pass.b| && 0 <= p < |pass.sortedIdx| && Covered(pass, e, p) && 0 <= col < pass.n
          && Before(pass, e, p, col, expId, pid) ==>
          cur[pass.CRow(p)][col] == pass.Expected(e, p, col))
    && (forall r, col :: 0 <= r < |init| && 0 <= col < pass.n && !OwnedRow(pass, r) ==>
          cur[r][col] == init[r][col])
  }

  /**
   * What one launch leaves in the output `cur`, which held `init` before:
   * every covered cell holds its owed value, and every row that no covered
   * position owns is unchanged.
   */
  ghost predicate PassResult(pass: Pass, init: seq<seq<real>>, cur: seq<seq<real>>)
    requires pass.Valid() && pass.Fits(|init|) && Shaped(init, pass.n)
  {
    && |cur| == |init| && Shaped(cur, pass.n)
    && (forall e: nat, p, col ::
          e < |pass.b| && 0 <= p < |pass.sortedIdx| && Covered(pass, e, p) && 0 <= col < pass.n ==>
          cur[pass.CRow(p)][col] == pass.Expected(e, p, col))
    && (forall r, col :: 0 <= r < |init| && 0 <= col < pass.n && !OwnedRow(pass, r) ==>
          cur[r][col] == init[r][col])
  }

  /**
   * The launcher: `cdiv(M_NP2, BM) * cdiv(N, BN)` programs for each of the
   * `E` local experts. Afterwards every covered sorted position's output row
   * holds, in every column, the dot product of its input row with that
   * column's weight row (times its routing weight when enabled); every row
   * that no covered position owns is unchanged.
   */
  method ProjectionPass(pass: Pass, C: array2<real>)
    requires pass.Valid() && pass.Fits(C.Length0) && C.Length1 == pass.n
    requires pass.RowsDistinct() && SegmentsDisjoint(pass)
    modifies C
    ensures PassResult(pass, old(Contents(C)), Contents(C))
  {
    var grid := Grid(pass.numTokens, pass.n, |pass.b|, pass.cfg);
    ghost var init := Contents(C);
    var expId := 0;
    while expId < grid.1
      invariant 0 <= expId <= grid.1 == |pass.b|
      invariant Progress(pass, expId, 0, init, Contents(C))
    {
      var pid := 0;
      while pid < grid.0
        invariant 0 <= pid <= grid.0 == pass.Grid().Size()
        invariant Progress(pass, expId, pid, init, Contents(C))
      {
        ghost var before := Contents(C);
        ProgramInstance(pass, C, expId, pid);
        ProgressStep(pass, expId, pid, init, before, Contents(C));
        pid := pid + 1;
      }
      NextExpert(pass, expId, init, Contents(C));
      expId := expId + 1;
    }
    Finished(pass, init, Contents(C));
  }

  /** Running program `(pid, expId)` advances the progress by one program. */
  lemma ProgressStep(pass: Pass, expId: nat, pid: nat, init: seq<seq<real>>, before: seq<seq<real>>,
                     after: seq<seq<real>>)
    requires pass.Valid() && pass.Fits(|init|) && Shaped(init, pass.n)
    requires pass.RowsDistinct() && SegmentsDisjoint(pass)
    requires expId < |pass.b| && pid < pass.Grid().Size()
    requires Progress(pass, expId, pid, init, before)
    requires TileApplied(pass, expId, pid, before, after)
    ensures Progress(pass, expId, pid + 1, init, after)
  {
    forall e: nat, p, col |
      e < |pass.b| && 0 <= p < |pass.sortedIdx| && Covered(pass, e, p) && 0 <= col < pass.n
      && Before(pass, e, p, col, expId, pid + 1)
      ensures after[pass.CRow(p)][col] == pass.Expected(e, p, col)
    {
      if Before(pass, e, p, col, expId, pid) {
        CellKept(pass, expId, pid, e, p, col, before, after);
      } else {
        CellDone(pass, expId, pid, p, col, before, after);
      }
    }
    forall r, col | 0 <= r < |init| && 0 <= col < pass.n && !OwnedRow(pass, r)
      ensures after[r][col] == init[r][col]
    {
      if pass.TileRow(expId, pid, r) {
        var p :| 0 <= p < |pass.sortedIdx| && pass.InTileRows(expId, pid, p) && pass.CRow(p) == r;
        TileRowCovered(pass, expId, pid, p);
      }
    }
  }

  /** A row of a program's tile is covered. */
  lemma TileRowCovered(pass: Pass, expId: nat, pid: nat, p: int)
    requires pass.Valid() && expId < |pass.b| && pid < pass.Grid().Size()
    requires pass.InTileRows(expId, pid, p)
    ensures Covered(pass, expId, p)
  {
    RowTileBelow(pass.Tile(pid).0, pass.Grid().numPidM, pass.cfg.blockM, p - pass.Start(expId));
  }

  /** An offset inside row tile `pm < m` is below `m * bm`. */
  lemma RowTileBelow(pm: nat, m: nat, bm: nat, d: int)
    requires pm < m && d < pm * bm + bm
    ensures d < m * bm
  {
    MulMonotone(pm + 1, m, bm);
  }

  /**
   * A cell computed earlier keeps its value: the current program can only
   * touch its row through the same sorted position, hence the same expert,
   * and then stores the same value.
   */
  lemma CellKept(pass: Pass, expId: nat, pid: nat, e: nat, p: int, col: int, before: seq<seq<real>>,
                 after: seq<seq<real>>)
    requires pass.Valid() && pass.Fits(|before|) && Shaped(before, pass.n)
    requires pass.RowsDistinct() && SegmentsDisjoint(pass)
    requires expId < |pass.b| && pid < pass.Grid().Size()
    requires e < |pass.b| && 0 <= p < |pass.sortedIdx| && Covered(pass, e, p) && 0 <= col < pass.n
    requires before[pass.CRow(p)][col] == pass.Expected(e, p, col)
    requires TileApplied(pass, expId, pid, before, after)
    ensures after[pass.CRow(p)][col] == pass.Expected(e, p, col)
  {
    if pass.TileRow(expId, pid, pass.CRow(p)) {
      var q :| 0 <= q < |pass.sortedIdx| && pass.InTileRows(expId, pid, q) && pass.CRow(q) == pass.CRow(p);
      RowInjective(pass, p, q);
      SameExpert(pass, e, expId, p);
    }
  }

  /** Distinct sorted positions store to distinct output rows. */
  lemma RowInjective(pass: Pass, p: int, q: int)
    requires pass.Valid() && pass.RowsDistinct()
    requires 0 <= p < |pass.sortedIdx| && 0 <= q < |pass.sortedIdx| && pass.CRow(p) == pass.CRow(q)
    ensures p == q
  {
  }

  /** A position in the segments of two local experts names one expert twice. */
  lemma SameExpert(pass: Pass, e1: nat, e2: nat, p: int)
    requires pass.Valid() && SegmentsDisjoint(pass) && e1 < |pass.b| && e2 < |pass.b|
    requires pass.InSegment(e1, p) && pass.InSegment(e2, p)
    ensures e1 == e2
  {
  }

  /** The cell the current program owns gets its owed value. */
  lemma CellDone(pass: Pass, expId: nat, pid: nat, p: int, col: int, before: seq<seq<real>>, after: seq<seq<real>>)
    requires pass.Valid() && pass.Fits(|before|) && Shaped(before, pass.n)
    requires expId < |pass.b| && pid < pass.Grid().Size()
    requires 0 <= p < |pass.sortedIdx| && Covered(pass, expId, p) && 0 <= col < pass.n
    requires CellPid(pass, expId, p, col) == pid
    requires TileApplied(pass, expId, pid, before, after)
    ensures after[pass.CRow(p)][col] == pass.Expected(expId, p, col)
  {
    CellOwned(pass, expId, p, col);
  }

  /** A covered cell is a row and a column of the tile of the program assigned to it. */
  lemma CellOwned(pass: Pass, e: nat, p: int, col: int)
    requires pass.Valid() && e < |pass.b| && Covered(pass, e, p) && 0 <= col < pass.n
    ensures pass.InTileRows(e, CellPid(pass, e, p, col), p)
    ensures col in pass.Columns(CellPid(pass, e, p, col))
  {
    var pid := CellPid(pass, e, p, col);
    var d := p - pass.Start(e);
    CellTile(pass, e, p, col);
    TileIs(pass, pid, d / pass.cfg.blockM, col / pass.cfg.blockN);
    DivBracket(d, pass.cfg.blockM);
    CellInColumns(pass, col, pid);
  }

  /** `d` lies in the block of `bm` entries its quotient names. */
  lemma DivBracket(d: int, bm: int)
    requires bm > 0
    ensures (d / bm) * bm <= d < (d / bm) * bm + bm
  {
  }

  /** The program numbered by tile `(pm, pn)` has that tile. */
  lemma TileIs(pass: Pass, pid: nat, pm: nat, pn: nat)
    requires pass.cfg.Valid() && pass.Grid().Valid()
    requires pm < pass.Grid().numPidM && pn < pass.Grid().numPidN && PidOf(pass.Grid(), pm, pn) == pid
    ensures pid < pass.Grid().Size() && pass.Tile(pid) == (pm, pn)
  {
    TileOfPidOf(pass.Grid(), pm, pn);
  }

  /** A column is one of the columns of the tile whose column index is its quotient by `BN`. */
  lemma CellInColumns(pass: Pass, col: int, pid: nat)
    requires pass.cfg.Valid() && 0 <= col < pass.n
    requires pid < pass.Grid().Size() && pass.Tile(pid).1 == col / pass.cfg.blockN
    ensures col in pass.Columns(pid)
  {
    var bn := pass.cfg.blockN;
    ColumnBack(col, bn, pass.n);
    assert pass.Columns(pid)[col % bn] == col;
  }

  /** Quotient and remainder of a column rebuild it, and the wrap modulo `n` leaves it alone. */
  lemma ColumnBack(col: int, bn: int, n: int)
    requires bn > 0 && 0 <= col < n
    ensures 0 <= col % bn < bn && ((col / bn) * bn + col % bn) % n == col
  {
    DivModUnique(col, n, 0, col);
  }

  /** Finishing every program of expert `expId` is progress up to the next expert. */
  lemma NextExpert(pass: Pass, expId: nat, init: seq<seq<real>>, cur: seq<seq<real>>)
    requires pass.Valid() && pass.Fits(|init|) && Shaped(init, pass.n)
    requires Progress(pass, expId, pass.Grid().Size(), init, cur)
    ensures Progress(pass, expId + 1, 0, init, cur)
  {
  }

  /** After the last expert every covered cell holds its owed value. */
  lemma Finished(pass: Pass, init: seq<seq<real>>, cur: seq<seq<real>>)
    requires pass.Valid() && pass.Fits(|init|) && Shaped(init, pass.n)
    requires Progress(pass, |pass.b|, 0, init, cur)
    ensures PassResult(pass, init, cur)
  {
  }

  /**
   * When a segment is no longer than the token count, every position of it
   * is covered: the grid launches `cdiv(M_NP2, BM) * BM >= M_NP2 >= tokens`
   * rows per expert.
   */
  lemma FullCoverage(pass: Pass, e: nat)
    requires pass.Valid() && e < |pass.b|
    requires pass.End(e) - pass.Start(e) <= pass.numTokens
    ensures forall p :: pass.Start(e) <= p < pass.End(e) ==> Covered(pass, e, p)
  {
  }
}
