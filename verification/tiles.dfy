/**
 * The tile scheduler of the fused MoE projection kernel: the launch grid of
 * the launcher, and the mapping of a flat program id to a (row-tile,
 * column-tile) pair, plain or grouped into bands of `GROUP_SIZE_M` row tiles.
 */
module Tiles {

  /** Ceiling division, as `cdiv` computes it for non-negative operands. */
  function Cdiv(a: nat, b: nat): (q: nat)
    requires b > 0
    ensures q * b >= a
    ensures q > 0 ==> (q - 1) * b < a
  {
    CdivBounds(a, b);
    (a + b - 1) / b
  }

  lemma CdivBounds(a: nat, b: nat)
    requires b > 0
    ensures ((a + b - 1) / b) * b >= a
    ensures (a + b - 1) / b > 0 ==> ((a + b - 1) / b - 1) * b < a
  {
    var q, r := (a + b - 1) / b, (a + b - 1) % b;
    assert a + b - 1 == q * b + r;
    assert (q - 1) * b == q * b - b;
  }

  /** `p` is a power of two. */
  ghost predicate IsPowerOfTwo(p: nat)
    decreases p
  {
    p == 1 || (p >= 2 && p % 2 == 0 && IsPowerOfTwo(p / 2))
  }

  /**
   * The smallest power of two not below `n`, as the launcher's
   * `next_power_of_2` rounds the token count. Triton's `next_power_of_2(0)`
   * is 0 while this gives 1; `PaddedRows` raises both to 64, so the
   * difference never reaches a launch.
   */
  function NextPowerOfTwo(n: nat): (p: nat)
    ensures IsPowerOfTwo(p) && p >= n
    ensures p == 1 || p / 2 < n
  {
    PowerOfTwoFrom(n, 1)
  }

  function PowerOfTwoFrom(n: nat, p: nat): (r: nat)
    requires IsPowerOfTwo(p) && (p == 1 || p / 2 < n)
    ensures IsPowerOfTwo(r) && r >= n
    ensures r == 1 || r / 2 < n
    decreases n - p
  {
    if p >= n then p else PowerOfTwoFrom(n, 2 * p)
  }

  /** `M_NP2`: the token count rounded up to a power of two, at least 64. */
  function PaddedRows(numTokens: nat): (m: nat)
    ensures m >= 64 && m >= numTokens && IsPowerOfTwo(m)
    ensures m == 64 || m / 2 < numTokens
  {
    var p := NextPowerOfTwo(numTokens);
    if p < 64 then 64 else p
  }

  /** The tile sizes one launch of the projection kernel uses. */
  datatype TileConfig = TileConfig(blockM: nat, blockN: nat, blockK: nat, groupM: nat)
  {
    ghost predicate Valid()
    {
      blockM > 0 && blockN > 0 && blockK > 0 && groupM > 0
    }
  }

  /**
   * The launch grid: along the first axis one program per tile of an
   * expert's tile grid, along the second one per local expert. Every row
   * offset below `numTokens` and every column below `n` is in the tile of a
   * launched program, so a segment of at most `numTokens` positions is
   * computed in full.
   */
  function Grid(numTokens: nat, n: nat, numLocalExperts: nat, cfg: TileConfig): (g: (nat, nat))
    requires cfg.Valid()
    ensures g.0 == Cdiv(PaddedRows(numTokens), cfg.blockM) * Cdiv(n, cfg.blockN) && g.1 == numLocalExperts
    ensures g.0 == ExpertGrid(numTokens, n, cfg).Size()
    ensures forall d: nat, col: nat :: d < numTokens && col < n ==> CellProgram(numTokens, n, cfg, d, col) < g.0
  {
    (Cdiv(PaddedRows(numTokens), cfg.blockM) * Cdiv(n, cfg.blockN), numLocalExperts)
  }

  /**
   * The tile grid of one expert: `cdiv(M_NP2, BM)` row tiles, which span at
   * least `numTokens` rows, by `cdiv(N, BN)` column tiles, which span `N`.
   */
  function ExpertGrid(numTokens: nat, n: nat, cfg: TileConfig): (grid: TileGrid)
    requires cfg.Valid()
    ensures grid.numPidM * cfg.blockM >= numTokens && grid.numPidN * cfg.blockN >= n
    ensures grid.numPidM > 0 && grid.groupM == cfg.groupM
  {
    var m := Cdiv(PaddedRows(numTokens), cfg.blockM);
    MulSign(m, cfg.blockM);
    TileGrid(m, Cdiv(n, cfg.blockN), cfg.groupM)
  }

  /**
   * The program of an expert's grid whose tile holds row offset `d` and
   * column `col`: the one at row tile `d // BM` and column tile `col // BN`.
   */
  function CellProgram(numTokens: nat, n: nat, cfg: TileConfig, d: nat, col: nat): (pid: nat)
    requires cfg.Valid() && d < numTokens && col < n
    ensures pid < ExpertGrid(numTokens, n, cfg).Size()
    ensures TileOf(ExpertGrid(numTokens, n, cfg), pid) == (d / cfg.blockM, col / cfg.blockN)
  {
    var grid := ExpertGrid(numTokens, n, cfg);
    CellCoords(d, cfg.blockM, grid.numPidM, col, cfg.blockN, grid.numPidN, n);
    TileOfPidOf(grid, d / cfg.blockM, col / cfg.blockN);
    PidOf(grid, d / cfg.blockM, col / cfg.blockN)
  }

  /** Sign facts about a product with a positive factor. */
  lemma MulSign(k: int, d: int)
    requires d > 0
    ensures k >= 1 ==> k * d >= d
    ensures k <= 0 ==> k * d <= 0
    ensures k <= -1 ==> k * d <= -d
  {
  }

  /** Multiplying by a non-negative factor keeps an order. */
  lemma MulMonotone(a: int, b: int, c: int)
    requires c >= 0
    ensures a <= b ==> a * c <= b * c
  {
    MulNonNegative(b - a, c);
  }

  lemma MulNonNegative(a: int, c: int)
    requires c >= 0
    ensures a >= 0 ==> a * c >= 0
  {
  }

  /** `x == q * d + r` with `0 <= r < d` determines quotient and remainder. */
  lemma DivModUnique(x: int, d: int, q: int, r: int)
    requires d > 0 && 0 <= r < d && x == q * d + r
    ensures x / d == q && x % d == r
  {
    var q', r' := x / d, x % d;
    assert x == q' * d + r';
    assert (q - q') * d == r' - r;
    MulSign(q - q', d);
  }

  /** Adding a multiple of `d` does not change a remainder modulo `d`. */
  lemma ModAddMultiple(x: int, k: int, d: int)
    requires d > 0
    ensures (x + k * d) % d == x % d
  {
    assert x + k * d == (x / d + k) * d + x % d;
    DivModUnique(x + k * d, d, x / d + k, x % d);
  }

  /** `x < a * b` with `a > 0` gives `x / a < b`. */
  lemma DivBelow(x: nat, a: nat, b: nat)
    requires a > 0 && x < a * b
    ensures x / a < b
  {
    var q := x / a;
    assert q * a <= x;
    assert (b - q) * a == a * b - q * a;
    MulSign(b - q, a);
  }

  /** A row offset and a column inside the span of an `m` by `nn` tile grid have tile coordinates inside it. */
  lemma CellCoords(d: int, bm: nat, m: nat, col: int, bn: nat, nn: nat, n: nat)
    requires bm > 0 && bn > 0 && 0 <= d < m * bm && 0 <= col < n && nn * bn >= n
    ensures m > 0 && nn > 0
    ensures 0 <= d / bm < m && 0 <= col / bn < nn
  {
    DivBelow(d, bm, m);
    MulSign(nn, bn);
    DivBelow(col, bn, nn);
  }

  /** Shape of a tile grid of `m` by `n` tiles, grouped by `g` row tiles. */
  datatype TileGrid = TileGrid(numPidM: nat, numPidN: nat, groupM: nat)
  {
    ghost predicate Valid()
    {
      numPidM > 0 && numPidN > 0 && groupM > 0
    }

    function Size(): nat
    {
      numPidM * numPidN
    }
  }

  /**
   * A band of row tiles: its index, first row tile, number of row tiles (the
   * last band may be short) and first program id.
   */
  datatype Band = Band(groupId: nat, first: nat, size: nat, base: nat)

  /** The band a launched program id falls in. */
  function BandOfPid(grid: TileGrid, pid: nat): (b: Band)
    requires grid.Valid() && pid < grid.Size()
    ensures b.groupId == pid / (grid.groupM * grid.numPidN)
    ensures b.first == b.groupId * grid.groupM && b.base == b.groupId * (grid.groupM * grid.numPidN)
    ensures b.first < grid.numPidM && b.size == BandSize(grid, b.first)
    ensures 0 < b.size <= grid.groupM && b.first + b.size <= grid.numPidM
    ensures b.base <= pid && pid % (grid.groupM * grid.numPidN) == pid - b.base
    ensures pid - b.base < b.size * grid.numPidN
  {
    LocalBelowBand(grid, pid);
    var nig := grid.groupM * grid.numPidN;
    var groupId := pid / nig;
    var first := groupId * grid.groupM;
    Band(groupId, first, BandSize(grid, first), groupId * nig)
  }

  /** The band a row tile falls in. */
  function BandOfRow(grid: TileGrid, pidM: nat): (b: Band)
    requires grid.Valid() && pidM < grid.numPidM
    ensures b.groupId == pidM / grid.groupM
    ensures b.first == b.groupId * grid.groupM && b.base == b.groupId * (grid.groupM * grid.numPidN)
    ensures b.first <= pidM < b.first + b.size && b.size == BandSize(grid, b.first)
    ensures 0 < b.size <= grid.groupM && b.first + b.size <= grid.numPidM
    ensures b.base + b.size * grid.numPidN <= grid.Size()
  {
    var g, n := grid.groupM, grid.numPidN;
    var groupId := pidM / g;
    var first := groupId * g;
    assert first <= pidM < first + g;
    BandFitsGrid(grid, groupId);
    Band(groupId, first, BandSize(grid, first), groupId * (g * n))
  }

  /** A band that starts inside the grid ends inside it. */
  lemma BandFitsGrid(grid: TileGrid, groupId: nat)
    requires grid.Valid() && groupId * grid.groupM < grid.numPidM
    ensures groupId * (grid.groupM * grid.numPidN) + BandSize(grid, groupId * grid.groupM) * grid.numPidN <= grid.Size()
  {
    var g, n, m := grid.groupM, grid.numPidN, grid.numPidM;
    var first := groupId * g;
    var size := BandSize(grid, first);
    assert groupId * (g * n) == first * n;
    assert first * n + size * n == (first + size) * n;
    MulMonotone(first + size, m, n);
  }

  /**
   * The tile `(pid_m, pid_n)` that program `pid` computes: column-major
   * order when `groupM == 1`; otherwise bands of `groupM` row tiles (fewer
   * in the last band), each band walked down its rows for every column tile.
   */
  function TileOf(grid: TileGrid, pid: nat): (t: (nat, nat))
    requires grid.Valid() && pid < grid.Size()
    ensures t.0 < grid.numPidM && t.1 < grid.numPidN
  {
    var m, n, g := grid.numPidM, grid.numPidN, grid.groupM;
    if g == 1 then
      PlainTileInGrid(grid, pid);
      (pid % m, pid / m)
    else
      var band := BandOfPid(grid, pid);
      GroupedTileInGrid(grid, pid);
      (band.first + pid % band.size, (pid % (g * n)) / band.size)
  }

  /** The plain mapping's `pid_m` and `pid_n` lie inside the grid. */
  lemma PlainTileInGrid(grid: TileGrid, pid: nat)
    requires grid.Valid() && pid < grid.Size()
    ensures 0 <= pid % grid.numPidM < grid.numPidM && 0 <= pid / grid.numPidM < grid.numPidN
  {
    DivBelow(pid, grid.numPidM, grid.numPidN);
  }

  /** The grouped mapping's `pid_m` and `pid_n` lie inside the grid. */
  lemma GroupedTileInGrid(grid: TileGrid, pid: nat)
    requires grid.Valid() && pid < grid.Size()
    ensures 0 <= BandOfPid(grid, pid).first + pid % BandOfPid(grid, pid).size < grid.numPidM
    ensures 0 <= (pid % (grid.groupM * grid.numPidN)) / BandOfPid(grid, pid).size < grid.numPidN
  {
    var band := BandOfPid(grid, pid);
    DivBelow(pid % (grid.groupM * grid.numPidN), band.size, grid.numPidN);
  }

  /** Band size of the band starting at row tile `first`. */
  function BandSize(grid: TileGrid, first: nat): nat
    requires first < grid.numPidM
  {
    if grid.numPidM - first < grid.groupM then grid.numPidM - first else grid.groupM
  }

  /** The band of an in-range program starts at a row tile that exists. */
  lemma GroupInRange(grid: TileGrid, pid: nat)
    requires grid.Valid() && pid < grid.Size()
    ensures (pid / (grid.groupM * grid.numPidN)) * grid.groupM < grid.numPidM
  {
    var m, n, g := grid.numPidM, grid.numPidN, grid.groupM;
    var nig := g * n;
    MulSign(g, n);
    var groupId := pid / nig;
    assert groupId * nig <= pid;
    assert groupId * nig == (groupId * g) * n;
    MulMonotone(m, groupId * g, n);
  }

  /** Within its band, a program's offset stays below band size times columns. */
  lemma LocalBelowBand(grid: TileGrid, pid: nat)
    requires grid.Valid() && pid < grid.Size()
    ensures (pid / (grid.groupM * grid.numPidN)) * grid.groupM < grid.numPidM
    ensures pid % (grid.groupM * grid.numPidN)
            < BandSize(grid, (pid / (grid.groupM * grid.numPidN)) * grid.groupM) * grid.numPidN
    ensures pid % (grid.groupM * grid.numPidN) == pid - (pid / (grid.groupM * grid.numPidN)) * (grid.groupM * grid.numPidN)
    ensures BandSize(grid, (pid / (grid.groupM * grid.numPidN)) * grid.groupM) > 0
  {
    GroupInRange(grid, pid);
    var m, n, g := grid.numPidM, grid.numPidN, grid.groupM;
    var nig := g * n;
    var groupId := pid / nig;
    var first := groupId * g;
    var gsz := BandSize(grid, first);
    var local := pid % nig;
    assert pid == groupId * nig + local;
    if gsz < g {
      assert gsz == m - first;
      assert groupId * nig == first * n;
      assert m * n - first * n == gsz * n;
    } else {
      assert gsz * n == nig;
    }
  }

  /**
   * The program id that `TileOf` sends to tile `(pidM, pidN)`. In the last,
   * shorter band the row within the band is `pid % groupSizeM` of the global
   * program id, so the offset inside the band is shifted by the band base.
   */
  function PidOf(grid: TileGrid, pidM: nat, pidN: nat): nat
    requires grid.Valid() && pidM < grid.numPidM && pidN < grid.numPidN
  {
    if grid.groupM == 1 then
      pidN * grid.numPidM + pidM
    else
      var b := BandOfRow(grid, pidM);
      b.base + pidN * b.size + (pidM - b.first - b.base) % b.size
  }

  /** Every in-range program id is the `PidOf` its own tile: no two share a tile. */
  lemma PidOfTileOf(grid: TileGrid, pid: nat)
    requires grid.Valid() && pid < grid.Size()
    ensures PidOf(grid, TileOf(grid, pid).0, TileOf(grid, pid).1) == pid
  {
    if grid.groupM != 1 {
      var b := BandOfPid(grid, pid);
      SameBand(grid, pid);
      BandInverse(pid, b.base, b.first, b.size);
    } else {
      DivBelow(pid, grid.numPidM, grid.numPidN);
    }
  }

  /** A program's row tile lies in the program's own band. */
  lemma SameBand(grid: TileGrid, pid: nat)
    requires grid.Valid() && grid.groupM != 1 && pid < grid.Size()
    ensures BandOfRow(grid, TileOf(grid, pid).0) == BandOfPid(grid, pid)
    ensures TileOf(grid, pid).0 == BandOfPid(grid, pid).first + pid % BandOfPid(grid, pid).size
    ensures TileOf(grid, pid).1 == (pid - BandOfPid(grid, pid).base) / BandOfPid(grid, pid).size
  {
    var b := BandOfPid(grid, pid);
    var t0 := b.first + pid % b.size;
    DivModUnique(t0, grid.groupM, b.groupId, pid % b.size);
  }

  /** The grouped inverse, as plain arithmetic on the band's numbers. */
  lemma BandInverse(pid: int, base: int, first: int, size: int)
    requires size > 0 && base <= pid
    ensures base + ((pid - base) / size) * size + ((first + pid % size) - first - base) % size == pid
  {
    var local := pid - base;
    ModAddMultiple(pid % size - base, pid / size, size);
    assert pid % size - base + (pid / size) * size == local;
    assert local == (local / size) * size + local % size;
  }

  /** Every tile of the grid is computed by some in-range program. */
  lemma TileOfPidOf(grid: TileGrid, pidM: nat, pidN: nat)
    requires grid.Valid() && pidM < grid.numPidM && pidN < grid.numPidN
    ensures PidOf(grid, pidM, pidN) < grid.Size()
    ensures TileOf(grid, PidOf(grid, pidM, pidN)) == (pidM, pidN)
  {
    if grid.groupM == 1 {
      PlainInverse(grid.numPidM, grid.numPidN, pidM, pidN);
    } else {
      var b := BandOfRow(grid, pidM);
      PidInBand(grid, pidM, pidN);
      GroupedInverse(PidOf(grid, pidM, pidN), pidM - b.first, b.base, pidN, b.size);
    }
  }

  /** Column-major order: `pidN * m + pidM` splits back into its tile. */
  lemma PlainInverse(m: nat, n: nat, pidM: nat, pidN: nat)
    requires pidM < m && pidN < n
    ensures pidN * m + pidM < m * n
    ensures (pidN * m + pidM) % m == pidM && (pidN * m + pidM) / m == pidN
  {
    MulMonotone(pidN + 1, n, m);
    DivModUnique(pidN * m + pidM, m, pidN, pidM);
  }

  /** The grouped order: a program's offset in its band splits back into its tile. */
  lemma GroupedInverse(pid: int, d: int, base: int, pidN: int, size: int)
    requires size > 0 && 0 <= d < size
    requires pid == base + pidN * size + (d - base) % size
    ensures pid % size == d && (pid - base) / size == pidN
  {
    DivModUnique(pid - base, size, pidN, (d - base) % size);
    RowInBand(pid, d, base, pidN, size);
  }

  /** The grouped `PidOf` lands inside the band of its row tile. */
  lemma PidInBand(grid: TileGrid, pidM: nat, pidN: nat)
    requires grid.Valid() && grid.groupM != 1 && pidM < grid.numPidM && pidN < grid.numPidN
    ensures PidOf(grid, pidM, pidN) < grid.Size()
    ensures BandOfPid(grid, PidOf(grid, pidM, pidN)) == BandOfRow(grid, pidM)
  {
    var b := BandOfRow(grid, pidM);
    var r := (pidM - b.first - b.base) % b.size;
    var pid, nig := PidOf(grid, pidM, pidN), grid.groupM * grid.numPidN;
    LocalInGroup(pidN, r, b.size, grid.numPidN, grid.groupM);
    assert pid == b.groupId * nig + (pidN * b.size + r) < grid.Size();
    DivModUnique(pid, nig, b.groupId, pidN * b.size + r);
    assert BandOfPid(grid, pid).groupId == b.groupId;
  }

  /** A program's offset inside a band is below the band's program count. */
  lemma LocalInGroup(pidN: nat, r: nat, size: nat, n: nat, g: nat)
    requires r < size <= g && pidN < n
    ensures pidN * size + r < size * n <= g * n
  {
    MulMonotone(pidN + 1, n, size);
    MulMonotone(size, g, n);
  }

  /** The row inside the band is recovered as `pid % size`. */
  lemma RowInBand(pid: int, d: int, base: int, pidN: int, size: int)
    requires size > 0 && 0 <= d < size
    requires pid == base + pidN * size + (d - base) % size
    ensures pid % size == d
  {
    var k := (d - base) / size;
    assert (d - base) % size == d - base - k * size;
    assert pid == d + (pidN - k) * size;
    DivModUnique(pid, size, pidN - k, d);
  }

  /** The tile mapping is injective on the launched program ids. */
  lemma TileOfInjective(grid: TileGrid, p1: nat, p2: nat)
    requires grid.Valid() && p1 < grid.Size() && p2 < grid.Size()
    requires TileOf(grid, p1) == TileOf(grid, p2)
    ensures p1 == p2
  {
    PidOfTileOf(grid, p1);
    PidOfTileOf(grid, p2);
  }
}
