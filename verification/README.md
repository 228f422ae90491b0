# Fused mixture-of-experts dispatch, modelled in Dafny

This project models the CUDA dispatch path of lmdeploy's fused
mixture-of-experts (MoE) layer, `lmdeploy/pytorch/kernels/cuda/fused_moe.py`.
A call `fused_moe(hidden_states, w1, w2, topk_weights, topk_ids, topk, ...)`
proceeds in these steps:

1. It takes the routing as input: for each of the `M` tokens, `topk` expert
   ids and their weights. It optionally renormalises the weights
   (`_renormalize`).
2. It flattens the `M x topk` expert ids into *slots* and sorts the slots by
   expert id.
3. `_start_end_kernel` finds, for every expert, the *segment* of sorted
   positions that route to it.
4. It launches `fused_moe_kernel` twice. Each launch is a grid of programs;
   each program computes one `BLOCK_SIZE_M x BLOCK_SIZE_N` tile of one
   expert's projection.
   - The first launch is the gate/up projection. It reads token row
     `sid // topk` and writes the tile rows at their sorted positions.
   - After an activation, the second launch is the down projection. It
     reads the sorted rows, scales each by its routing weight and writes
     to slot `sid`.
5. It sums the `topk` slot rows of every token.

The model is laid out in six modules:

- `Counting` (`counting.dfy`): occurrence and rank counts, permutations and
  gathers of sequences. The segment proofs use these.
- `Segments` (`segments.dfy`): the block-wise segment scan of
  `_start_end_kernel` as a method with loop invariants. Also
  `get_start_end`, `_get_sorted_idx`, and the cumulative-sum description
  from the docstring of `get_start_end`.
- `Tiles` (`tiles.dfy`): `cdiv`, the padded row count `M_NP2`, the launch
  grid, and the mapping of a program id to a tile `(pid_m, pid_n)`, both
  plain and grouped. The mapping is proved to be a bijection.
- `Projection` (`projection.dfy`): one program instance of
  `fused_moe_kernel`. This covers the early returns, the masked
  row/column offsets, the K-loop accumulator (a method whose invariant
  says what the accumulator holds so far), the optional routing-weight
  scaling, and the masked store into the output buffer (an `array2`
  updated in place).
- `Launcher` (`launcher.dfy`): `fused_moe_kernel_launcher`, modelled as a
  sequential sweep over the grid `(pid, exp_id)`. After the sweep, every
  covered sorted position holds its projection and every row no program
  owns is unchanged.
- `Moe` (`moe.dfy`): `_renormalize`, `_make_intermediate`, and
  `fused_moe` itself. The end-to-end result is proved equal to the
  mathematical MoE output when every token's ids are distinct and below
  `num_experts`.

Numbers are Dafny `real`s. The model ignores rounding and the
fp32-accumulate / cast-back of the kernel. The activation `silu_and_mul`
is a parameter `act` that maps rows of width `n` to rows of width `n2`.
`torch.argsort` is a parameter: any permutation that sorts the flat ids.
The contents of a buffer from `torch.empty` are a parameter `stale`.

## Model

| member | source | states |
|---|---|---|
| Counting.GatherOccurrences | lmdeploy/pytorch/kernels/cuda/fused_moe.py:261-262 | sorting the flat ids by a permutation keeps the number of slots of every expert |
| Counting.GatherCountBelow | lmdeploy/pytorch/kernels/cuda/fused_moe.py:261-262 | sorting by a permutation keeps the number of ids below any bound |
| Counting.SortedCountBelow | lmdeploy/pytorch/kernels/cuda/fused_moe.py:262 | in a sorted id sequence, position `j` holds an id below `b` exactly when `j` is below the count of such ids |
| Counting.OccurrencesAsCountBelow | lmdeploy/pytorch/kernels/cuda/fused_moe.py:233-235 | the slot count of expert `e` is the count below `e+1` minus the count below `e` |
| Counting.Occurrences | lmdeploy/pytorch/kernels/cuda/fused_moe.py:218 | `tl.sum(tidx_mask)`: the number of ids equal to the expert, never more than the ids scanned |
| Counting.Gather | lmdeploy/pytorch/kernels/cuda/fused_moe.py:215-216 | the ids read through `sorted_idx`: position `j` holds `ids[sorted_idx[j]]`, one key per index |
| Segments.SegmentStart | lmdeploy/pytorch/kernels/cuda/fused_moe.py:219-223 | the start is the first sorted position holding the expert when there is one, and 0 otherwise |
| Segments.SegmentEnd | lmdeploy/pytorch/kernels/cuda/fused_moe.py:224 | `exp_end = exp_start + cnt`: the segment end is its start plus the expert's slot count |
| Segments.FirstIndexOf | lmdeploy/pytorch/kernels/cuda/fused_moe.py:220 | `argmax` of the match mask: the first matching lane, with no match before it |
| Segments.ScanBlock | lmdeploy/pytorch/kernels/cuda/fused_moe.py:212-218 | one `BLOCK`-wide step counts the block's matches and finds its first matching lane (or none) |
| Segments.LaneStep | lmdeploy/pytorch/kernels/cuda/fused_moe.py:214-217 | extending the block scan by one lane keeps its count and first-match invariant |
| Segments.BlockStep | lmdeploy/pytorch/kernels/cuda/fused_moe.py:218-220 | `exp_start` is set only at the first block with a match, and `cnt` accumulates the matches |
| Segments.ScanDone | lmdeploy/pytorch/kernels/cuda/fused_moe.py:222-224 | after the last block, the clamped start and `start + cnt` are the segment bounds |
| Segments.StartEndKernel | lmdeploy/pytorch/kernels/cuda/fused_moe.py:202-226 | the kernel's `exp_start`/`exp_end` are the start and end of the expert's run in the sorted ids |
| Segments.GetStartEnd | lmdeploy/pytorch/kernels/cuda/fused_moe.py:229-256 | one kernel program per expert fills two fresh arrays of length `num_experts` with every expert's segment |
| Segments.GetSortedIdx | lmdeploy/pytorch/kernels/cuda/fused_moe.py:259-265 | for a sorting permutation, the sorted positions in `[exp_start[e], exp_end[e])` are exactly the slots routed to `e` |
| Segments.SegmentInBounds | lmdeploy/pytorch/kernels/cuda/fused_moe.py:219-224 | `0 <= exp_start <= exp_end <= len(sorted_idx)` |
| Segments.SegmentExact | lmdeploy/pytorch/kernels/cuda/fused_moe.py:259-265 | a position lies in expert `e`'s segment if and only if its slot routes to `e` |
| Segments.FirstIsCountBelow | lmdeploy/pytorch/kernels/cuda/fused_moe.py:219-220 | on sorted ids, the first position of a present expert is the number of smaller ids |
| Segments.SegmentsApart | lmdeploy/pytorch/kernels/cuda/fused_moe.py:259-265 | the segments of two different experts share no position |
| Segments.CumsumEndIsCountBelow | lmdeploy/pytorch/kernels/cuda/fused_moe.py:233-234 | the docstring's `cumsum` of the one-hot counts is the number of ids up to `e` |
| Segments.ExpTokCnt | lmdeploy/pytorch/kernels/cuda/fused_moe.py:233 | the docstring's `exp_tok_cnt`: the number of flat slots routed to expert `e` |
| Segments.CumsumEnd | lmdeploy/pytorch/kernels/cuda/fused_moe.py:234 | the docstring's `exp_end = exp_tok_cnt.cumsum(0)`: the running sum of the per-expert counts up to `e` |
| Segments.CumsumStart | lmdeploy/pytorch/kernels/cuda/fused_moe.py:234-235 | the docstring's `exp_start = exp_end - exp_tok_cnt`, with `exp_end` the running count sum |
| Segments.MatchesCumsumReference | lmdeploy/pytorch/kernels/cuda/fused_moe.py:230-236 | the kernel's segment length equals the docstring's count, and its bounds equal the docstring's bounds for every expert with slots (an empty expert gets `[0, 0)`) |
| Segments.SegmentAtMostTokens | lmdeploy/pytorch/kernels/cuda/fused_moe.py:161-166 | when each token routes to distinct experts, no expert has more slots than there are tokens |
| Segments.AtMostOnce | lmdeploy/pytorch/kernels/cuda/fused_moe.py:261 | a row of distinct ids holds each expert at most once |
| Segments.Flatten | lmdeploy/pytorch/kernels/cuda/fused_moe.py:261 | `topk_ids.flatten()`: a `(tokens, topk)` table read row by row; its length is the sum of the row lengths |
| Tiles.Cdiv | lmdeploy/pytorch/kernels/cuda/fused_moe.py:85-86 | `cdiv(a, b)` is the least `q` with `q * b >= a` |
| Tiles.NextPowerOfTwo | lmdeploy/pytorch/kernels/cuda/fused_moe.py:161 | the result is the least power of two at least `n` |
| Tiles.PaddedRows | lmdeploy/pytorch/kernels/cuda/fused_moe.py:161-162 | `M_NP2` is a power of two at least 64 and at least `num_tokens`, and the least such |
| Tiles.Grid | lmdeploy/pytorch/kernels/cuda/fused_moe.py:165-167 | the launch grid is `(cdiv(M_NP2, BM) * cdiv(N, BN), E)`, and every output cell of an expert, row offset `d < num_tokens` and column `col < N`, is owned by a program id inside its first dimension |
| Tiles.ExpertGrid | lmdeploy/pytorch/kernels/cuda/fused_moe.py:165-167 | one expert's tile grid spans at least `num_tokens` rows and `N` columns, with at least one row of tiles |
| Tiles.CellProgram | lmdeploy/pytorch/kernels/cuda/fused_moe.py:88-97 | the program of row offset `d` and column `col` is a valid program id whose tile is `(d // BM, col // BN)` |
| Tiles.BandOfPid | lmdeploy/pytorch/kernels/cuda/fused_moe.py:92-95 | the group of a program id: its first row tile, its size `min(num_pid_m - first, GROUP_SIZE_M)` and its first id |
| Tiles.TileOf | lmdeploy/pytorch/kernels/cuda/fused_moe.py:88-97 | every program id maps to a tile inside the `num_pid_m x num_pid_n` grid |
| Tiles.PlainTileInGrid | lmdeploy/pytorch/kernels/cuda/fused_moe.py:88-90 | with `GROUP_SIZE_M == 1`, `pid % num_pid_m` and `pid // num_pid_m` of a launched id are inside the grid |
| Tiles.GroupedTileInGrid | lmdeploy/pytorch/kernels/cuda/fused_moe.py:91-97 | with grouping, `first_pid_m + pid % group_size_m` and `(pid % num_pid_in_group) // group_size_m` of a launched id are inside the grid |
| Tiles.PidOfTileOf | lmdeploy/pytorch/kernels/cuda/fused_moe.py:88-97 | the tile-to-id inverse recovers every program id |
| Tiles.TileOfPidOf | lmdeploy/pytorch/kernels/cuda/fused_moe.py:88-97 | every tile of the grid is computed by some program id in range (surjectivity) |
| Tiles.TileOfInjective | lmdeploy/pytorch/kernels/cuda/fused_moe.py:88-97 | no two program ids compute the same tile |
| Tiles.SameBand | lmdeploy/pytorch/kernels/cuda/fused_moe.py:92-97 | the grouped mapping keeps a program inside its own group's band of row tiles |
| Tiles.PidInBand | lmdeploy/pytorch/kernels/cuda/fused_moe.py:91-97 | the grouped tile-to-id inverse gives a launched id whose group is the band of its row tile |
| Tiles.PlainInverse | lmdeploy/pytorch/kernels/cuda/fused_moe.py:88-90 | with `GROUP_SIZE_M == 1`, `pid % num_pid_m` and `pid // num_pid_m` invert `pid_n * num_pid_m + pid_m` |
| Projection.Accumulate | lmdeploy/pytorch/kernels/cuda/fused_moe.py:119-126 | after the K-loop, each unmasked lane holds the full dot product of its input row and weight column; masked lanes hold 0 |
| Projection.LoadA | lmdeploy/pytorch/kernels/cuda/fused_moe.py:122 | defines the A tile of a K-step, masked lanes and columns past `K` loading 0.0 (`BlockDot` and `DotZero` prove what it contributes); its contract ensures the shape: one row per lane, `BLOCK_SIZE_K` wide |
| Projection.LoadB | lmdeploy/pytorch/kernels/cuda/fused_moe.py:123 | defines the B tile of a K-step at the wrapped columns, rows past `K` loading 0.0 (`BlockDot` proves what it contributes); its contract ensures the shape: `BLOCK_SIZE_K` rows, one column per output column |
| Projection.TileDot | lmdeploy/pytorch/kernels/cuda/fused_moe.py:124 | `tl.dot(a, b, acc=accumulator)` keeps the accumulator's shape: one row per lane, `BLOCK_SIZE_N` wide |
| Projection.Scale | lmdeploy/pytorch/kernels/cuda/fused_moe.py:130 | defines `accumulator * weight[:, None]`, lane `i` scaled by `weight[i]` (`TileValues` proves the scaled values are the owed ones); its contract ensures the shape is kept |
| Projection.KStep | lmdeploy/pytorch/kernels/cuda/fused_moe.py:121-124 | one iteration of the K-loop keeps the accumulator `BM x BN`; what it adds is stated by Projection.AccumulateStep |
| Projection.AccumulateStep | lmdeploy/pytorch/kernels/cuda/fused_moe.py:121-124 | one `BLOCK_SIZE_K` step extends the accumulated dot products by the next block of `K` |
| Projection.StepCell | lmdeploy/pytorch/kernels/cuda/fused_moe.py:121-124 | for one lane and column, the K-step's block product added to the cell extends its dot product to `min(lo + BLOCK_SIZE_K, K)`; a masked lane stays 0 |
| Projection.BlockDot | lmdeploy/pytorch/kernels/cuda/fused_moe.py:122-124 | the dot product of two K-masked blocks is the dot product over their stretch of `K` |
| Projection.DotZero | lmdeploy/pytorch/kernels/cuda/fused_moe.py:122 | a lane whose row is masked (loaded as 0) contributes 0 |
| Projection.StepInRange | lmdeploy/pytorch/kernels/cuda/fused_moe.py:121-122 | every iteration of the K-loop starts inside `K`, and the loop ends past `K` |
| Projection.StoreRow | lmdeploy/pytorch/kernels/cuda/fused_moe.py:138-139 | storing one lane writes the tile's columns of that output row and nothing else |
| Projection.StoreTile | lmdeploy/pytorch/kernels/cuda/fused_moe.py:134-139 | the masked store writes each unmasked lane's row at the tile's columns and leaves every other row and column unchanged |
| Projection.Pass.GridValid | lmdeploy/pytorch/kernels/cuda/fused_moe.py:85-86 | a launched program implies a well-formed grid and `N > 0` |
| Projection.Pass.TileBase | lmdeploy/pytorch/kernels/cuda/fused_moe.py:102 | a tile's first sorted position `exp_start + pid_m * BM` is not before its segment |
| Projection.Pass.Grid | lmdeploy/pytorch/kernels/cuda/fused_moe.py:85-86 | defines a pass's `num_pid_m` by `num_pid_n` tile grid: `cdiv(M_NP2, BM)` by `cdiv(N, BN)` |
| Projection.Pass.GridIsExpertGrid | lmdeploy/pytorch/kernels/cuda/fused_moe.py:165-167 | the grid the kernel decodes program ids against is the per-expert grid the launcher sizes |
| Projection.Pass.ARow | lmdeploy/pytorch/kernels/cuda/fused_moe.py:107-110 | the input row of sorted position `p`: `sid // top_k` when `reindex_a`, else the position itself |
| Projection.Pass.CRow | lmdeploy/pytorch/kernels/cuda/fused_moe.py:134-137 | the output row of sorted position `p`: `sid` when `reindex_c`, else the position itself |
| Projection.Pass.Columns | lmdeploy/pytorch/kernels/cuda/fused_moe.py:112 | the `BLOCK_SIZE_N` output columns `(pid_n * BN + j) % N` of a program, each inside `0..N` |
| Projection.Pass.Expected | lmdeploy/pytorch/kernels/cuda/fused_moe.py:121-132 | the value owed to an output cell: the dot product of its input row with the expert's weight row over `K`, times the routing weight when `ENABLE_WEIGHTS` |
| Projection.TileApplied | lmdeploy/pytorch/kernels/cuda/fused_moe.py:134-139 | the effect of one program: each row of its tile gets the owed value at the tile's columns and keeps its old value at the others; every other row is unchanged |
| Projection.ProgramInstance | lmdeploy/pytorch/kernels/cuda/fused_moe.py:76-139 | a program writes the owed projection (weighted when `ENABLE_WEIGHTS`) at its tile's rows and columns and leaves every other row unchanged |
| Projection.ComputeTile | lmdeploy/pytorch/kernels/cuda/fused_moe.py:102-137 | the offsets, the mask `offs_sid < exp_end`, the gathered row ids, the columns `(pid_n * BN + j) % N`, and the tile values owed for unmasked lanes |
| Projection.TileLanes | lmdeploy/pytorch/kernels/cuda/fused_moe.py:102-112 | lane `i` is sorted position `exp_start + pid_m * BM + i`, masked exactly past `exp_end`; unmasked lanes load `sid` and address rows `sid // top_k` or `offs_sid` and `sid` or `offs_sid` in range; the columns are `(pid_n * BN + j) % N`, all below `N` |
| Projection.WriteTile | lmdeploy/pytorch/kernels/cuda/fused_moe.py:134-139 | storing a computed tile under `mask_sid` has exactly the program's tile-level effect on the output |
| Projection.IdleTile | lmdeploy/pytorch/kernels/cuda/fused_moe.py:82-83 | a program whose tile starts at or after the segment's end (including an empty segment) changes nothing |
| Projection.LanesSound | lmdeploy/pytorch/kernels/cuda/fused_moe.py:102-110 | every unmasked lane is a sorted position in the tile's rows and reads and writes in-range rows (`sid // top_k` or `offs_sid`; `sid` or `offs_sid`) |
| Projection.TileValues | lmdeploy/pytorch/kernels/cuda/fused_moe.py:128-132 | the optional weight scaling turns the accumulator into the owed value of every unmasked lane |
| Projection.LanesDistinct | lmdeploy/pytorch/kernels/cuda/fused_moe.py:134-137 | two unmasked lanes of a tile never store to the same output row |
| Projection.TileFromLanes | lmdeploy/pytorch/kernels/cuda/fused_moe.py:134-139 | the lane-wise store result is the tile-level effect of the program |
| Projection.ColumnTileInRange | lmdeploy/pytorch/kernels/cuda/fused_moe.py:99-100 | for a tile in the grid, `pid_n * BLOCK_SIZE_N < N` always holds, so the second early-return test never fires |
| Launcher.ProjectionPass | lmdeploy/pytorch/kernels/cuda/fused_moe.py:142-198 | after the launch, every covered sorted position's output row holds its expert's projection in every column, and every row no position stores to keeps its old contents |
| Launcher.PassResult | lmdeploy/pytorch/kernels/cuda/fused_moe.py:142-198 | the effect of a launch: every covered cell holds its owed value and every row no segment owns keeps its initial contents |
| Launcher.CellPid | lmdeploy/pytorch/kernels/cuda/fused_moe.py:165-167 | the program that owns a covered cell is inside the launched grid |
| Launcher.CellTile | lmdeploy/pytorch/kernels/cuda/fused_moe.py:85-97 | a covered cell's row tile `(p - exp_start) // BM` and column tile `col // BN` are inside the grid |
| Launcher.CellOwned | lmdeploy/pytorch/kernels/cuda/fused_moe.py:88-112 | a covered cell lies in the rows and columns of the tile of its owning program |
| Launcher.ProgressStep | lmdeploy/pytorch/kernels/cuda/fused_moe.py:174-198 | one more program keeps the sweep invariant: finished cells hold their value, untouched rows keep their initial value |
| Launcher.CellKept | lmdeploy/pytorch/kernels/cuda/fused_moe.py:134-139 | a later program never overwrites a cell that already holds its value |
| Launcher.CellDone | lmdeploy/pytorch/kernels/cuda/fused_moe.py:134-139 | the owning program writes the cell's value |
| Launcher.TileRowCovered | lmdeploy/pytorch/kernels/cuda/fused_moe.py:102-103 | any sorted position a tile processes is within the covered stretch of the segment |
| Launcher.SameExpert | lmdeploy/pytorch/kernels/cuda/fused_moe.py:79-80 | a sorted position lies in the segment of at most one expert |
| Launcher.RowInjective | lmdeploy/pytorch/kernels/cuda/fused_moe.py:134-137 | distinct sorted positions store to distinct output rows |
| Launcher.FullCoverage | lmdeploy/pytorch/kernels/cuda/fused_moe.py:161-166 | when a segment has at most `num_tokens` positions, the `cdiv(M_NP2, BM)` row tiles cover it entirely |
| Moe.Renormalize | lmdeploy/pytorch/kernels/cuda/fused_moe.py:268-273 | the result has the weights' shape, and without `renormalize` it is the weights unchanged |
| Moe.Divided | lmdeploy/pytorch/kernels/cuda/fused_moe.py:270 | each divided entry times the row sum gives back the original entry |
| Moe.RowSum | lmdeploy/pytorch/kernels/cuda/fused_moe.py:270 | defines `topk_weights.sum(dim=-1)` for one row, summed left to right |
| Moe.RowSumDivided | lmdeploy/pytorch/kernels/cuda/fused_moe.py:270 | the sum of a row divided by `d`, times `d`, is the row's sum |
| Moe.RenormalizeSumsToOne | lmdeploy/pytorch/kernels/cuda/fused_moe.py:268-273 | renormalised weights keep their proportions and every row sums to 1 |
| Moe.RowSumsToOne | lmdeploy/pytorch/kernels/cuda/fused_moe.py:270 | a row with a nonzero sum, divided by that sum, sums to 1 |
| Moe.RenormalizeIdempotent | lmdeploy/pytorch/kernels/cuda/fused_moe.py:268-273 | renormalising twice is renormalising once |
| Moe.MakeIntermediate | lmdeploy/pytorch/kernels/cuda/fused_moe.py:276-281 | a fresh `rows x cols` buffer: all zeros when `zeros`, otherwise the stale contents |
| Moe.FlattenLength | lmdeploy/pytorch/kernels/cuda/fused_moe.py:261 | flattening `M` rows of width `topk` gives `M * topk` slots |
| Moe.FlattenAt | lmdeploy/pytorch/kernels/cuda/fused_moe.py:261 | slot `(t, s)` of the id matrix sits at flat index `t * topk + s` |
| Moe.Reduce | lmdeploy/pytorch/kernels/cuda/fused_moe.py:351 | the sum over `dim=1` gives one row of width `hidden` per token |
| Moe.SlotSum | lmdeploy/pytorch/kernels/cuda/fused_moe.py:351 | defines the `.sum(dim=1)` accumulation of one column over a token's `topk` slot rows |
| Moe.SlotSumIsOutputSum | lmdeploy/pytorch/kernels/cuda/fused_moe.py:351 | when the buffer's slot rows hold the slot contributions, the sum over slots is the reference sum |
| Moe.Summed | lmdeploy/pytorch/kernels/cuda/fused_moe.py:351 | a second buffer whose every slot row holds that slot's contribution sums over `dim=1` to the reference output |
| Moe.Call.Reference | lmdeploy/pytorch/kernels/cuda/fused_moe.py:284-352 | the MoE output: token by hidden column, summed over the token's local experts, of weight times down projection of the activated gate/up projection |
| Moe.Call.Weights | lmdeploy/pytorch/kernels/cuda/fused_moe.py:300 | the routing weights `fused_moe` uses, after `_renormalize`, shaped `M x topk` |
| Moe.Call.NumExperts | lmdeploy/pytorch/kernels/cuda/fused_moe.py:296-297 | defines `num_experts`, defaulting to the local expert count `E` when not given |
| Moe.Call.Up | lmdeploy/pytorch/kernels/cuda/fused_moe.py:308-322 | the gate/up projection of a token by one local expert: one entry per row of `w1[e]` |
| Moe.Call.SlotOutput | lmdeploy/pytorch/kernels/cuda/fused_moe.py:335-351 | the contribution of slot `(t, s)`: the down projection of the activated gate/up row of its expert, times its routing weight; 0 when the expert is not local |
| Moe.Shard | lmdeploy/pytorch/kernels/cuda/fused_moe.py:290-298 | a shard holds local experts `lo..hi`: same tokens and routing, `expert_offset` moved on by `lo`, `num_experts` kept at the global count, and it stays a valid, routed call |
| Moe.ShardUp | lmdeploy/pytorch/kernels/cuda/fused_moe.py:308-322 | a shard's gate/up projection by its expert `e` equals the whole call's by expert `lo + e` |
| Moe.ShardLocal | lmdeploy/pytorch/kernels/cuda/fused_moe.py:335-349 | a slot whose expert the shard holds contributes to the shard what it contributes to the call |
| Moe.ShardForeign | lmdeploy/pytorch/kernels/cuda/fused_moe.py:298-306 | a slot whose expert the shard does not hold contributes 0 to the shard, the zero-filled rows of `zeros=not full_exp` |
| Moe.ShardSlot | lmdeploy/pytorch/kernels/cuda/fused_moe.py:298-349 | splitting the local experts at `a`, each slot's contribution is the sum of the two shards' contributions |
| Moe.SumsAdd | lmdeploy/pytorch/kernels/cuda/fused_moe.py:351 | slot sums are additive: calls whose slot contributions add up have per-token sums that add up |
| Moe.ShardSum | lmdeploy/pytorch/kernels/cuda/fused_moe.py:298-351 | a token's summed output for the whole call is the sum of its summed outputs for the two shards |
| Moe.ShardedReference | lmdeploy/pytorch/kernels/cuda/fused_moe.py:284-352 | sharding is consistent: the reference outputs of two shards that split the local experts add up to the reference output of the whole call |
| Moe.SlotsDisjoint | lmdeploy/pytorch/kernels/cuda/fused_moe.py:301 | the segments `_get_sorted_idx` returns for the local experts never overlap |
| Moe.GateUpPass | lmdeploy/pytorch/kernels/cuda/fused_moe.py:308-322 | the gate/up launch's arguments: input `hidden_states`, weights `w1`, `reindex_a`, no routing weights |
| Moe.DownPass | lmdeploy/pytorch/kernels/cuda/fused_moe.py:335-349 | the down launch's arguments: input the activated cache, weights `w2`, `top_k = 1`, `reindex_c`, routing weights enabled |
| Moe.GateUpReady | lmdeploy/pytorch/kernels/cuda/fused_moe.py:303-322 | the gate/up launch reads rows `sid // topk` inside `hidden_states`, writes inside the `M * topk` buffer, and sees disjoint segments |
| Moe.SlotTokens | lmdeploy/pytorch/kernels/cuda/fused_moe.py:106-107 | every sorted slot id of `M * topk` slots belongs to token `sid // topk` below `M` |
| Moe.SegmentsInRange | lmdeploy/pytorch/kernels/cuda/fused_moe.py:229-256 | every expert's segment `[exp_start, exp_end)` lies inside the sorted slot ids |
| Moe.DownReady | lmdeploy/pytorch/kernels/cuda/fused_moe.py:330-349 | the down launch writes to distinct rows `sid` inside the buffer and reads routing weights in range |
| Moe.SlotPosition | lmdeploy/pytorch/kernels/cuda/fused_moe.py:301 | a routed slot has a sorted position inside its expert's segment, and that segment has at most `M` positions |
| Moe.ForeignSlotUntouched | lmdeploy/pytorch/kernels/cuda/fused_moe.py:335-349 | the down launch never writes the row of a slot whose expert is outside `[expert_offset, expert_offset + E)` |
| Moe.GateUpRow | lmdeploy/pytorch/kernels/cuda/fused_moe.py:308-322 | after the gate/up launch, a local slot's sorted row is its token's projection by its expert's `w1` |
| Moe.DownValue | lmdeploy/pytorch/kernels/cuda/fused_moe.py:335-349 | the down launch owes a local slot its weight times `w2` applied to the activated gate/up row |
| Moe.LocalSlot | lmdeploy/pytorch/kernels/cuda/fused_moe.py:303-349 | after both launches, a local slot's row in the second buffer is its contribution to the output |
| Moe.SlotCell | lmdeploy/pytorch/kernels/cuda/fused_moe.py:298-349 | every slot row holds its contribution: foreign slots hold 0 because the buffer is zeroed whenever some experts are not local |
| Moe.Assembled | lmdeploy/pytorch/kernels/cuda/fused_moe.py:298-349 | after both launches the second buffer has `M * topk` rows of width `hidden` and every slot row holds that slot's contribution |
| Moe.FusedMoe | lmdeploy/pytorch/kernels/cuda/fused_moe.py:284-352 | `fused_moe` returns an `M x hidden` result, equal to the reference MoE output whenever every token routes to distinct experts below `num_experts` |

## Left out

- Floating point: values are exact reals, with no fp32 accumulation and no cast back to the input dtype (lines 119 and 132).
- Autotuning (lines 11-45): the block sizes and `GROUP_SIZE_M` are a `TileConfig` parameter of each launch, with positive sizes. Warps, stages and `get_kernel_meta` are left out.
- GPU parallelism: the programs of a launch run as a sequential loop over `(exp_id, pid)`. Inside a tile, lanes are sequential loops. Programs of different experts, and programs of different row tiles of one expert, write disjoint rows (Launcher.SegmentsDisjoint, Launcher.RowInjective). The column tiles of one row band share their rows. When `BLOCK_SIZE_N` does not divide `N`, the `% N` wrap of line 112 makes the last column tile write some cells of the first one again, with the same value (Launcher.CellKept). So an output element is not always written exactly once, but every write of it stores the same value. The model fixes one sequential order and does not prove that other orders give the same result.
- Strides, pointer arithmetic, `flatten`/`unflatten` views, `contiguous()`, `tl.max_contiguous`/`tl.multiple_of` hints and the int64 cast of the expert offset (lines 111-117, 169-170, 271-272) become logical row/column indexing.
- `silu_and_mul` is not part of this model: it is the parameter `act`, which only needs to map width `n` to width `n2`.
- `torch.argsort` is not part of this model: it is the parameter `argsort`, which must be a permutation that sorts the flat ids. Stability is not needed.
- `torch.empty` contents are the arbitrary parameter `stale`. Device, dtype and memory allocation are left out.
- The default `num_tokens=None` of the launcher (line 159-160) is left out: `fused_moe` always passes `num_tokens=M`.
- The masked weight load on line 129 has no `other=` value, so a lane whose mask is off reads an undefined weight. Those lanes are never stored; the model gives them the weight 0.0.
- Moe.Renormalize: a row whose weights sum to 0 would divide by zero (NaN on the device). The model requires non-zero row sums when `renormalize` is set.
- Moe.FusedMoe: the result is promised only when every token's `topk` ids are distinct and below `num_experts`. With a repeated id, a segment can be longer than `M_NP2` and its tail is never computed (see Launcher.FullCoverage). With an out-of-range id, the slot belongs to no segment and, with `full_exp`, its row keeps stale contents.
- Launcher.ProjectionPass: values are promised only for sorted positions within `cdiv(M_NP2, BM) * BM` of their segment's start. Launcher.FullCoverage shows that this holds whenever a segment has at most `num_tokens` positions.
- Moe.Call.Valid requires `topk > 0`: `sid // top_k` divides by `top_k`.
