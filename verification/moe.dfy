/**
 * `fused_moe`: the mixture-of-experts forward pass built from the pieces of
 * the other modules. The routing weights are optionally renormalised, the
 * routing slots are sorted by expert, the gate/up projection runs into the
 * first intermediate buffer (one row per sorted slot), the activation maps
 * each row, the down projection scales by the routing weight and scatters
 * back to the slot's own row of the second buffer, and each token's result
 * is the sum of its `topk` slot rows.
 */
module Moe {
  import opened Counting
  import opened Tiles
  import opened Segments
  import opened Projection
  import opened Launcher

  datatype Option<T> = None | Some(value: T)

  /** Sum of a row of reals, left to right. */
  function RowSum(row: seq<real>): real
  {
    if row == [] then 0.0 else RowSum(row[..|row| - 1]) + row[|row| - 1]
  }

  /** Each row divided by `d`. */
  function Divided(row: seq<real>, d: real): (r: seq<real>)
    requires d != 0.0
    ensures |r| == |row| && forall i :: 0 <= i < |row| ==> r[i] * d == row[i]
  {
    seq(|row|, i requires 0 <= i < |row| => row[i] / d)
  }

  /** `_renormalize`: with `renormalize`, each token's weights divided by their sum. */
  function Renormalize(w: seq<seq<real>>, renormalize: bool): (r: seq<seq<real>>)
    requires renormalize ==> forall t :: 0 <= t < |w| ==> RowSum(w[t]) != 0.0
    ensures |r| == |w| && forall t :: 0 <= t < |w| ==> |r[t]| == |w[t]|
    ensures !renormalize ==> r == w
  {
    if renormalize then seq(|w|, t requires 0 <= t < |w| => Divided(w[t], RowSum(w[t]))) else w
  }

  /** Dividing every entry by `d` divides the sum by `d`. */
  lemma {:induction false} RowSumDivided(row: seq<real>, d: real)
    requires d != 0.0
    ensures RowSum(Divided(row, d)) * d == RowSum(row)
  {
    if row != [] {
      var init := row[..|row| - 1];
      RowSumDivided(init, d);
      assert Divided(row, d)[..|row| - 1] == Divided(init, d);
    }
  }

  /**
   * Renormalised weights keep each token's proportions, and each token's
   * weights then sum to one.
   */
  lemma RenormalizeSumsToOne(w: seq<seq<real>>)
    requires forall t :: 0 <= t < |w| ==> RowSum(w[t]) != 0.0
    ensures forall t, i :: 0 <= t < |w| && 0 <= i < |w[t]| ==>
              Renormalize(w, true)[t][i] * RowSum(w[t]) == w[t][i]
    ensures forall t :: 0 <= t < |w| ==> RowSum(Renormalize(w, true)[t]) == 1.0
  {
    forall t | 0 <= t < |w|
      ensures RowSum(Renormalize(w, true)[t]) == 1.0
    {
      RowSumsToOne(w[t]);
      assert Renormalize(w, true)[t] == Divided(w[t], RowSum(w[t]));
    }
    forall t, i | 0 <= t < |w| && 0 <= i < |w[t]|
      ensures Renormalize(w, true)[t][i] * RowSum(w[t]) == w[t][i]
    {
      var r := Divided(w[t], RowSum(w[t]));
      assert Renormalize(w, true)[t] == r;
      assert r[i] * RowSum(w[t]) == w[t][i];
    }
  }

  /** One row divided by its own non-zero sum sums to one. */
  lemma RowSumsToOne(row: seq<real>)
    requires RowSum(row) != 0.0
    ensures RowSum(Divided(row, RowSum(row))) == 1.0
  {
    var d := RowSum(row);
    RowSumDivided(row, d);
    Cancel(RowSum(Divided(row, d)), d, RowSum(row));
  }

  lemma Cancel(x: real, d: real, s: real)
    requires d != 0.0 && d == s && x * d == s
    ensures x == 1.0
  {
    assert (x - 1.0) * d == 0.0;
  }

  /** Renormalising twice is renormalising once. */
  lemma RenormalizeIdempotent(w: seq<seq<real>>)
    requires forall t :: 0 <= t < |w| ==> RowSum(w[t]) != 0.0
    ensures forall t :: 0 <= t < |w| ==> RowSum(Renormalize(w, true)[t]) != 0.0
    ensures Renormalize(Renormalize(w, true), true) == Renormalize(w, true)
  {
    RenormalizeSumsToOne(w);
    var r := Renormalize(w, true);
    forall t | 0 <= t < |w|
      ensures Renormalize(r, true)[t] == r[t]
    {
      assert Divided(r[t], 1.0) == r[t];
    }
  }

  /**
   * `_make_intermediate`: a fresh `rows` by `cols` buffer, zero-filled when
   * `zeros` is set and otherwise holding whatever the memory held, given by
   * `stale`.
   */
  method MakeIntermediate(rows: nat, cols: nat, zeros: bool, stale: (nat, nat) -> real) returns (buf: array2<real>)
    ensures fresh(buf) && buf.Length0 == rows && buf.Length1 == cols
    ensures forall i, j :: 0 <= i < rows && 0 <= j < cols ==> buf[i, j] == if zeros then 0.0 else stale(i, j)
  {
    buf := new real[rows, cols]((i: nat, j: nat) => if zeros then 0.0 else stale(i, j));
  }

  /** Flattening `|rows|` rows of `w` entries gives `|rows| * w` slots. */
  lemma {:induction false} FlattenLength<T>(rows: seq<seq<T>>, w: nat)
    requires forall t :: 0 <= t < |rows| ==> |rows[t]| == w
    ensures |Flatten(rows)| == |rows| * w
  {
    if rows != [] {
      FlattenLength(rows[..|rows| - 1], w);
      assert |rows| * w == (|rows| - 1) * w + w;
    }
  }

  /** Flattening puts entry `(t, s)` of a table of `w`-entry rows at slot `t * w + s`. */
  lemma {:induction false} FlattenAt<T>(rows: seq<seq<T>>, w: nat, t: nat, s: nat)
    requires forall t' :: 0 <= t' < |rows| ==> |rows[t']| == w
    requires t < |rows| && s < w
    ensures t * w + s < |Flatten(rows)| && Flatten(rows)[t * w + s] == rows[t][s]
  {
    var n := |rows| - 1;
    var init := rows[..n];
    FlattenLength(rows, w);
    FlattenLength(init, w);
    if t < n {
      FlattenAt(init, w, t, s);
    } else {
      assert t * w + s == |Flatten(init)| + s;
    }
  }

  /** The slot `t * topk + s` of a token `t < m` lies in the `m * topk` slots. */
  lemma SlotBound(m: nat, t: nat, topk: nat, s: nat)
    requires t < m && s < topk
    ensures t * topk + s < m * topk
  {
    MulMonotone(t + 1, m, topk);
  }

  /** The `topk` slot rows of token `t < m` lie inside the `m * topk` slots. */
  lemma TokenRows(m: nat, t: nat, topk: nat)
    requires t < m
    ensures t * topk + topk <= m * topk
  {
    MulMonotone(t + 1, m, topk);
  }

  /** Sum of column `col` over the `upto` slot rows from row `base` on. */
  function SlotSum(c: seq<seq<real>>, base: nat, col: nat, upto: nat): real
    requires base + upto <= |c|
    requires forall r :: base <= r < base + upto ==> col < |c[r]|
  {
    if upto == 0 then 0.0 else SlotSum(c, base, col, upto - 1) + c[base + upto - 1][col]
  }

  /**
   * `intermediate_cache2.sum(dim=1)`: the buffer viewed as `(m, topk, h)`,
   * each token's output is the sum of its `topk` slot rows.
   */
  function Reduce(c: seq<seq<real>>, m: nat, topk: nat, h: nat): (ret: seq<seq<real>>)
    requires |c| == m * topk && Shaped(c, h)
    ensures |ret| == m && Shaped(ret, h)
  {
    seq(m, t requires 0 <= t < m =>
      TokenRows(m, t, topk);
      seq(h, col requires 0 <= col < h => SlotSum(c, t * topk, col, topk)))
  }

  /** `silu_and_mul` stand-in: rows of width `n` map to rows of width `n2`. */
  ghost predicate ActWidth(act: seq<real> -> seq<real>, n: nat, n2: nat)
  {
    forall x: seq<real> :: |x| == n ==> |act(x)| == n2
  }

  /**
   * The arguments of one `fused_moe` call. `k`, `n`, `h` and `n2` are the
   * tensor widths: `hidden_states` is `M x k`, `w1` is `E x n x k`, `w2`
   * is `E x h x n2`, and the activation maps width `n` to width `n2`.
   */
  datatype Call = Call(
    hidden: seq<seq<real>>, w1: seq<seq<seq<real>>>, w2: seq<seq<seq<real>>>,
    topkWeights: seq<seq<real>>, topkIds: seq<seq<int>>, topk: nat,
    expertOffset: nat, numExperts: Option<nat>, renormalize: bool,
    k: nat, n: nat, h: nat, n2: nat)
  {
    /** `num_experts`, defaulting to the local expert count `E`. */
    function NumExperts(): nat
    {
      if numExperts.Some? then numExperts.value else |w1|
    }

    /** The shapes the call's tensors have, and what the passes index with. */
    ghost predicate Valid()
    {
      && topk > 0
      && Shaped(hidden, k)
      && |w2| == |w1|
      && (forall e :: 0 <= e < |w1| ==> |w1[e]| == n && Shaped(w1[e], k))
      && (forall e :: 0 <= e < |w2| ==> |w2[e]| == h && Shaped(w2[e], n2))
      && |topkIds| == |hidden| && |topkWeights| == |hidden|
      && (forall t :: 0 <= t < |hidden| ==> |topkIds[t]| == topk && |topkWeights[t]| == topk)
      && expertOffset + |w1| <= NumExperts()
      && (renormalize ==> forall t :: 0 <= t < |topkWeights| ==> RowSum(topkWeights[t]) != 0.0)
    }

    /** Every token routes to `topk` distinct experts, each below `num_experts`. */
    ghost predicate Routed()
    {
      forall t :: 0 <= t < |topkIds| ==>
        DistinctIds(topkIds[t]) && forall s :: 0 <= s < |topkIds[t]| ==> 0 <= topkIds[t][s] < NumExperts()
    }

    /** The routing weights after `_renormalize`. */
    function Weights(): (w: seq<seq<real>>)
      requires Valid()
      ensures |w| == |hidden| && forall t :: 0 <= t < |hidden| ==> |w[t]| == topk
    {
      Renormalize(topkWeights, renormalize)
    }

    /** Gate/up projection of token `t` by local expert `e`: one entry per row of `w1[e]`. */
    function Up(t: nat, e: nat): (u: seq<real>)
      requires Valid() && t < |hidden| && e < |w1|
      ensures |u| == n
    {
      seq(n, j requires 0 <= j < n => Dot(hidden[t], w1[e][j], k))
    }

    /**
     * What slot `(t, s)` contributes to column `col` of token `t`'s output:
     * the down projection of the activated gate/up row of its expert, times
     * its routing weight, when the expert is local, and nothing otherwise.
     */
    function SlotOutput(act: seq<real> -> seq<real>, t: nat, s: nat, col: nat): real
      requires Valid() && ActWidth(act, n, n2) && t < |hidden| && s < topk && col < h
    {
      var id := topkIds[t][s];
      if expertOffset <= id < expertOffset + |w1| then
        Dot(act(Up(t, id - expertOffset)), w2[id - expertOffset][col], n2) * Weights()[t][s]
      else 0.0
    }

    /** Sum of the contributions of slots `s < upto` of token `t` to column `col`. */
    function OutputSum(act: seq<real> -> seq<real>, t: nat, col: nat, upto: nat): real
      requires Valid() && ActWidth(act, n, n2) && t < |hidden| && upto <= topk && col < h
    {
      if upto == 0 then 0.0 else OutputSum(act, t, col, upto - 1) + SlotOutput(act, t, upto - 1, col)
    }

    /** The mixture-of-experts output: token by column, summed over the token's slots. */
    function Reference(act: seq<real> -> seq<real>): (ret: seq<seq<real>>)
      requires Valid() && ActWidth(act, n, n2)
      ensures |ret| == |hidden| && Shaped(ret, h)
    {
      seq(|hidden|, t requires 0 <= t < |hidden| =>
        seq(h, col requires 0 <= col < h => OutputSum(act, t, col, topk)))
    }
  }

  /** Summing slot rows that hold the slot contributions gives the reference sum. */
  lemma {:induction false} SlotSumIsOutputSum(call: Call, act: seq<real> -> seq<real>, c: seq<seq<real>>,
                                              t: nat, col: nat, base: nat, upto: nat)
    requires call.Valid() && ActWidth(act, call.n, call.n2)
    requires t < |call.hidden| && upto <= call.topk && col < call.h
    requires base + call.topk <= |c| && Shaped(c, call.h)
    requires forall s :: 0 <= s < call.topk ==> c[base + s][col] == call.SlotOutput(act, t, s, col)
    ensures SlotSum(c, base, col, upto) == call.OutputSum(act, t, col, upto)
  {
    if upto > 0 {
      SlotSumIsOutputSum(call, act, c, t, col, base, upto - 1);
    }
  }

  /**
   * The shard of a call that holds local experts `lo..hi` of its weights:
   * the same tokens and routing, `expert_offset` moved on by `lo`, and
   * `num_experts` kept at the call's global expert count.
   */
  function Shard(call: Call, lo: nat, hi: nat): (part: Call)
    requires call.Valid() && lo <= hi <= |call.w1|
    ensures part.Valid() && |part.w1| == hi - lo && part.expertOffset == call.expertOffset + lo
    ensures part.NumExperts() == call.NumExperts() && (call.Routed() ==> part.Routed())
    ensures part.hidden == call.hidden && part.topkIds == call.topkIds && part.Weights() == call.Weights()
    ensures part.topk == call.topk && part.n == call.n && part.h == call.h && part.n2 == call.n2
  {
    call.(w1 := call.w1[lo..hi], w2 := call.w2[lo..hi], expertOffset := call.expertOffset + lo,
          numExperts := Some(call.NumExperts()))
  }

  /** A shard's gate/up projection by its local expert `e` is the call's by expert `lo + e`. */
  lemma ShardUp(call: Call, lo: nat, hi: nat, t: nat, e: nat)
    requires call.Valid() && lo <= hi <= |call.w1| && t < |call.hidden| && e < hi - lo
    ensures Shard(call, lo, hi).Up(t, e) == call.Up(t, lo + e)
    ensures Shard(call, lo, hi).w2[e] == call.w2[lo + e]
  {
    var part := Shard(call, lo, hi);
    assert part.w1[e] == call.w1[lo + e];
  }

  /**
   * Splitting the local experts at `a`: each slot's contribution is the
   * sum of what the two shards contribute, because its expert is local to
   * at most one of them and both see the same routing weights.
   */
  lemma ShardSlot(call: Call, act: seq<real> -> seq<real>, a: nat, t: nat, s: nat, col: nat)
    requires call.Valid() && ActWidth(act, call.n, call.n2) && a <= |call.w1|
    requires t < |call.hidden| && s < call.topk && col < call.h
    ensures call.SlotOutput(act, t, s, col)
            == Shard(call, 0, a).SlotOutput(act, t, s, col) + Shard(call, a, |call.w1|).SlotOutput(act, t, s, col)
  {
    var id := call.topkIds[t][s];
    if call.expertOffset <= id < call.expertOffset + a {
      ShardLocal(call, 0, a, act, t, s, col);
      ShardForeign(call, a, |call.w1|, act, t, s, col);
    } else if call.expertOffset + a <= id < call.expertOffset + |call.w1| {
      ShardForeign(call, 0, a, act, t, s, col);
      ShardLocal(call, a, |call.w1|, act, t, s, col);
    } else {
      ShardForeign(call, 0, a, act, t, s, col);
      ShardForeign(call, a, |call.w1|, act, t, s, col);
    }
  }

  /** A slot whose expert the shard holds contributes to the shard what it contributes to the call. */
  lemma ShardLocal(call: Call, lo: nat, hi: nat, act: seq<real> -> seq<real>, t: nat, s: nat, col: nat)
    requires call.Valid() && ActWidth(act, call.n, call.n2) && lo <= hi <= |call.w1|
    requires t < |call.hidden| && s < call.topk && col < call.h
    requires call.expertOffset + lo <= call.topkIds[t][s] < call.expertOffset + hi
    ensures Shard(call, lo, hi).SlotOutput(act, t, s, col) == call.SlotOutput(act, t, s, col)
  {
    var part := Shard(call, lo, hi);
    var e := call.topkIds[t][s] - part.expertOffset;
    ShardUp(call, lo, hi, t, e);
    assert part.SlotOutput(act, t, s, col) == Dot(act(part.Up(t, e)), part.w2[e][col], part.n2) * part.Weights()[t][s];
  }

  /** A slot whose expert the shard does not hold contributes nothing to the shard. */
  lemma ShardForeign(call: Call, lo: nat, hi: nat, act: seq<real> -> seq<real>, t: nat, s: nat, col: nat)
    requires call.Valid() && ActWidth(act, call.n, call.n2) && lo <= hi <= |call.w1|
    requires t < |call.hidden| && s < call.topk && col < call.h
    requires !(call.expertOffset + lo <= call.topkIds[t][s] < call.expertOffset + hi)
    ensures Shard(call, lo, hi).SlotOutput(act, t, s, col) == 0.0
  {
  }

  /** The per-token slot sums of the call are the sums of the two shards' slot sums. */
  lemma ShardSum(call: Call, act: seq<real> -> seq<real>, a: nat, t: nat, col: nat)
    requires call.Valid() && ActWidth(act, call.n, call.n2) && a <= |call.w1|
    requires t < |call.hidden| && col < call.h
    ensures call.OutputSum(act, t, col, call.topk)
            == Shard(call, 0, a).OutputSum(act, t, col, call.topk) + Shard(call, a, |call.w1|).OutputSum(act, t, col, call.topk)
  {
    var first, second := Shard(call, 0, a), Shard(call, a, |call.w1|);
    forall s | 0 <= s < call.topk
      ensures call.SlotOutput(act, t, s, col) == first.SlotOutput(act, t, s, col) + second.SlotOutput(act, t, s, col)
    {
      ShardSlot(call, act, a, t, s, col);
    }
    SumsAdd(call, first, second, act, t, col, call.topk);
  }

  /** Slot sums are additive: calls whose slot contributions add up have slot sums that add up. */
  lemma {:induction false} SumsAdd(x: Call, y: Call, z: Call, act: seq<real> -> seq<real>, t: nat, col: nat, upto: nat)
    requires x.Valid() && ActWidth(act, x.n, x.n2) && t < |x.hidden| && upto <= x.topk && col < x.h
    requires y.Valid() && ActWidth(act, y.n, y.n2) && t < |y.hidden| && upto <= y.topk && col < y.h
    requires z.Valid() && ActWidth(act, z.n, z.n2) && t < |z.hidden| && upto <= z.topk && col < z.h
    requires forall s :: 0 <= s < upto ==> x.SlotOutput(act, t, s, col) == y.SlotOutput(act, t, s, col) + z.SlotOutput(act, t, s, col)
    ensures x.OutputSum(act, t, col, upto) == y.OutputSum(act, t, col, upto) + z.OutputSum(act, t, col, upto)
  {
    if upto > 0 {
      SumsAdd(x, y, z, act, t, col, upto - 1);
    }
  }

  /**
   * Sharding the experts (`expert_offset` plus a zeroed buffer for slots of
   * other shards) is consistent: the reference outputs of two shards that
   * split the local experts at `a` add up to the reference output of the
   * whole call.
   */
  lemma ShardedReference(call: Call, act: seq<real> -> seq<real>, a: nat)
    requires call.Valid() && ActWidth(act, call.n, call.n2) && a <= |call.w1|
    ensures forall t, col :: 0 <= t < |call.hidden| && 0 <= col < call.h ==>
              call.Reference(act)[t][col]
              == Shard(call, 0, a).Reference(act)[t][col] + Shard(call, a, |call.w1|).Reference(act)[t][col]
  {
    forall t, col | 0 <= t < |call.hidden| && 0 <= col < call.h
      ensures call.Reference(act)[t][col]
              == Shard(call, 0, a).Reference(act)[t][col] + Shard(call, a, |call.w1|).Reference(act)[t][col]
    {
      ShardSum(call, act, a, t, col);
    }
  }

  /** The sorted slots and per-expert segments `_get_sorted_idx` hands to both passes. */
  ghost predicate SortedSlots(call: Call, sortedIdx: seq<int>, starts: seq<int>, ends: seq<int>)
  {
    && IsPermutation(sortedIdx, |Flatten(call.topkIds)|)
    && |starts| == call.NumExperts() && |ends| == call.NumExperts()
    && forall e :: 0 <= e < call.NumExperts() ==> IsSegment(Flatten(call.topkIds), sortedIdx, e, starts[e], ends[e])
  }

  /**
   * The gate/up launch: input rows `hidden_states[sid // topk]`, output row
   * the sorted position itself, no routing weight.
   */
  function GateUpPass(call: Call, sortedIdx: seq<int>, starts: seq<int>, ends: seq<int>, cfg: TileConfig): Pass
    requires call.Valid()
  {
    Pass(call.hidden, call.w1, sortedIdx, starts, ends, Flatten(call.Weights()), false, call.topk,
         |call.hidden|, call.expertOffset, true, false, call.n, call.k, cfg)
  }

  /**
   * The down launch: input row the sorted position (a row of the activated
   * first buffer), output row `sid`, scaled by the routing weight, `top_k = 1`.
   */
  function DownPass(call: Call, gate: seq<seq<real>>, sortedIdx: seq<int>, starts: seq<int>, ends: seq<int>,
                    cfg: TileConfig): Pass
    requires call.Valid()
  {
    Pass(gate, call.w2, sortedIdx, starts, ends, Flatten(call.Weights()), true, 1,
         |call.hidden|, call.expertOffset, false, true, call.h, call.n2, cfg)
  }

  /** Both launches see disjoint expert segments. */
  lemma SlotsDisjoint(call: Call, pass: Pass, sortedIdx: seq<int>, starts: seq<int>, ends: seq<int>)
    requires call.Valid() && SortedSlots(call, sortedIdx, starts, ends)
    requires pass.Valid() && pass.sortedIdx == sortedIdx && pass.expStart == starts && pass.expEnd == ends
    requires pass.expertOffset == call.expertOffset && |pass.b| == |call.w1|
    ensures SegmentsDisjoint(pass)
  {
    var flat := Flatten(call.topkIds);
    forall e1: nat, e2: nat, p | e1 < e2 < |pass.b| && pass.InSegment(e1, p)
      ensures !pass.InSegment(e2, p)
    {
      assert IsSegment(flat, sortedIdx, call.expertOffset + e1, starts[call.expertOffset + e1], ends[call.expertOffset + e1]);
      assert 0 <= p < |sortedIdx| && flat[sortedIdx[p]] == call.expertOffset + e1;
      assert IsSegment(flat, sortedIdx, call.expertOffset + e2, starts[call.expertOffset + e2], ends[call.expertOffset + e2]);
    }
  }

  /** The gate/up launch meets what the launcher needs. */
  lemma GateUpReady(call: Call, sortedIdx: seq<int>, starts: seq<int>, ends: seq<int>, cfg: TileConfig)
    requires call.Valid() && SortedSlots(call, sortedIdx, starts, ends) && cfg.Valid()
    ensures GateUpPass(call, sortedIdx, starts, ends, cfg).Valid()
    ensures GateUpPass(call, sortedIdx, starts, ends, cfg).Fits(|call.hidden| * call.topk)
    ensures GateUpPass(call, sortedIdx, starts, ends, cfg).RowsDistinct()
    ensures SegmentsDisjoint(GateUpPass(call, sortedIdx, starts, ends, cfg))
  {
    var pass := GateUpPass(call, sortedIdx, starts, ends, cfg);
    FlattenLength(call.topkIds, call.topk);
    SlotTokens(sortedIdx, |call.hidden|, call.topk);
    SegmentsInRange(call, sortedIdx, starts, ends);
    SlotsDisjoint(call, pass, sortedIdx, starts, ends);
  }

  /** Every sorted slot `sid` of `m * topk` slots belongs to a token `sid // topk` below `m`. */
  lemma SlotTokens(sortedIdx: seq<int>, m: nat, topk: nat)
    requires topk > 0 && IndicesIn(sortedIdx, m * topk)
    ensures forall p :: 0 <= p < |sortedIdx| ==> 0 <= sortedIdx[p] / topk < m
  {
    forall p | 0 <= p < |sortedIdx|
      ensures 0 <= sortedIdx[p] / topk < m
    {
      DivBelow(sortedIdx[p], topk, m);
    }
  }

  /** The segment of every expert lies inside the sorted slots. */
  lemma SegmentsInRange(call: Call, sortedIdx: seq<int>, starts: seq<int>, ends: seq<int>)
    requires SortedSlots(call, sortedIdx, starts, ends)
    ensures forall e :: 0 <= e < call.NumExperts() ==> 0 <= starts[e] <= ends[e] <= |sortedIdx|
  {
    forall e | 0 <= e < call.NumExperts()
      ensures 0 <= starts[e] <= ends[e] <= |sortedIdx|
    {
      assert IsSegment(Flatten(call.topkIds), sortedIdx, e, starts[e], ends[e]);
    }
  }

  /** The down launch meets what the launcher needs. */
  lemma DownReady(call: Call, gate: seq<seq<real>>, sortedIdx: seq<int>, starts: seq<int>, ends: seq<int>,
                  cfg: TileConfig)
    requires call.Valid() && SortedSlots(call, sortedIdx, starts, ends) && cfg.Valid()
    requires |gate| == |call.hidden| * call.topk && Shaped(gate, call.n2)
    ensures DownPass(call, gate, sortedIdx, starts, ends, cfg).Valid()
    ensures DownPass(call, gate, sortedIdx, starts, ends, cfg).Fits(|call.hidden| * call.topk)
    ensures DownPass(call, gate, sortedIdx, starts, ends, cfg).RowsDistinct()
    ensures SegmentsDisjoint(DownPass(call, gate, sortedIdx, starts, ends, cfg))
  {
    var pass := DownPass(call, gate, sortedIdx, starts, ends, cfg);
    FlattenLength(call.topkIds, call.topk);
    FlattenLength(call.Weights(), call.topk);
    SegmentsInRange(call, sortedIdx, starts, ends);
    SlotsDisjoint(call, pass, sortedIdx, starts, ends);
  }

  /**
   * The sorted position `p` that reads slot `(t, s)`: it lies in the segment
   * of the slot's expert, and that segment is no longer than the token count.
   */
  lemma SlotPosition(call: Call, sortedIdx: seq<int>, starts: seq<int>, ends: seq<int>, t: nat, s: nat)
    returns (p: nat)
    requires call.Valid() && call.Routed() && SortedSlots(call, sortedIdx, starts, ends)
    requires t < |call.hidden| && s < call.topk
    ensures 0 <= call.topkIds[t][s] < call.NumExperts()
    ensures p < |sortedIdx| && sortedIdx[p] == t * call.topk + s
    ensures starts[call.topkIds[t][s]] <= p < ends[call.topkIds[t][s]]
    ensures ends[call.topkIds[t][s]] - starts[call.topkIds[t][s]] <= |call.hidden|
  {
    var flat := Flatten(call.topkIds);
    var id := call.topkIds[t][s];
    FlattenAt(call.topkIds, call.topk, t, s);
    var r := t * call.topk + s;
    assert r in sortedIdx;
    p :| 0 <= p < |sortedIdx| && sortedIdx[p] == r;
    assert IsSegment(flat, sortedIdx, id, starts[id], ends[id]);
    SegmentAtMostTokens(call.topkIds, id);
  }

  /**
   * A slot routed to an expert that is not local is read by no covered
   * position, so the launch that scatters to slot rows leaves its row alone.
   */
  lemma ForeignSlotUntouched(call: Call, pass: Pass, sortedIdx: seq<int>, starts: seq<int>, ends: seq<int>,
                             t: nat, s: nat)
    requires call.Valid() && SortedSlots(call, sortedIdx, starts, ends)
    requires t < |call.hidden| && s < call.topk
    requires pass.Valid() && pass.sortedIdx == sortedIdx && pass.expStart == starts && pass.expEnd == ends
    requires pass.expertOffset == call.expertOffset && |pass.b| == |call.w1| && pass.reindexC
    requires !(call.expertOffset <= call.topkIds[t][s] < call.expertOffset + |call.w1|)
    ensures !OwnedRow(pass, t * call.topk + s)
  {
    var flat := Flatten(call.topkIds);
    FlattenAt(call.topkIds, call.topk, t, s);
    forall e: nat, p | e < |pass.b| && 0 <= p < |sortedIdx| && Covered(pass, e, p)
      ensures pass.CRow(p) != t * call.topk + s
    {
      assert IsSegment(flat, sortedIdx, call.expertOffset + e, starts[call.expertOffset + e], ends[call.expertOffset + e]);
    }
  }

  /**
   * A slot routed to a local expert: its sorted position is covered by both
   * launches, so its row of the first buffer is the gate/up projection of its
   * token, and its row of the second buffer is the weighted down projection
   * of that row, activated.
   */
  lemma LocalSlot(call: Call, act: seq<real> -> seq<real>, sortedIdx: seq<int>, starts: seq<int>, ends: seq<int>,
                  cfg1: TileConfig, cfg2: TileConfig, init1: seq<seq<real>>, c1: seq<seq<real>>,
                  gate: seq<seq<real>>, init2: seq<seq<real>>, c2: seq<seq<real>>, t: nat, s: nat, col: nat)
    requires call.Valid() && ActWidth(act, call.n, call.n2) && call.Routed()
    requires SortedSlots(call, sortedIdx, starts, ends) && cfg1.Valid() && cfg2.Valid()
    requires t < |call.hidden| && s < call.topk && col < call.h
    requires call.expertOffset <= call.topkIds[t][s] < call.expertOffset + |call.w1|
    requires |init1| == |call.hidden| * call.topk && Shaped(init1, call.n)
    requires GateUpPass(call, sortedIdx, starts, ends, cfg1).Valid()
    requires GateUpPass(call, sortedIdx, starts, ends, cfg1).Fits(|init1|)
    requires PassResult(GateUpPass(call, sortedIdx, starts, ends, cfg1), init1, c1)
    requires |gate| == |c1| && forall r :: 0 <= r < |c1| ==> gate[r] == act(c1[r])
    requires |init2| == |call.hidden| * call.topk && Shaped(init2, call.h)
    requires DownPass(call, gate, sortedIdx, starts, ends, cfg2).Valid()
    requires DownPass(call, gate, sortedIdx, starts, ends, cfg2).Fits(|init2|)
    requires PassResult(DownPass(call, gate, sortedIdx, starts, ends, cfg2), init2, c2)
    ensures SlotHolds(call, act, c2, t, s, col)
  {
    var pass2 := DownPass(call, gate, sortedIdx, starts, ends, cfg2);
    var e := call.topkIds[t][s] - call.expertOffset;
    var p := SlotPosition(call, sortedIdx, starts, ends, t, s);
    GateUpRow(call, sortedIdx, starts, ends, cfg1, init1, c1, t, s, p);
    FullCoverage(pass2, e);
    DownValue(call, act, gate, sortedIdx, starts, ends, cfg2, t, s, col, p);
    assert Covered(pass2, e, p);
    assert pass2.CRow(p) == t * call.topk + s;
    assert c2[pass2.CRow(p)][col] == pass2.Expected(e, p, col);
    assert SlotHolds(call, act, c2, t, s, col);
  }

  /**
   * What the down launch owes a local slot's position is the slot's
   * contribution, once that position's gate row is the activated gate/up
   * projection of the slot's token.
   */
  lemma DownValue(call: Call, act: seq<real> -> seq<real>, gate: seq<seq<real>>, sortedIdx: seq<int>,
                  starts: seq<int>, ends: seq<int>, cfg2: TileConfig, t: nat, s: nat, col: nat, p: nat)
    requires call.Valid() && ActWidth(act, call.n, call.n2)
    requires t < |call.hidden| && s < call.topk && col < call.h
    requires call.expertOffset <= call.topkIds[t][s] < call.expertOffset + |call.w1|
    requires DownPass(call, gate, sortedIdx, starts, ends, cfg2).Valid()
    requires p < |sortedIdx| && sortedIdx[p] == t * call.topk + s
    requires p < |gate| && gate[p] == act(call.Up(t, call.topkIds[t][s] - call.expertOffset))
    ensures DownPass(call, gate, sortedIdx, starts, ends, cfg2).Expected(call.topkIds[t][s] - call.expertOffset, p, col)
            == call.SlotOutput(act, t, s, col)
  {
    FlattenAt(call.Weights(), call.topk, t, s);
  }

  /** The first buffer's row of a sorted position of a local slot is its token's gate/up projection. */
  lemma GateUpRow(call: Call, sortedIdx: seq<int>, starts: seq<int>, ends: seq<int>, cfg1: TileConfig,
                  init1: seq<seq<real>>, c1: seq<seq<real>>, t: nat, s: nat, p: nat)
    requires call.Valid() && SortedSlots(call, sortedIdx, starts, ends) && cfg1.Valid()
    requires t < |call.hidden| && s < call.topk
    requires call.expertOffset <= call.topkIds[t][s] < call.expertOffset + |call.w1|
    requires p < |sortedIdx| && sortedIdx[p] == t * call.topk + s
    requires starts[call.topkIds[t][s]] <= p < ends[call.topkIds[t][s]]
    requires ends[call.topkIds[t][s]] - starts[call.topkIds[t][s]] <= |call.hidden|
    requires |init1| == |call.hidden| * call.topk && Shaped(init1, call.n)
    requires GateUpPass(call, sortedIdx, starts, ends, cfg1).Valid()
    requires GateUpPass(call, sortedIdx, starts, ends, cfg1).Fits(|init1|)
    requires PassResult(GateUpPass(call, sortedIdx, starts, ends, cfg1), init1, c1)
    ensures p < |c1| && c1[p] == call.Up(t, call.topkIds[t][s] - call.expertOffset)
  {
    var pass1 := GateUpPass(call, sortedIdx, starts, ends, cfg1);
    var e := call.topkIds[t][s] - call.expertOffset;
    FlattenLength(call.topkIds, call.topk);
    FullCoverage(pass1, e);
    DivModUnique(t * call.topk + s, call.topk, t, s);
    assert pass1.ARow(p) == t;
    forall j | 0 <= j < call.n
      ensures c1[p][j] == call.Up(t, e)[j]
    {
      assert c1[pass1.CRow(p)][j] == pass1.Expected(e, p, j);
    }
  }

  /**
   * After both launches every slot row of the second buffer holds that
   * slot's contribution: a local slot by `LocalSlot`, and a slot of an
   * expert that is not local keeps the zero the buffer started with (only
   * when some experts are not local can such a slot exist, and then the
   * buffer is zero-filled).
   */
  lemma SlotCell(call: Call, act: seq<real> -> seq<real>, sortedIdx: seq<int>, starts: seq<int>, ends: seq<int>,
                 cfg1: TileConfig, cfg2: TileConfig, init1: seq<seq<real>>, c1: seq<seq<real>>,
                 gate: seq<seq<real>>, init2: seq<seq<real>>, c2: seq<seq<real>>, t: nat, s: nat, col: nat)
    requires call.Valid() && ActWidth(act, call.n, call.n2) && call.Routed()
    requires SortedSlots(call, sortedIdx, starts, ends) && cfg1.Valid() && cfg2.Valid()
    requires t < |call.hidden| && s < call.topk && col < call.h
    requires |init1| == |call.hidden| * call.topk && Shaped(init1, call.n)
    requires GateUpPass(call, sortedIdx, starts, ends, cfg1).Valid()
    requires GateUpPass(call, sortedIdx, starts, ends, cfg1).Fits(|init1|)
    requires PassResult(GateUpPass(call, sortedIdx, starts, ends, cfg1), init1, c1)
    requires |gate| == |c1| && forall r :: 0 <= r < |c1| ==> gate[r] == act(c1[r])
    requires |init2| == |call.hidden| * call.topk && Shaped(init2, call.h)
    requires call.NumExperts() != |call.w1| ==>
               forall r, j :: 0 <= r < |init2| && 0 <= j < call.h ==> init2[r][j] == 0.0
    requires DownPass(call, gate, sortedIdx, starts, ends, cfg2).Valid()
    requires DownPass(call, gate, sortedIdx, starts, ends, cfg2).Fits(|init2|)
    requires PassResult(DownPass(call, gate, sortedIdx, starts, ends, cfg2), init2, c2)
    ensures SlotHolds(call, act, c2, t, s, col)
  {
    var id := call.topkIds[t][s];
    if call.expertOffset <= id < call.expertOffset + |call.w1| {
      LocalSlot(call, act, sortedIdx, starts, ends, cfg1, cfg2, init1, c1, gate, init2, c2, t, s, col);
    } else {
      var pass2 := DownPass(call, gate, sortedIdx, starts, ends, cfg2);
      SlotBound(|call.hidden|, t, call.topk, s);
      ForeignSlotUntouched(call, pass2, sortedIdx, starts, ends, t, s);
      assert 0 <= id < call.NumExperts();
    }
  }

  /** After both launches every slot row of the second buffer holds that slot's contribution. */
  lemma Assembled(call: Call, act: seq<real> -> seq<real>, sortedIdx: seq<int>, starts: seq<int>, ends: seq<int>,
                  cfg1: TileConfig, cfg2: TileConfig, init1: seq<seq<real>>, c1: seq<seq<real>>,
                  gate: seq<seq<real>>, init2: seq<seq<real>>, c2: seq<seq<real>>)
    requires call.Valid() && ActWidth(act, call.n, call.n2) && call.Routed()
    requires SortedSlots(call, sortedIdx, starts, ends) && cfg1.Valid() && cfg2.Valid()
    requires |init1| == |call.hidden| * call.topk && Shaped(init1, call.n)
    requires GateUpPass(call, sortedIdx, starts, ends, cfg1).Valid()
    requires GateUpPass(call, sortedIdx, starts, ends, cfg1).Fits(|init1|)
    requires PassResult(GateUpPass(call, sortedIdx, starts, ends, cfg1), init1, c1)
    requires |gate| == |c1| && forall r :: 0 <= r < |c1| ==> gate[r] == act(c1[r])
    requires |init2| == |call.hidden| * call.topk && Shaped(init2, call.h)
    requires call.NumExperts() != |call.w1| ==>
               forall r, j :: 0 <= r < |init2| && 0 <= j < call.h ==> init2[r][j] == 0.0
    requires DownPass(call, gate, sortedIdx, starts, ends, cfg2).Valid()
    requires DownPass(call, gate, sortedIdx, starts, ends, cfg2).Fits(|init2|)
    requires PassResult(DownPass(call, gate, sortedIdx, starts, ends, cfg2), init2, c2)
    ensures |c2| == |call.hidden| * call.topk && Shaped(c2, call.h)
    ensures SlotsHold(call, act, c2)
  {
    forall t: nat, s: nat, col: nat | t < |call.hidden| && s < call.topk && col < call.h
      ensures SlotHolds(call, act, c2, t, s, col)
    {
      SlotCell(call, act, sortedIdx, starts, ends, cfg1, cfg2, init1, c1, gate, init2, c2, t, s, col);
    }
  }

  /** Row `t * topk + s` of the slot buffer `c` holds slot `(t, s)`'s contribution at column `col`. */
  ghost predicate SlotHolds(call: Call, act: seq<real> -> seq<real>, c: seq<seq<real>>, t: nat, s: nat, col: nat)
    requires call.Valid() && ActWidth(act, call.n, call.n2) && t < |call.hidden| && s < call.topk && col < call.h
  {
    t * call.topk + s < |c| && col < |c[t * call.topk + s]| && c[t * call.topk + s][col] == call.SlotOutput(act, t, s, col)
  }

  /** Every slot row of `c` holds its slot's contribution. */
  ghost predicate SlotsHold(call: Call, act: seq<real> -> seq<real>, c: seq<seq<real>>)
    requires call.Valid() && ActWidth(act, call.n, call.n2)
  {
    forall t: nat, s: nat, col: nat :: t < |call.hidden| && s < call.topk && col < call.h ==>
      SlotHolds(call, act, c, t, s, col)
  }

  /** A slot buffer whose every slot row holds the slot's contribution reduces to the reference output. */
  lemma Summed(call: Call, act: seq<real> -> seq<real>, c: seq<seq<real>>)
    requires call.Valid() && ActWidth(act, call.n, call.n2)
    requires |c| == |call.hidden| * call.topk && Shaped(c, call.h) && SlotsHold(call, act, c)
    ensures Reduce(c, |call.hidden|, call.topk, call.h) == call.Reference(act)
  {
    var m := |call.hidden|;
    var ret := Reduce(c, m, call.topk, call.h);
    forall t | 0 <= t < m
      ensures ret[t] == call.Reference(act)[t]
    {
      forall col | 0 <= col < call.h
        ensures ret[t][col] == call.Reference(act)[t][col]
      {
        TokenRows(m, t, call.topk);
        forall s: nat | s < call.topk
          ensures c[t * call.topk + s][col] == call.SlotOutput(act, t, s, col)
        {
          assert SlotHolds(call, act, c, t, s, col);
        }
        SlotSumIsOutputSum(call, act, c, t, col, t * call.topk, call.topk);
      }
    }
  }

  /**
   * `fused_moe`. The buffers are zero-filled exactly when some of the
   * `num_experts` experts are not local; otherwise they start with whatever
   * the memory held (`stale1`, `stale2`). `argsort` is the order
   * `flatten_topk_ids.argsort()` returns, and `act` is `silu_and_mul`. When
   * every token routes to distinct experts below `num_experts`, the result is
   * the mixture-of-experts reference whatever the buffers held.
   */
  method FusedMoe(call: Call, act: seq<real> -> seq<real>, argsort: seq<int>, cfg1: TileConfig, cfg2: TileConfig,
                  stale1: (nat, nat) -> real, stale2: (nat, nat) -> real) returns (ret: seq<seq<real>>)
    requires call.Valid() && ActWidth(act, call.n, call.n2) && cfg1.Valid() && cfg2.Valid()
    requires IsPermutation(argsort, |Flatten(call.topkIds)|) && Sorted(Gather(Flatten(call.topkIds), argsort))
    ensures |ret| == |call.hidden| && Shaped(ret, call.h)
    ensures call.Routed() ==> ret == call.Reference(act)
  {
    var m := |call.hidden|;
    var numExperts := call.NumExperts();
    var fullExp := numExperts == |call.w1|;

    var sortedIdx, expStart, expEnd := GetSortedIdx(call.topkIds, argsort, numExperts);
    var starts, ends := expStart[..], expEnd[..];
    assert SortedSlots(call, sortedIdx, starts, ends);

    // gate and up
    var cache1 := MakeIntermediate(m * call.topk, call.n, !fullExp, stale1);
    ghost var init1 := Contents(cache1);
    var pass1 := GateUpPass(call, sortedIdx, starts, ends, cfg1);
    GateUpReady(call, sortedIdx, starts, ends, cfg1);
    ProjectionPass(pass1, cache1);
    var rows1 := Contents(cache1);

    // activate
    var gate := seq(|rows1|, r requires 0 <= r < |rows1| => act(rows1[r]));

    // down
    var cache2 := MakeIntermediate(m * call.topk, call.h, !fullExp, stale2);
    ghost var init2 := Contents(cache2);
    var pass2 := DownPass(call, gate, sortedIdx, starts, ends, cfg2);
    DownReady(call, gate, sortedIdx, starts, ends, cfg2);
    ProjectionPass(pass2, cache2);
    var rows2 := Contents(cache2);

    ret := Reduce(rows2, m, call.topk, call.h);
    if call.Routed() {
      Assembled(call, act, sortedIdx, starts, ends, cfg1, cfg2, init1, rows1, gate, init2, rows2);
      Summed(call, act, rows2);
    }
  }
}
