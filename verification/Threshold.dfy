/** bf16FindThreshold: two-level parallel scan of the histogram and the search for the threshold bin. */
module Threshold {
  import opened Sums
  import opened WarpOps

  /** The shared-memory record that one thread fills in. */
  class MatchBin {
    var bin: nat
    var aboveCount: nat
    var equalCount: nat

    constructor () {
      bin, aboveCount, equalCount := 0, 0, 0;
    }
  }

  /** Entries before bin `n`. */
  ghost function Before(h: seq<nat>, n: nat): nat
    requires n <= |h|
  {
    Sum(h[..n])
  }

  /** The test of line 192: fewer than `topK` entries lie above bin `b`, at least `topK` in it or above. */
  ghost predicate Meets(h: seq<nat>, topK: nat, b: nat)
  {
    b < |h| && Sum(h[b + 1..]) < topK <= Sum(h[b + 1..]) + h[b]
  }

  lemma {:induction false} AfterBefore(h: seq<nat>, n: nat)
    requires n <= |h|
    ensures Before(h, n) + Sum(h[n..]) == Sum(h)
  {
    assert h == h[..n] + h[n..];
    SumConcat(h[..n], h[n..]);
  }

  lemma {:induction false} BeforeMonotone(h: seq<nat>, a: nat, b: nat)
    requires a <= b <= |h|
    ensures Before(h, a) <= Before(h, b)
    decreases b - a
  {
    if a < b {
      BeforeMonotone(h, a, b - 1);
      SumPrefixStep(h, b - 1);
    }
  }

  /** In terms of prefix sums the test reads: `length - topK` falls into bin `b`. */
  lemma {:induction false} MeetsAsPrefix(h: seq<nat>, topK: nat, b: nat)
    requires topK <= Sum(h) && b < |h|
    ensures Meets(h, topK, b) <==> Before(h, b) <= Sum(h) - topK < Before(h, b + 1)
  {
    AfterBefore(h, b + 1);
    SumPrefixStep(h, b);
  }

  /** Exactly one bin meets the test. */
  lemma {:induction false} OneBinMeets(h: seq<nat>, topK: nat) returns (b: nat)
    requires 1 <= topK <= Sum(h)
    ensures Meets(h, topK, b)
    ensures forall x: nat :: Meets(h, topK, x) ==> x == b
  {
    var target := Sum(h) - topK;
    assert h[..|h|] == h;
    b := 0;
    while Before(h, b + 1) <= target
      invariant b < |h| && Before(h, b) <= target
      decreases |h| - b
    {
      b := b + 1;
    }
    MeetsAsPrefix(h, topK, b);
    forall x: nat | Meets(h, topK, x)
      ensures x == b
    {
      MeetsAsPrefix(h, topK, x);
      if x < b {
        BeforeMonotone(h, x + 1, b);
      } else if b < x {
        BeforeMonotone(h, b + 1, x);
      }
    }
  }

  // ---------------------------------------------------------------- chunks of consecutive bins

  /** `v` is the sum of chunk `t`. */
  ghost predicate IsChunkSum(h: seq<nat>, t: nat, size: nat, v: nat)
  {
    Start(t, size) + size <= |h| && v == Sum(h[Start(t, size)..Start(t, size) + size])
  }

  /** Entry `l` of `sums` is the sum of chunk `base + l` of `h`. */
  ghost predicate ChunkSums(h: seq<nat>, sums: seq<nat>, base: nat, size: nat)
  {
    && Start(base + |sums|, size) <= |h|
    && forall l :: 0 <= l < |sums| ==> IsChunkSum(h, base + l, size, sums[l])
  }

  /** Chunk sums add up to the sum over the bins they cover. */
  lemma {:induction false} ChunkSumsTotal(h: seq<nat>, sums: seq<nat>, base: nat, size: nat, n: nat)
    requires ChunkSums(h, sums, base, size) && n <= |sums|
    ensures Start(base, size) <= Start(base + n, size) <= |h|
    ensures Sum(sums[..n]) == Sum(h[Start(base, size)..Start(base + n, size)])
  {
    StartMonotone(base, base + n, size);
    StartMonotone(base + n, base + |sums|, size);
    if n > 0 {
      ChunkSumsTotal(h, sums, base, size, n - 1);
      assert IsChunkSum(h, base + (n - 1), size, sums[n - 1]);
      SumPrefixStep(sums, n - 1);
      SumWindow(h, Start(base, size), Start(base + (n - 1), size), Start(base + n, size));
    }
  }

  // ---------------------------------------------------------------- the kernel phase

  /** The per-lane sums of warp `w`. */
  method LaneSums(histogram: array<nat>, lanes: nat, items: nat, w: nat) returns (sums: seq<nat>)
    requires Start(Start(w, lanes) + lanes, items) <= histogram.Length
    ensures |sums| == lanes && ChunkSums(histogram[..], sums, Start(w, lanes), items)
  {
    sums := [];
    StartMonotone(Start(w, lanes), Start(w, lanes) + lanes, items);
    for l := 0 to lanes
      invariant |sums| == l && ChunkSums(histogram[..], sums, Start(w, lanes), items)
    {
      var first := Start(Start(w, lanes) + l, items);
      StartMonotone(Start(w, lanes) + l + 1, Start(w, lanes) + lanes, items);
      var localSum: nat := 0;
      for i := 0 to items
        invariant localSum == Sum(histogram[..][first..first + i])
      {
        SumWindow(histogram[..], first, first + i, first + i + 1);
        assert histogram[..][first + i..first + i + 1] == [histogram[first + i]];
        assert Sum([histogram[first + i]]) == histogram[first + i];
        localSum := localSum + histogram[first + i];
      }
      ChunkSumsExtend(histogram[..], sums, Start(w, lanes), items, localSum);
      sums := sums + [localSum];
    }
  }

  lemma {:induction false} ChunkSumsExtend(h: seq<nat>, sums: seq<nat>, base: nat, size: nat, x: nat)
    requires ChunkSums(h, sums, base, size)
    requires Start(base + |sums|, size) + size <= |h|
    requires x == Sum(h[Start(base + |sums|, size)..Start(base + |sums|, size) + size])
    ensures ChunkSums(h, sums + [x], base, size)
  {
    assert Start(base + |sums| + 1, size) == Start(base + |sums|, size) + size;
    assert base + |sums| + 1 == base + |sums + [x]|;
    assert forall l :: 0 <= l < |sums| ==> (sums + [x])[l] == sums[l];
  }

  /** Sum over the warps before `w`, as every lane of warp `w` computes it from `warpSum`. */
  method WarpBase(warpSum: array<nat>, w: nat, ghost h: seq<nat>, ghost size: nat) returns (base: nat)
    requires IsPow2(warpSum.Length) && w < warpSum.Length
    requires ChunkSums(h, warpSum[..], 0, size)
    ensures Start(w, size) <= |h| && base == Before(h, Start(w, size))
  {
    var masked := seq(warpSum.Length, l requires 0 <= l < warpSum.Length reads warpSum => if l < w then warpSum[l]
      else 0);
    var reduced := WarpReduceSum(masked);
    base := reduced[0];
    MaskedSum(warpSum[..], masked, w);
    ChunkSumsTotal(h, warpSum[..], 0, size, w);
    assert h[Start(0, size)..Start(w, size)] == h[..Start(w, size)];
  }

  lemma {:induction false} MaskedSum(s: seq<nat>, masked: seq<nat>, w: nat)
    requires |masked| == |s| && w <= |s|
    requires forall l :: 0 <= l < |s| ==> masked[l] == if l < w then s[l] else 0
    ensures Sum(masked) == Sum(s[..w])
  {
    if |s| > w {
      var n := |s| - 1;
      MaskedSum(s[..n], masked[..n], w);
      assert s[..n][..w] == s[..w];
    } else {
      assert masked == s[..w] == s;
    }
  }

  /** `v` counts the entries of warp `w` before its lane `l`. */
  ghost predicate LanePrefix(h: seq<nat>, lanes: nat, items: nat, size: nat, w: nat, l: nat, v: nat)
  {
    && Start(w, size) <= Start(Start(w, lanes) + l, items) <= |h|
    && v == Sum(h[Start(w, size)..Start(Start(w, lanes) + l, items)])
  }

  /** What warp `w` leaves behind after the first phase: its total, and the exclusive prefix of each lane. */
  ghost predicate WarpScanned(h: seq<nat>, lanes: nat, items: nat, size: nat, w: nat, exc: seq<nat>, total: nat)
  {
    && |exc| == lanes
    && IsChunkSum(h, w, size, total)
    && forall l :: 0 <= l < lanes ==> LanePrefix(h, lanes, items, size, w, l, exc[l])
  }

  /** The exclusive scan: each lane subtracts its own contribution. */
  function Differences(inc: seq<nat>, sums: seq<nat>): (d: seq<nat>)
    requires |inc| == |sums|
    requires forall l :: 0 <= l < |inc| ==> inc[l] >= sums[l]
    ensures |d| == |inc|
    ensures forall l :: 0 <= l < |inc| ==> d[l] == inc[l] - sums[l]
  {
    seq(|inc|, l requires 0 <= l < |inc| => (inc[l] - sums[l]) as nat)
  }

  lemma {:induction false} WarpLayout(lanes: nat, items: nat, size: nat, w: nat)
    requires w < lanes && size == Start(lanes, items)
    ensures Start(Start(w, lanes), items) == Start(w, size)
    ensures Start(Start(w, lanes) + lanes, items) == Start(w, size) + size == Start(w + 1, size)
    ensures Start(w, size) + size <= Start(Start(lanes, lanes), items) == Start(lanes, size)
  {
    RowsOfRows(w, lanes, items, size);
    RowsOfRows(w + 1, lanes, items, size);
    RowsOfRows(lanes, lanes, items, size);
    StartMonotone(w + 1, lanes, size);
  }

  lemma {:induction false} RowsOfRows(w: nat, lanes: nat, items: nat, size: nat)
    requires size == Start(lanes, items)
    ensures Start(Start(w, lanes), items) == Start(w, size)
  {
    if w > 0 {
      RowsOfRows(w - 1, lanes, items, size);
      StartAdd(Start(w - 1, lanes), lanes, items);
    }
  }

  ghost predicate IsScan(sums: seq<nat>, inc: seq<nat>)
  {
    |inc| == |sums| && forall l :: 0 <= l < |sums| ==> inc[l] == Sum(sums[..l + 1])
  }

  lemma {:induction false} ScanIsPrefix(h: seq<nat>, sums: seq<nat>, inc: seq<nat>, lanes: nat, items: nat, size: nat,
                                        w: nat)
    requires size == Start(lanes, items) && w < lanes == |sums| && |h| == Start(Start(lanes, lanes), items)
    requires ChunkSums(h, sums, Start(w, lanes), items) && IsScan(sums, inc)
    ensures forall l :: 0 <= l < lanes ==> inc[l] >= sums[l]
    ensures WarpScanned(h, lanes, items, size, w, Differences(inc, sums), inc[lanes - 1])
  {
    forall l | 0 <= l < lanes
      ensures inc[l] >= sums[l]
      ensures LanePrefix(h, lanes, items, size, w, l, inc[l] - sums[l])
    {
      assert inc[l] == Sum(sums[..l + 1]);
      ScanLane(h, sums, inc, lanes, items, size, w, l);
    }
    ScanTotal(h, sums, inc, lanes, items, size, w);
  }

  lemma {:induction false} ScanTotal(h: seq<nat>, sums: seq<nat>, inc: seq<nat>, lanes: nat, items: nat, size: nat,
                                     w: nat)
    requires size == Start(lanes, items) && w < lanes == |sums| && |h| == Start(Start(lanes, lanes), items)
    requires ChunkSums(h, sums, Start(w, lanes), items) && IsScan(sums, inc)
    ensures IsChunkSum(h, w, size, inc[lanes - 1])
  {
    WarpLayout(lanes, items, size, w);
    ChunkSumsTotal(h, sums, Start(w, lanes), items, lanes);
    assert inc[lanes - 1] == Sum(sums[..lanes]);
  }

  lemma {:induction false} ScanLane(h: seq<nat>, sums: seq<nat>, inc: seq<nat>, lanes: nat, items: nat, size: nat,
                                    w: nat, l: nat)
    requires size == Start(lanes, items) && l < lanes && w < lanes == |sums| == |inc|
             && |h| == Start(Start(lanes, lanes), items)
    requires ChunkSums(h, sums, Start(w, lanes), items)
    requires inc[l] == Sum(sums[..l + 1])
    ensures inc[l] >= sums[l]
    ensures LanePrefix(h, lanes, items, size, w, l, inc[l] - sums[l])
  {
    WarpLayout(lanes, items, size, w);
    SumPrefixStep(sums, l);
    ChunkSumsTotal(h, sums, Start(w, lanes), items, l);
  }

  /** First phase: warps run in any order. */
  method ScanWarps(histogram: array<nat>, warpSum: array<nat>, lanes: nat, items: nat, ghost size: nat)
      returns (warpExc: map<nat, seq<nat>>)
    requires size == Start(lanes, items)
    requires histogram != warpSum && lanes > 0
    requires histogram.Length == Start(Start(lanes, lanes), items) && warpSum.Length == lanes
    modifies warpSum
    ensures AllScanned(histogram[..], lanes, items, size, warpExc, warpSum[..])
  {
    warpExc := map[];
    var warps: set<nat> := Upto(lanes);
    while warps != {}
      invariant forall w :: w in warps ==> w < lanes
      invariant forall w: nat :: w < lanes && w !in warps ==>
                  w in warpExc && WarpScanned(histogram[..], lanes, items, size, w, warpExc[w], warpSum[w])
    {
      var w :| w in warps;
      hide WarpScanned, ChunkSums;
      WarpLayout(lanes, items, size, w);
      var sums := LaneSums(histogram, lanes, items, w);
      var inc := WarpInclusiveSum(sums);
      ScanIsPrefix(histogram[..], sums, inc, lanes, items, size, w);
      warpExc := warpExc[w := Differences(inc, sums)];
      warpSum[w] := inc[lanes - 1];
      warps := warps - {w};
    }
  }

  lemma {:induction false} ThreadPrefix(h: seq<nat>, lanes: nat, items: nat, size: nat, w: nat, l: nat, exc: seq<nat>,
                                        total: nat)
    requires w < lanes && l < lanes && |h| == Start(Start(lanes, lanes), items)
    requires WarpScanned(h, lanes, items, size, w, exc, total)
    ensures Start(Start(w, lanes) + l, items) + items <= |h|
    ensures Before(h, Start(w, size)) + exc[l] == Before(h, Start(Start(w, lanes) + l, items))
  {
    var first := Start(Start(w, lanes) + l, items);
    assert LanePrefix(h, lanes, items, size, w, l, exc[l]);
    SumWindow(h, 0, Start(w, size), first);
    assert h[0..first] == h[..first];
    assert h[0..Start(w, size)] == h[..Start(w, size)];
    StartMonotone(w + 1, lanes, lanes);
    StartMonotone(Start(w, lanes) + l + 1, Start(lanes, lanes), items);
  }

  /** One thread of the second phase walks its bins. `b` is the bin that meets the test. */
  method TestBins(histogram: array<nat>, found: MatchBin, t: nat, items: nat, prefix: nat, length: nat, topK: nat,
                  ghost b: nat)
    requires Start(t, items) + items <= histogram.Length
    requires Sum(histogram[..]) == length && 1 <= topK <= length
    requires prefix == Before(histogram[..], Start(t, items))
    requires forall x: nat :: Meets(histogram[..], topK, x) <==> x == b
    modifies found
    ensures Start(t, items) <= b < Start(t, items) + items ==> Found(found, histogram[..], b)
    ensures !(Start(t, items) <= b < Start(t, items) + items) ==> unchanged(found)
  {
    ghost var h := histogram[..];
    var prefixSum := prefix;
    var first := Start(t, items);
    for i := 0 to items
      invariant prefixSum == Before(h, first + i)
      invariant first <= b < first + i ==> Found(found, h, b)
      invariant !(first <= b < first + i) ==> unchanged(found)
    {
      SumPrefixStep(h, first + i);
      AfterBefore(h, first + i + 1);
      prefixSum := prefixSum + histogram[first + i];
      var above: nat := length - prefixSum;  // never negative: the prefix is at most the total
      assert Meets(h, topK, first + i) <==> above < topK <= above + histogram[first + i];
      if above < topK && above + histogram[first + i] >= topK {
        found.bin := first + i;
        found.aboveCount := above;
        found.equalCount := histogram[first + i];
      }
    }
  }

  /** The record holds bin `b` and the counts above and in it. */
  ghost predicate Found(found: MatchBin, h: seq<nat>, b: nat)
    reads found
  {
    b < |h| && found.bin == b && found.aboveCount == Sum(h[b + 1..]) && found.equalCount == h[b]
  }

  /** One thread of the second phase: the prefix of its first bin from the warp totals, then its bins. */
  method ThreadTurn(histogram: array<nat>, warpSum: array<nat>, found: MatchBin, warpExc: map<nat, seq<nat>>,
                    lanes: nat, items: nat, ghost size: nat, t: nat, length: nat, topK: nat, ghost b: nat)
    requires histogram != warpSum && IsPow2(lanes) && size == Start(lanes, items)
    requires histogram.Length == Start(Start(lanes, lanes), items) && warpSum.Length == lanes
    requires AllScanned(histogram[..], lanes, items, size, warpExc, warpSum[..])
    requires t < Start(lanes, lanes)
    requires Sum(histogram[..]) == length && 1 <= topK <= length
    requires forall x: nat :: Meets(histogram[..], topK, x) <==> x == b
    modifies found
    ensures Start(t, items) <= b < Start(t, items) + items ==> Found(found, histogram[..], b)
    ensures !(Start(t, items) <= b < Start(t, items) + items) ==> unchanged(found)
  {
    var w, l := WarpAndLane(t, lanes);
    WarpTotals(histogram[..], warpExc, warpSum[..], lanes, items, size);
    var base := WarpBase(warpSum, w, histogram[..], size);
    assert WarpScanned(histogram[..], lanes, items, size, w, warpExc[w], warpSum[..][w]);
    ThreadPrefix(histogram[..], lanes, items, size, w, l, warpExc[w], warpSum[w]);
    TestBins(histogram, found, t, items, base + warpExc[w][l], length, topK, b);
  }

  ghost predicate AllScanned(h: seq<nat>, lanes: nat, items: nat, size: nat, warpExc: map<nat, seq<nat>>,
                             totals: seq<nat>)
  {
    && |totals| == lanes
    && forall w: nat :: w < lanes ==> w in warpExc && WarpScanned(h, lanes, items, size, w, warpExc[w], totals[w])
  }

  /** bf16FindThreshold for a block of `lanes` warps of `lanes` threads with `items` bins a thread. After the barrier
      the threads of the second phase run in any order; exactly one of them writes the record. */
  method FindThreshold(histogram: array<nat>, warpSum: array<nat>, found: MatchBin, lanes: nat, items: nat,
                       length: nat, topK: nat)
    requires histogram != warpSum && IsPow2(lanes) && items > 0
    requires histogram.Length == Start(Start(lanes, lanes), items) && warpSum.Length == lanes
    requires Sum(histogram[..]) == length && 1 <= topK <= length
    modifies warpSum, found
    ensures Meets(histogram[..], topK, found.bin)
    ensures Found(found, histogram[..], found.bin)
  {
    ghost var size := Start(lanes, items);
    var warpExc := ScanWarps(histogram, warpSum, lanes, items, size);
    // __syncthreads()
    ghost var h := histogram[..];
    ghost var totals := warpSum[..];
    ghost var b := OneBinMeets(h, topK);
    ghost var owner, slot := Split(b, items);
    OwnerInRange(b, owner, slot, lanes, items);
    var threads: set<nat> := Upto(Start(lanes, lanes));
    while threads != {}
      invariant forall t :: t in threads ==> t < Start(lanes, lanes)
      invariant owner !in threads ==> Found(found, h, b)
      invariant warpSum[..] == totals
    {
      var t :| t in threads;
      ThreadTurn(histogram, warpSum, found, warpExc, lanes, items, size, t, length, topK, b);
      ThreadOwns(b, owner, slot, t, items);
      threads := threads - {t};
    }
    // __syncthreads()
  }

  lemma {:induction false} OwnerInRange(b: nat, owner: nat, slot: nat, lanes: nat, items: nat)
    requires items > 0 && b == owner * items + slot && b < Start(Start(lanes, lanes), items)
    ensures owner < Start(lanes, lanes)
  {
    StartIsProduct(owner, items);
    if owner >= Start(lanes, lanes) {
      StartMonotone(Start(lanes, lanes), owner, items);
    }
  }

  /** `threadIdx.x / 32` and `threadIdx.x % 32`. */
  method WarpAndLane(t: nat, lanes: nat) returns (w: nat, l: nat)
    requires 0 < lanes && t < Start(lanes, lanes)
    ensures w < lanes && l < lanes && Start(w, lanes) + l == t
  {
    StartIsProduct(lanes, lanes);
    w, l := t / lanes, t % lanes;
    ghost var q, r := Split(t, lanes);
    DivBelow(t, lanes, lanes);
    StartIsProduct(w, lanes);
  }

  lemma {:induction false} ThreadOwns(b: nat, owner: nat, slot: nat, t: nat, items: nat)
    requires slot < items && b == owner * items + slot
    ensures Start(t, items) <= b < Start(t, items) + items <==> t == owner
  {
    StartIsProduct(owner, items);
    if t < owner {
      StartMonotone(t + 1, owner, items);
    } else if owner < t {
      StartMonotone(owner + 1, t, items);
    }
  }

  lemma {:induction false} WarpTotals(h: seq<nat>, warpExc: map<nat, seq<nat>>, totals: seq<nat>, lanes: nat,
                                      items: nat, size: nat)
    requires size == Start(lanes, items)
    requires lanes > 0 && |h| == Start(Start(lanes, lanes), items)
    requires AllScanned(h, lanes, items, size, warpExc, totals)
    ensures ChunkSums(h, totals, 0, size)
  {
    forall w: nat | w < lanes
      ensures IsChunkSum(h, w, size, totals[w])
    {
      assert WarpScanned(h, lanes, items, size, w, warpExc[w], totals[w]);
    }
    WarpLayout(lanes, items, size, lanes - 1);
  }
}
