/** What both kernels share: the launch parameters, the strided loops over the block, the threshold phase, and the tie
    phase with its outcome. */
module Block {
  import opened Sums
  import opened WarpOps
  import opened Rows
  import opened Threshold
  import opened Histogram
  import opened Scatter
  import opened Ties
  import opened TieOutcome

  /** Compile-time constants. A block has `lanes` warps of `lanes` threads; `floor` and `badIdx` make up the padding
      entry of the two-ballot form. */
  datatype Config = Config(lanes: nat, items: nat, elems: nat, stages: nat, maxTies: nat, floor: int, badIdx: nat)
  {
    ghost predicate Good()
    {
      IsPow2(lanes) && items > 0 && elems > 0 && stages > 0
    }

    function Threads(): nat
    {
      Start(lanes, lanes)
    }

    function Bins(): nat
    {
      Start(Threads(), items)
    }

    lemma {:induction false} ThreadsPositive()
      requires Good()
      ensures lanes > 0 && Threads() > 0
    {
      StartMonotone(1, lanes, lanes);
    }
  }

  /** `for (i = tx; i < n; i += blockDim) dst[i] = src[i]`, threads in any order. */
  method StridedStore<T>(dst: array<T>, src: seq<T>, threads: nat)
    requires threads > 0 && |src| <= dst.Length
    modifies dst
    ensures dst[..|src|] == src && dst[|src|..] == old(dst[|src|..])
  {
    var todo: set<nat> := Upto(threads);
    while todo != {}
      invariant forall j :: 0 <= j < |src| && Ring(j, threads) !in todo ==> dst[j] == src[j]
      invariant forall j :: |src| <= j < dst.Length ==> dst[j] == old(dst[j])
    {
      var t :| t in todo;
      var i := t;
      ThreadStart(t, threads);
      while i < |src|
        invariant t in todo && Ring(i, threads) == t
        invariant forall j :: 0 <= j < |src| && Ring(j, threads) !in todo ==> dst[j] == src[j]
        invariant forall j :: 0 <= j < i && j < |src| && Ring(j, threads) == t ==> dst[j] == src[j]
        invariant forall j :: |src| <= j < dst.Length ==> dst[j] == old(dst[j])
      {
        dst[i] := src[i];
        NoneBetween(i, threads);
        i := i + threads;
      }
      todo := todo - {t};
    }
  }

  lemma {:induction false} ThreadStart(t: nat, threads: nat)
    requires threads > 0
    ensures t < threads ==> Ring(t, threads) == t
    ensures forall j :: 0 <= j < t < threads ==> Ring(j, threads) != t
  {
  }

  lemma {:induction false} NoneBetween(i: nat, threads: nat)
    requires threads > 0
    ensures Ring(i + threads, threads) == Ring(i, threads)
    ensures forall j :: i < j < i + threads ==> Ring(j, threads) != Ring(i, threads)
  {
    forall j | i < j < i + threads
      ensures Ring(j, threads) != Ring(i, threads)
    {
      RingDistinct(i, j, threads);
    }
  }

  // ---------------------------------------------------------------- threshold phase

  /** From an exact histogram the block finds the bin of the k-th best element and the counts above and in it. */
  method ThresholdPhase(row: seq<Elem>, histogram: array<nat>, cfg: Config, topK: nat) returns (found: MatchBin)
    requires cfg.Good() && histogram.Length == cfg.Bins() && ValidRow(row, cfg.Bins())
    requires Counts(histogram[..], row, Indices(row)) && 1 <= topK < |row|
    ensures fresh(found)
    ensures IsThreshold(row, found.bin, topK) && found.bin < cfg.Bins()
    ensures found.aboveCount == |Above(row, found.bin)| && found.equalCount == |InBin(row, found.bin)|
  {
    cfg.ThreadsPositive();
    StartMonotone(1, cfg.Threads(), cfg.items);
    HistogramMeaning(histogram[..], row, 0);
    found := new MatchBin();
    var warpSum := new nat[cfg.lanes];
    FindThreshold(histogram, warpSum, found, cfg.lanes, cfg.items, |row|, topK);
    HistogramMeaning(histogram[..], row, found.bin);
  }

  // ---------------------------------------------------------------- tie phase

  lemma {:induction false} ListsAppend(a: seq<int>, b: seq<int>, s: set<nat>, t: set<nat>)
    requires Lists(a, s) && Lists(b, t) && s !! t
    ensures Lists(a + b, s + t)
  {
    forall i | 0 <= i < |a + b|
      ensures (a + b)[i] >= 0 && (a + b)[i] in s + t
    {
      assert (a + b)[i] == if i < |a| then a[i] else b[i - |a|];
    }
    forall g | g in s + t
      ensures g in a + b
    {
      if g in s {
        assert g in a;
      } else {
        assert g in b;
      }
    }
  }

  /** The positions of the tie buffer that were filled hold distinct elements of the threshold bin. */
  lemma {:induction false} KeptTies(ties: seq<TieEntry>, row: seq<Elem>, bin: nat, eqLog: seq<nat>)
    requires Lists(eqLog, InBin(row, bin)) && |ties| <= |eqLog|
    requires forall p :: 0 <= p < |ties| ==> eqLog[p] < |row| && ties[p] == TieEntry(eqLog[p], row[eqLog[p]].score)
    ensures TiesOf(ties, row, bin)
  {
    forall p | 0 <= p < |ties|
      ensures row[ties[p].idx].bin == bin
    {
      assert eqLog[p] in InBin(row, bin);
    }
  }

  function Idxs(ties: seq<TieEntry>): (s: seq<int>)
    ensures |s| == |ties| && forall i :: 0 <= i < |ties| ==> s[i] == ties[i].idx
  {
    seq(|ties|, i requires 0 <= i < |ties| => ties[i].idx)
  }

  lemma {:induction false} IdxsList(ties: seq<TieEntry>, row: seq<Elem>, bin: nat)
    requires TiesOf(ties, row, bin)
    ensures Lists(Idxs(ties), Members(ties))
  {
    MembersFacts(ties, row, bin);
    forall g | g in Members(ties)
      ensures g in Idxs(ties)
    {
      var j := MemberIndex(ties, g);
      assert Idxs(ties)[j] == g;
    }
  }

  /** When there is room for exactly the members of a set, its best ones are all of them. */
  lemma {:induction false} BestOfAll(row: seq<Elem>, s: set<nat>)
    requires s <= Indices(row)
    ensures Best(row, s, |s|) == s
  {
    forall g | g in s
      ensures RankIn(row, s, g) < |s|
    {
      RankBelowSize(row, s, g);
    }
  }

  /** Buffered ties stored in buffer order behind the indices above complete the selection when they fill the output. */
  lemma {:induction false} PlainComplete(out: seq<int>, out0: seq<int>, gtLog: seq<nat>, ties: seq<TieEntry>,
                                         row: seq<Elem>, bin: nat, k: nat)
    requires Scattered(out0, gtLog, ties, row, bin, k) && |gtLog| + |ties| == k
    requires out == out0[..|gtLog|] + Idxs(ties) + out0[k..]
    requires Members(ties) <= InBin(row, bin) && |Members(ties)| == |ties|
    ensures Lists(out, Selected(row, bin, k, Members(ties)))
  {
    ScatteredPrefix(out0, gtLog, ties, row, bin, k);
    IdxsList(ties, row, bin);
    hide Scattered, Lists, Members, IsThreshold, Best;
    assert out == gtLog + Idxs(ties);
    ListsAppend(gtLog, Idxs(ties), Above(row, bin), Members(ties));
    BestOfAll(row, Members(ties));
  }

  lemma {:induction false} ScatteredPrefix(out0: seq<int>, gtLog: seq<nat>, ties: seq<TieEntry>, row: seq<Elem>,
                                           bin: nat, k: nat)
    requires Scattered(out0, gtLog, ties, row, bin, k)
    ensures |out0| == k && |gtLog| == |Above(row, bin)| < k && out0[..|gtLog|] == gtLog
    ensures forall p :: |gtLog| <= p < k ==> out0[p] == -1
    ensures Lists(gtLog, Above(row, bin)) && TiesOf(ties, row, bin) && IsThreshold(row, bin, k)
  {
  }

  /** When they are too few for that, the last slot stays at -1. */
  lemma {:induction false} PlainIncomplete(out: seq<int>, out0: seq<int>, gtLog: seq<nat>, ties: seq<TieEntry>,
                                           row: seq<Elem>, bin: nat, k: nat)
    requires Scattered(out0, gtLog, ties, row, bin, k) && |gtLog| + |ties| < k
    requires out == out0[..|gtLog|] + Idxs(ties) + out0[|gtLog| + |ties|..]
    ensures -1 in out
  {
    ScatteredPrefix(out0, gtLog, ties, row, bin, k);
    hide Scattered, Lists, TiesOf, IsThreshold;
    assert out[k - 1] == out0[k - 1] == -1;
  }

  /** The strided loop that needs no ranks: tie `i` goes to slot `above + i`, threads in any order. */
  method StorePlain(sTopK: array<int>, ties: seq<TieEntry>, above: nat)
    requires above + |ties| <= sTopK.Length
    modifies sTopK
    ensures sTopK[..] == old(sTopK[..above]) + Idxs(ties) + old(sTopK[above + |ties|..])
  {
    var todo: set<nat> := Upto(|ties|);
    while todo != {}
      invariant forall i :: i in todo ==> i < |ties|
      invariant forall i :: 0 <= i < |ties| && i !in todo ==> sTopK[above + i] == ties[i].idx
      invariant forall p :: 0 <= p < above || above + |ties| <= p < sTopK.Length ==> sTopK[p] == old(sTopK[p])
    {
      var i :| i in todo;
      sTopK[above + i] := ties[i].idx;
      todo := todo - {i};
    }
  }

  /** The ranked stores: the selection from the kept ties, or a slot left at -1. */
  method RankTies(sTopK: array<int>, ties: seq<TieEntry>, cfg: Config, above: nat, topK: nat,
                  ghost row: seq<Elem>, ghost bin: nat, ghost gtLog: seq<nat>)
    requires cfg.Good() && sTopK.Length == topK && |gtLog| == above <= topK
    requires Scattered(sTopK[..], gtLog, ties, row, bin, topK)
    requires |row| <= cfg.badIdx
    requires Members(ties) <= InBin(row, bin) && InBin(row, bin) <= Indices(row)
    modifies sTopK
    ensures if Complete(row, Members(ties), cfg.lanes, cfg.floor, topK - above)
            then Lists(sTopK[..], Selected(row, bin, topK, Members(ties))) else -1 in sTopK[..]
  {
    ghost var out0 := sTopK[..];
    ghost var written := RankedCall(sTopK, ties, cfg, above, topK, row, bin, gtLog);
    hide Scattered, RankedStores, TiesOf, Members, InBin, Above, IsThreshold, Complete, Selected, Lists;
    if Complete(row, Members(ties), cfg.lanes, cfg.floor, topK - above) {
      RankedComplete(sTopK[..], out0, written, gtLog, ties, row, bin, topK, cfg.lanes, cfg.floor);
    } else {
      RankedIncomplete(sTopK[..], out0, written, gtLog, ties, row, bin, topK, cfg.lanes, cfg.floor);
    }
  }

  method RankedCall(sTopK: array<int>, ties: seq<TieEntry>, cfg: Config, above: nat, topK: nat,
                    ghost row: seq<Elem>, ghost bin: nat, ghost gtLog: seq<nat>) returns (ghost written: map<nat, nat>)
    requires cfg.Good() && sTopK.Length == topK && |gtLog| == above <= topK
    requires Scattered(sTopK[..], gtLog, ties, row, bin, topK)
    requires |row| <= cfg.badIdx
    modifies sTopK
    ensures IsThreshold(row, bin, topK)
    ensures RankedStores(sTopK[..], old(sTopK[..]), written, gtLog, ties, row, bin, topK, cfg.lanes, cfg.floor)
  {
    hide Stored, Lists, Above, InBin, ComputedRank, TiesOf;
    written := StoreRanks(sTopK, ties, cfg.lanes, TieEntry(cfg.badIdx, cfg.floor), above, topK - above, row, bin);
  }
}
