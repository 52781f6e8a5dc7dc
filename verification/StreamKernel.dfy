/** topKPerRowPrefillBF16Stream: one block selects the top k of one row. */
module StreamKernel {
  import opened Sums
  import opened Rows
  import opened Threshold
  import opened Histogram
  import opened Pipeline
  import opened Arrival
  import opened Scatter
  import opened WorkSteal
  import opened Ties
  import opened TieOutcome
  import opened Block

  /** The row of the block: `rowEnd - rowStart` scores, none when the bounds are reversed. */
  function RowOf(logits: seq<Elem>, rowStart: nat, rowEnd: nat): (row: seq<Elem>)
    requires rowEnd <= |logits|
    ensures |row| == if rowEnd > rowStart then rowEnd - rowStart else 0
    ensures forall i :: 0 <= i < |row| ==> row[i] == logits[rowStart + i]
  {
    if rowEnd > rowStart then logits[rowStart..rowEnd] else []
  }

  /** `out` lists `k` different places of a window of the logits, counted from its start, and no score of the window
      that is not listed is higher than a listed one. */
  ghost predicate WindowTopK(out: seq<int>, logits: seq<Elem>, rowStart: nat, rowEnd: nat, k: nat)
    requires rowEnd <= |logits|
  {
    && |out| == k
    && (forall i :: 0 <= i < |out| ==> 0 <= out[i] < rowEnd - rowStart)
    && (forall i, j :: 0 <= i < j < |out| ==> out[i] != out[j])
    && forall i, q :: 0 <= i < |out| && 0 <= q < rowEnd - rowStart && q !in out ==>
         logits[rowStart + out[i]].score >= logits[rowStart + q].score
  }

  /** Every slot that a thread exists for holds its place of a short window, or -1 behind the window. */
  ghost predicate WindowInOrder(out: seq<int>, rowStart: nat, rowEnd: nat, threads: nat)
  {
    forall p :: 0 <= p < |out| && p < threads ==> out[p] == if p < rowEnd - rowStart then p else -1
  }

  /** A list of the reference selection is a top k of the window itself. */
  lemma {:induction false} WindowSelected(out: seq<int>, logits: seq<Elem>, rowStart: nat, rowEnd: nat, k: nat,
                                          bins: nat)
    requires rowEnd <= |logits| && k <= rowEnd - rowStart && ValidRow(RowOf(logits, rowStart, rowEnd), bins)
    requires Lists(out, Chosen(RowOf(logits, rowStart, rowEnd), k))
    ensures WindowTopK(out, logits, rowStart, rowEnd, k)
  {
    var row := RowOf(logits, rowStart, rowEnd);
    ChosenIsTopK(row, bins, k);
    ListsLength(out, Chosen(row, k));
    hide Chosen, ValidRow;
    forall i | 0 <= i < |out|
      ensures 0 <= out[i] < |row| && out[i] in Chosen(row, k)
    {
      assert out[i] in Indices(row);
    }
    forall i, q | 0 <= i < |out| && 0 <= q < |row| && q !in out
      ensures logits[rowStart + out[i]].score >= logits[rowStart + q].score
    {
      assert q in Indices(row) - Chosen(row, k);
      assert row[out[i]].score >= row[q].score;
    }
  }

  /** What a thread writes for a row that is not longer than `topK`: one slot per thread, and none beyond the block. */
  ghost predicate ShortRow(out: seq<int>, out0: seq<int>, length: nat, threads: nat)
  {
    && |out| == |out0|
    && forall p :: 0 <= p < |out| ==> out[p] == if p >= threads then out0[p] else if p < length then p else -1
  }

  /** A set of ties that the buffer may hold after the scatter: as many as arrived, up to its capacity. */
  ghost predicate IsKept(row: seq<Elem>, bin: nat, kept: set<nat>, maxTies: nat)
  {
    && kept <= InBin(row, bin) && InBin(row, bin) <= Indices(row)
    && |kept| == if |InBin(row, bin)| <= maxTies then |InBin(row, bin)| else maxTies
  }

  ghost predicate NeedTiebreak(row: seq<Elem>, bin: nat, k: nat)
  {
    |Above(row, bin)| + |InBin(row, bin)| > k
  }

  /** The kept ties fill the output. */
  ghost predicate StreamFills(row: seq<Elem>, bin: nat, k: nat, kept: set<nat>, cfg: Config)
    requires IsThreshold(row, bin, k) && kept <= Indices(row)
  {
    if NeedTiebreak(row, bin, k) then Complete(row, kept, cfg.lanes, cfg.floor, k - |Above(row, bin)|)
    else |kept| == |InBin(row, bin)|
  }

  /** A lane scatters its `elems` elements of a tile in order; everything else may happen in any order. */
  ghost function StreamOrder(cfg: Config): Order
  {
    Order(cfg.lanes, cfg.elems, Start(cfg.lanes, cfg.elems), false)
  }

  /** What the streaming kernel leaves in the output of a long row. */
  ghost predicate StreamResult(out: seq<int>, row: seq<Elem>, bin: nat, k: nat, kept: set<nat>, cfg: Config)
  {
    && IsThreshold(row, bin, k) && IsKept(row, bin, kept, cfg.maxTies) && Closed(row, bin, kept, StreamOrder(cfg))
    && if StreamFills(row, bin, k, kept, cfg) then Lists(out, Selected(row, bin, k, kept)) else -1 in out
  }

  // ---------------------------------------------------------------- phases

  /** Each thread clears its own bins. */
  method ClearHistogram(histogram: array<nat>, threads: nat, items: nat)
    requires histogram.Length == Start(threads, items)
    modifies histogram
    ensures forall b :: 0 <= b < histogram.Length ==> histogram[b] == 0
  {
    var t := 0;
    while t < threads
      invariant t <= threads && Start(t, items) <= histogram.Length
      invariant forall b :: 0 <= b < Start(t, items) ==> histogram[b] == 0
    {
      StartMonotone(t + 1, threads, items);
      for i := 0 to items
        invariant forall b :: 0 <= b < Start(t, items) + i ==> histogram[b] == 0
      {
        histogram[Start(t, items) + i] := 0;
      }
      t := t + 1;
    }
  }

  /** Phase A: the histogram of the row, through the pipeline. */
  method HistogramPhase(row: seq<Elem>, cfg: Config) returns (histogram: array<nat>)
    requires cfg.Good() && ValidRow(row, cfg.Bins())
    ensures fresh(histogram) && histogram.Length == cfg.Bins()
    ensures Counts(histogram[..], row, Indices(row))
  {
    cfg.ThreadsPositive();
    histogram := new nat[cfg.Bins()];
    ClearHistogram(histogram, cfg.Threads(), cfg.items);
    var buf := new Elem[cfg.stages, Start(cfg.Threads(), cfg.elems)];
    var pass := new StreamPass(row, cfg.Threads(), cfg.elems, cfg.stages, histogram, buf);
    hide StreamPass.Valid, Counts;
    pass.Run();
  }

  /** Phase C: the counters are reset and each warp has its first tile. */
  method StartScatter(row: seq<Elem>, found: MatchBin, cfg: Config, sTopK: array<int>)
      returns (scatter: ScatterState, stealer: Stealer)
    requires cfg.Good() && IsThreshold(row, found.bin, sTopK.Length)
    requires found.aboveCount == |Above(row, found.bin)|
    requires forall p :: 0 <= p < sTopK.Length ==> sTopK[p] == -1
    ensures fresh(scatter) && fresh(scatter.tieBuffer) && scatter.sTopK == sTopK
    ensures ScatterOf(scatter, row, found, cfg, false) && scatter.done == {}
    ensures fresh(stealer) && stealer.Valid() && stealer.Shape() && stealer.scatter == scatter && stealer.row == row
    ensures stealer.warps == stealer.lanes == cfg.lanes && stealer.LaneOrder() == StreamOrder(cfg)
    ensures forall w :: 0 <= w < |stealer.stolen| ==> stealer.stolen[w] == NotYet
  {
    cfg.ThreadsPositive();
    var tieBuffer := new TieEntry[cfg.maxTies](_ => TieEntry(0, 0));
    scatter := new ScatterState(row, found.bin, found.aboveCount, false, sTopK, tieBuffer, cfg.Threads());
    stealer := new Stealer(row, scatter, cfg.lanes, cfg.lanes, cfg.elems);
    hide ScatterState.Valid, ScatterState.Finished, InOrder;
    Shaped(stealer);
  }

  lemma {:induction false} Shaped(stealer: Stealer)
    requires stealer.Valid()
    ensures stealer.tileSize == Start(stealer.lanes, stealer.elems) && stealer.Shape()
  {
  }

  /** The scatter of a row around the threshold that was found. */
  ghost predicate ScatterOf(scatter: ScatterState, row: seq<Elem>, found: MatchBin, cfg: Config, direct: bool)
    reads found
  {
    && scatter.row == row && scatter.thrBin == found.bin && scatter.numAbove == found.aboveCount
       && scatter.direct == direct
    && scatter.maxTies == cfg.maxTies
  }

  /** The work-stealing scatter. */
  method ScatterPhase(row: seq<Elem>, found: MatchBin, cfg: Config, sTopK: array<int>) returns (scatter: ScatterState)
    requires cfg.Good() && IsThreshold(row, found.bin, sTopK.Length)
    requires found.aboveCount == |Above(row, found.bin)|
    requires forall p :: 0 <= p < sTopK.Length ==> sTopK[p] == -1
    modifies sTopK
    ensures fresh(scatter) && fresh(scatter.tieBuffer) && scatter.sTopK == sTopK
    ensures ScatterOf(scatter, row, found, cfg, false)
    ensures scatter.Valid() && scatter.Finished() && InOrder(scatter.eqLog, StreamOrder(cfg))
  {
    var stealer: Stealer;
    scatter, stealer := StartScatter(row, found, cfg, sTopK);
    hide ScatterState.Valid, ScatterState.Finished, Stealer.Valid, InOrder;
    stealer.Run();
  }

  /** What the tie phase starts from. */
  lemma {:induction false} ScatterOutcome(scatter: ScatterState, order: Order) returns (kept: set<nat>)
    requires scatter.Valid() && scatter.Finished() && !scatter.direct && InOrder(scatter.eqLog, order)
    ensures scatter.counterEq == |InBin(scatter.row, scatter.thrBin)|
    ensures Scattered(scatter.sTopK[..], scatter.gtLog, Buffered(scatter), scatter.row, scatter.thrBin, scatter.topK)
    ensures |scatter.gtLog| == scatter.numAbove < scatter.topK == scatter.sTopK.Length
    ensures kept == Members(Buffered(scatter)) && IsKept(scatter.row, scatter.thrBin, kept, scatter.maxTies)
    ensures |kept| == |Buffered(scatter)| <= |scatter.eqLog| && kept == Logged(scatter.eqLog[..|Buffered(scatter)|])
    ensures Closed(scatter.row, scatter.thrBin, kept, order)
  {
    scatter.Outcome();
    KeptTies(Buffered(scatter), scatter.row, scatter.thrBin, scatter.eqLog);
    kept := Members(Buffered(scatter));
    MembersFacts(Buffered(scatter), scatter.row, scatter.thrBin);
    BufferedFirst(Buffered(scatter), scatter.eqLog);
    FirstAreClosed(scatter.eqLog, scatter.row, scatter.thrBin, |Buffered(scatter)|, order);
  }

  /** The buffer holds what was logged first. */
  lemma {:induction false} BufferedFirst(ties: seq<TieEntry>, log: seq<nat>)
    requires |ties| <= |log| && forall p :: 0 <= p < |ties| ==> ties[p].idx == log[p]
    ensures Members(ties) == Logged(log[..|ties|])
  {
    if |ties| == 0 {
      assert log[..0] == [];
    } else {
      var n := |ties| - 1;
      BufferedFirst(ties[..n], log);
      assert log[..n + 1] == log[..n] + [log[n]];
    }
  }

  /** The `numTies` entries that the tie phase reads. */
  function Buffered(scatter: ScatterState): (ties: seq<TieEntry>)
    requires scatter.maxTies == scatter.tieBuffer.Length
    reads scatter`counterEq, scatter.tieBuffer
    ensures |ties| == if scatter.counterEq <= scatter.maxTies then scatter.counterEq else scatter.maxTies
  {
    scatter.tieBuffer[..if scatter.counterEq <= scatter.maxTies then scatter.counterEq else scatter.maxTies]
  }

  lemma {:induction false} BufferSize(scatter: ScatterState)
    requires scatter.Valid()
    ensures scatter.maxTies == scatter.tieBuffer.Length && scatter.topK == scatter.sTopK.Length
  {
  }

  /** The stores without a tiebreak: the selection, or a slot left at -1 when the buffer was too small. */
  method PlainTies(sTopK: array<int>, ties: seq<TieEntry>, above: nat, topK: nat,
                   ghost row: seq<Elem>, ghost bin: nat, ghost gtLog: seq<nat>)
    requires sTopK.Length == topK && |gtLog| == above && above + |ties| <= topK
    requires Scattered(sTopK[..], gtLog, ties, row, bin, topK)
    requires Members(ties) <= InBin(row, bin) && |Members(ties)| == |ties|
    modifies sTopK
    ensures if above + |ties| == topK then Lists(sTopK[..], Selected(row, bin, topK, Members(ties)))
            else -1 in sTopK[..]
  {
    hide Scattered, Lists, InBin, Members, Selected;
    ghost var out0 := sTopK[..];
    StorePlain(sTopK, ties, above);
    if |gtLog| + |ties| == topK {
      PlainComplete(sTopK[..], out0, gtLog, ties, row, bin, topK);
    } else {
      PlainIncomplete(sTopK[..], out0, gtLog, ties, row, bin, topK);
    }
  }

  /** bf16TieHandle. */
  method TieHandle(sTopK: array<int>, topK: nat, scatter: ScatterState, found: MatchBin, cfg: Config)
      returns (ghost kept: set<nat>)
    requires cfg.Good() && |scatter.row| <= cfg.badIdx && cfg.maxTies == scatter.maxTies
    requires scatter.Valid() && scatter.Finished() && !scatter.direct && scatter.sTopK == sTopK && topK == scatter.topK
    requires found.aboveCount == scatter.numAbove && IsThreshold(scatter.row, scatter.thrBin, topK)
    requires scatter.numAbove == |Above(scatter.row, scatter.thrBin)| && InOrder(scatter.eqLog, StreamOrder(cfg))
    modifies sTopK
    ensures StreamResult(sTopK[..], scatter.row, scatter.thrBin, topK, kept, cfg)
    ensures |Buffered(scatter)| <= |scatter.eqLog| && kept == Logged(scatter.eqLog[..|Buffered(scatter)|])
  {
    BufferSize(scatter);
    hide ScatterState.Valid, ScatterState.Finished, Scattered, Lists, Above, InBin, Members, Complete, Selected;
    hide RanksExact, Indices, InOrder, Closed, Logged;
    kept := ScatterOutcome(scatter, StreamOrder(cfg));
    var ties := Buffered(scatter);
    var numAbove, numEqual := found.aboveCount, scatter.counterEq;
    var topkRemain := if topK > numAbove then topK - numAbove else 0;
    var needTiebreak := numAbove + numEqual > topK;
    ghost var row, bin, gtLog := scatter.row, scatter.thrBin, scatter.gtLog;
    if topkRemain == 0 {
      // filled from above already
    } else if !needTiebreak {
      PlainTies(sTopK, ties, numAbove, topK, row, bin, gtLog);
    } else {
      RankTies(sTopK, ties, cfg, numAbove, topK, row, bin, gtLog);
    }
  }

  // ---------------------------------------------------------------- the kernel

  /** The kernel on one row, for every order in which its threads and copies proceed. */
  method TopKPerRowPrefillBF16Stream(logits: seq<Elem>, rowStart: nat, rowEnd: nat, out: array<int>, topK: nat,
                                     cfg: Config)
      returns (ghost bin: nat, ghost kept: set<nat>)
    requires cfg.Good() && rowEnd <= |logits| && ValidRow(RowOf(logits, rowStart, rowEnd), cfg.Bins())
    requires |RowOf(logits, rowStart, rowEnd)| <= cfg.badIdx
    requires topK >= 1 && out.Length == topK
    modifies out
    ensures |RowOf(logits, rowStart, rowEnd)| <= topK ==>
              ShortRow(out[..], old(out[..]), |RowOf(logits, rowStart, rowEnd)|, cfg.Threads())
    ensures |RowOf(logits, rowStart, rowEnd)| > topK ==>
              StreamResult(out[..], RowOf(logits, rowStart, rowEnd), bin, topK, kept, cfg)
    ensures rowEnd - rowStart <= topK ==> WindowInOrder(out[..], rowStart, rowEnd, cfg.Threads())
    ensures rowEnd - rowStart > topK && Lists(out[..], Chosen(RowOf(logits, rowStart, rowEnd), topK)) ==>
              WindowTopK(out[..], logits, rowStart, rowEnd, topK)
  {
    var row := RowOf(logits, rowStart, rowEnd);
    if |row| <= topK {
      ShortOutput(out, |row|, cfg.Threads());
      bin, kept := 0, {};
    } else {
      bin, kept := StreamingRow(row, out, topK, cfg);
      hide StreamResult, WindowTopK, Lists, Chosen;
      if Lists(out[..], Chosen(row, topK)) {
        WindowSelected(out[..], logits, rowStart, rowEnd, topK, cfg.Bins());
      }
    }
  }

  /** The early exit for short rows, threads in any order. */
  method ShortOutput(out: array<int>, length: nat, threads: nat)
    requires length <= out.Length
    modifies out
    ensures ShortRow(out[..], old(out[..]), length, threads)
  {
    var todo: set<nat> := Upto(threads);
    while todo != {}
      invariant forall t :: t in todo ==> t < threads
      invariant forall p :: 0 <= p < out.Length ==>
                  out[p] == if p >= threads || p in todo then old(out[p]) else if p < length then p else -1
    {
      var tx :| tx in todo;
      if tx < length {
        out[tx] := tx;
      } else if tx < out.Length {
        out[tx] := -1;
      }
      todo := todo - {tx};
    }
  }

  method StreamingRow(row: seq<Elem>, out: array<int>, topK: nat, cfg: Config)
      returns (ghost bin: nat, ghost kept: set<nat>)
    requires cfg.Good() && ValidRow(row, cfg.Bins()) && |row| <= cfg.badIdx
    requires 1 <= topK < |row| && out.Length == topK
    modifies out
    ensures StreamResult(out[..], row, bin, topK, kept, cfg)
  {
    cfg.ThreadsPositive();
    var sTopK := new int[topK];
    StridedStore(sTopK, seq(topK, _ => -1), cfg.Threads());
    assert forall p :: 0 <= p < topK ==> sTopK[p] == sTopK[..topK][p];
    var histogram := HistogramPhase(row, cfg);
    var found := ThresholdPhase(row, histogram, cfg, topK);
    var scatter := ScatterPhase(row, found, cfg, sTopK);
    hide ScatterState.Valid, ScatterState.Finished, StreamResult, InOrder;
    bin := found.bin;
    kept := TieHandle(sTopK, topK, scatter, found, cfg);
    StridedStore(out, sTopK[..], cfg.Threads());
    assert out[..] == out[..topK] == sTopK[..];
  }
}
