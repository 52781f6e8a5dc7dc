/** topKPerRowPrefillBF16Register: the kernel for rows of at most two passes. */
module RegisterKernel {
  import opened Sums
  import opened Arrival
  import opened Rows
  import opened Threshold
  import opened Histogram
  import opened Scatter
  import opened Ties
  import opened TieOutcome
  import opened Block
  import opened Registers
  import opened StreamKernel

  /** Elements of one pass: `vecs` vectors of `width` elements per thread. */
  function Max1PassLen(cfg: Config, vecs: nat, width: nat): nat
  {
    Start(vecs, Start(cfg.Threads(), width))
  }

  /** A thread scatters all its elements in order; everything else may happen in any order. */
  ghost function RegisterOrder(cfg: Config, width: nat): Order
  {
    Order(cfg.Threads(), width, Start(cfg.Threads(), width), true)
  }

  /** What the register kernel leaves in the output of a long row: without a tiebreak the ties went to the output
      directly, so the buffer's capacity does not matter. */
  ghost predicate RegisterResult(out: seq<int>, row: seq<Elem>, bin: nat, k: nat, kept: set<nat>, cfg: Config,
                                 width: nat)
  {
    && IsThreshold(row, bin, k) && IsKept(row, bin, kept, cfg.maxTies)
       && Closed(row, bin, kept, RegisterOrder(cfg, width))
    && if !NeedTiebreak(row, bin, k) then Lists(out, Chosen(row, k))
       else if Complete(row, kept, cfg.lanes, cfg.floor, k - |Above(row, bin)|)
         then Lists(out, Selected(row, bin, k, kept))
       else -1 in out
  }

  /** Registers loaded and the histogram accumulated from them. */
  method LoadPhase(row: seq<Elem>, cfg: Config, vecs: nat, width: nat)
      returns (block: RegisterBlock, histogram: array<nat>)
    requires cfg.Good() && vecs > 0 && width > 0 && ValidRow(row, cfg.Bins())
    requires |row| <= Start(vecs + vecs, Start(cfg.Threads(), width))
    ensures fresh(block) && fresh(block.local) && block.Valid() && block.row == row && block.threads == cfg.Threads()
    ensures block.ThreadOrder() == RegisterOrder(cfg, width)
    ensures forall t :: 0 <= t < block.threads ==> block.cur[t] == Cursor(0, 0)
    ensures fresh(histogram) && histogram.Length == cfg.Bins() && Counts(histogram[..], row, Indices(row))
  {
    cfg.ThreadsPositive();
    var scoreBuffer := new Elem[Max1PassLen(cfg, vecs, width)];
    block := new RegisterBlock(row, cfg.Threads(), vecs, width, scoreBuffer);
    block.Load();
    histogram := new nat[cfg.Bins()];
    ClearHistogram(histogram, cfg.Threads(), cfg.items);
    block.Accumulate(histogram);
  }

  /** The scatter from the registers, before its first step; `direct` says that no tiebreak is needed. */
  method StartScatter(block: RegisterBlock, found: MatchBin, cfg: Config, direct: bool, sTopK: array<int>)
      returns (scatter: ScatterState)
    requires cfg.Good() && block.Valid() && block.threads == cfg.Threads()
             && IsThreshold(block.row, found.bin, sTopK.Length)
    requires forall t :: 0 <= t < block.threads ==> block.cur[t] == Cursor(0, 0)
    requires found.aboveCount == |Above(block.row, found.bin)|
    requires direct ==> found.aboveCount + |InBin(block.row, found.bin)| == sTopK.Length
    requires forall p :: 0 <= p < sTopK.Length ==> sTopK[p] == -1
    ensures fresh(scatter) && fresh(scatter.tieBuffer) && scatter.sTopK == sTopK
    ensures ScatterOf(scatter, block.row, found, cfg, direct) && block.Scattering(scatter) && scatter.done == {}
  {
    var tieBuffer := new TieEntry[cfg.maxTies](_ => TieEntry(0, 0));
    scatter := new ScatterState(block.row, found.bin, found.aboveCount, direct, sTopK, tieBuffer, cfg.Threads());
    NothingPassed(block);
    scatter.NothingLogged();
    hide ScatterState.Valid, ScatterState.Finished;
  }

  /** The scatter from the registers. */
  method RegisterScatter(block: RegisterBlock, found: MatchBin, cfg: Config, direct: bool, sTopK: array<int>)
      returns (scatter: ScatterState)
    requires cfg.Good() && block.Valid() && block.threads == cfg.Threads()
             && IsThreshold(block.row, found.bin, sTopK.Length)
    requires forall t :: 0 <= t < block.threads ==> block.cur[t] == Cursor(0, 0)
    requires found.aboveCount == |Above(block.row, found.bin)|
    requires direct ==> found.aboveCount + |InBin(block.row, found.bin)| == sTopK.Length
    requires forall p :: 0 <= p < sTopK.Length ==> sTopK[p] == -1
    modifies sTopK, block, block.local
    ensures fresh(scatter) && fresh(scatter.tieBuffer) && scatter.sTopK == sTopK
    ensures ScatterOf(scatter, block.row, found, cfg, direct)
    ensures scatter.Valid() && scatter.Finished() && InOrder(scatter.eqLog, block.ThreadOrder())
  {
    scatter := StartScatter(block, found, cfg, direct, sTopK);
    hide ScatterState.Valid, ScatterState.Finished, RegisterBlock.Scattering, InOrder;
    block.Run(scatter);
  }

  lemma {:induction false} NothingPassed(block: RegisterBlock)
    requires block.Valid() && forall t :: 0 <= t < block.threads ==> block.cur[t] == Cursor(0, 0)
    ensures block.DoneValid({}, block.cur)
  {
  }

  /** Without a tiebreak the scatter alone fills the output. */
  lemma {:induction false} DirectOutcome(scatter: ScatterState)
    requires scatter.Valid() && scatter.Finished() && scatter.direct
    ensures Lists(scatter.sTopK[..], Chosen(scatter.row, scatter.topK))
  {
    scatter.Outcome();
    var row, bin, k := scatter.row, scatter.thrBin, scatter.topK;
    hide ScatterState.Finished, ScatterState.LogsValid, ScatterState.PendingValid, ScatterState.StoresValid, Lists;
    assert scatter.sTopK[..] == scatter.gtLog + scatter.eqLog;
    ListsAppend(scatter.gtLog, scatter.eqLog, Above(row, bin), InBin(row, bin));
    BestOfAll(row, InBin(row, bin));
    ChosenAtThreshold(row, bin, k);
  }

  /** The ties that were logged first, as many as the buffer could hold. */
  lemma {:induction false} FirstKept(scatter: ScatterState, order: Order) returns (kept: set<nat>)
    requires scatter.Valid() && scatter.Finished() && InOrder(scatter.eqLog, order)
    ensures IsKept(scatter.row, scatter.thrBin, kept, scatter.maxTies)
            && Closed(scatter.row, scatter.thrBin, kept, order)
  {
    scatter.Outcome();
    var log := scatter.eqLog;
    var n := if |log| <= scatter.maxTies then |log| else scatter.maxTies;
    kept := Logged(log[..n]);
    FirstAreClosed(log, scatter.row, scatter.thrBin, n, order);
    ListsLength(log[..n], kept);
  }

  /** The kernel on one row of at most two passes, for every order in which its threads proceed. */
  method TopKPerRowPrefillBF16Register(logits: seq<Elem>, rowStart: nat, rowEnd: nat, out: array<int>, topK: nat,
                                       cfg: Config,
                                       vecs: nat, width: nat)
      returns (ghost bin: nat, ghost kept: set<nat>)
    requires cfg.Good() && vecs > 0 && width > 0 && rowEnd <= |logits|
    requires ValidRow(RowOf(logits, rowStart, rowEnd), cfg.Bins())
    requires |RowOf(logits, rowStart, rowEnd)| <= cfg.badIdx
    requires |RowOf(logits, rowStart, rowEnd)| <= Start(vecs + vecs, Start(cfg.Threads(), width))
    requires topK >= 1 && out.Length == topK
    modifies out
    ensures |RowOf(logits, rowStart, rowEnd)| <= topK ==>
              ShortRow(out[..], old(out[..]), |RowOf(logits, rowStart, rowEnd)|, cfg.Threads())
    ensures |RowOf(logits, rowStart, rowEnd)| > topK ==>
              RegisterResult(out[..], RowOf(logits, rowStart, rowEnd), bin, topK, kept, cfg, width)
    ensures rowEnd - rowStart <= topK ==> WindowInOrder(out[..], rowStart, rowEnd, cfg.Threads())
    ensures rowEnd - rowStart > topK && Lists(out[..], Chosen(RowOf(logits, rowStart, rowEnd), topK)) ==>
              WindowTopK(out[..], logits, rowStart, rowEnd, topK)
  {
    var row := RowOf(logits, rowStart, rowEnd);
    if |row| <= topK {
      ShortOutput(out, |row|, cfg.Threads());
      bin, kept := 0, {};
    } else {
      bin, kept := RegisterRow(row, out, topK, cfg, vecs, width);
      hide RegisterResult, WindowTopK, Lists, Chosen;
      if Lists(out[..], Chosen(row, topK)) {
        WindowSelected(out[..], logits, rowStart, rowEnd, topK, cfg.Bins());
      }
    }
  }

  method RegisterRow(row: seq<Elem>, out: array<int>, topK: nat, cfg: Config, vecs: nat, width: nat)
      returns (ghost bin: nat, ghost kept: set<nat>)
    requires cfg.Good() && vecs > 0 && width > 0 && ValidRow(row, cfg.Bins()) && |row| <= cfg.badIdx
    requires |row| <= Start(vecs + vecs, Start(cfg.Threads(), width))
    requires 1 <= topK < |row| && out.Length == topK
    modifies out
    ensures RegisterResult(out[..], row, bin, topK, kept, cfg, width)
  {
    hide RegisterResult, InOrder, RegisterBlock.Valid, ScatterState.Valid, ScatterState.Finished, Counts;
    cfg.ThreadsPositive();
    var sTopK := new int[topK];
    StridedStore(sTopK, seq(topK, _ => -1), cfg.Threads());
    assert forall p :: 0 <= p < topK ==> sTopK[p] == sTopK[..topK][p];
    var block, histogram := LoadPhase(row, cfg, vecs, width);
    var found := ThresholdPhase(row, histogram, cfg, topK);
    var needTiebreak := found.aboveCount + found.equalCount > topK;
    var scatter := RegisterScatter(block, found, cfg, !needTiebreak, sTopK);
    BufferSize(scatter);
    bin := found.bin;
    kept := RegisterTies(sTopK, topK, scatter, found, cfg, width, needTiebreak);
    StridedStore(out, sTopK[..], cfg.Threads());
    assert out[..] == out[..topK] == sTopK[..];
  }

  /** The tie phase of bf16RegisterTopK. */
  method RegisterTies(sTopK: array<int>, topK: nat, scatter: ScatterState, found: MatchBin, cfg: Config, width: nat,
                      needTiebreak: bool) returns (ghost kept: set<nat>)
    requires cfg.Good() && |scatter.row| <= cfg.badIdx && cfg.maxTies == scatter.maxTies
    requires scatter.Valid() && scatter.Finished() && scatter.sTopK == sTopK && topK == scatter.topK
    requires found.aboveCount == scatter.numAbove && found.equalCount == |InBin(scatter.row, scatter.thrBin)|
    requires scatter.numAbove == |Above(scatter.row, scatter.thrBin)| && IsThreshold(scatter.row, scatter.thrBin, topK)
    requires scatter.direct == !needTiebreak && InOrder(scatter.eqLog, RegisterOrder(cfg, width))
    requires needTiebreak == NeedTiebreak(scatter.row, scatter.thrBin, topK)
    modifies sTopK
    ensures RegisterResult(sTopK[..], scatter.row, scatter.thrBin, topK, kept, cfg, width)
    ensures needTiebreak ==>
              |Buffered(scatter)| <= |scatter.eqLog| && kept == Logged(scatter.eqLog[..|Buffered(scatter)|])
  {
    hide ScatterState.Valid, ScatterState.Finished, Lists, Above, InBin, Chosen, InOrder, Closed, Logged, Complete,
      Selected;
    if !needTiebreak {
      DirectOutcome(scatter);
      kept := FirstKept(scatter, RegisterOrder(cfg, width));
    } else {
      kept := RegisterRanks(sTopK, topK, scatter, found, cfg, RegisterOrder(cfg, width));
    }
  }

  /** The ranked stores of bf16RegisterTopK. */
  method RegisterRanks(sTopK: array<int>, topK: nat, scatter: ScatterState, found: MatchBin, cfg: Config,
                       ghost order: Order)
      returns (ghost kept: set<nat>)
    requires cfg.Good() && |scatter.row| <= cfg.badIdx && cfg.maxTies == scatter.maxTies
    requires scatter.Valid() && scatter.Finished() && scatter.sTopK == sTopK && topK == scatter.topK && !scatter.direct
    requires found.aboveCount == scatter.numAbove && found.equalCount == |InBin(scatter.row, scatter.thrBin)|
    requires scatter.numAbove == |Above(scatter.row, scatter.thrBin)| && IsThreshold(scatter.row, scatter.thrBin, topK)
    requires InOrder(scatter.eqLog, order)
    modifies sTopK
    ensures IsKept(scatter.row, scatter.thrBin, kept, cfg.maxTies) && Closed(scatter.row, scatter.thrBin, kept, order)
    ensures |Buffered(scatter)| <= |scatter.eqLog| && kept == Logged(scatter.eqLog[..|Buffered(scatter)|])
    ensures if Complete(scatter.row, kept, cfg.lanes, cfg.floor, topK - |Above(scatter.row, scatter.thrBin)|)
            then Lists(sTopK[..], Selected(scatter.row, scatter.thrBin, topK, kept)) else -1 in sTopK[..]
  {
    BufferSize(scatter);
    hide ScatterState.Valid, ScatterState.Finished, Scattered, Lists, Above, InBin, Members, Complete, Selected;
    hide RanksExact, Indices, Chosen, InOrder, Closed, Logged;
    kept := ScatterOutcome(scatter, order);
    var numTies := if found.equalCount <= cfg.maxTies then found.equalCount else cfg.maxTies;
    var ties := scatter.tieBuffer[..numTies];
    assert ties == Buffered(scatter);
    ghost var row, bin, gtLog := scatter.row, scatter.thrBin, scatter.gtLog;
    assert kept <= InBin(row, bin) <= Indices(row) by {
      KeptInRow(row, bin, kept, cfg.maxTies);
    }
    hide IsKept, IsThreshold, Config.Good;
    RankTies(sTopK, ties, cfg, found.aboveCount, topK, row, bin, gtLog);
    assert Buffered(scatter) == ties;
  }

  lemma {:induction false} KeptInRow(row: seq<Elem>, bin: nat, kept: set<nat>, maxTies: nat)
    requires IsKept(row, bin, kept, maxTies)
    ensures kept <= InBin(row, bin) <= Indices(row)
  {
  }
}
