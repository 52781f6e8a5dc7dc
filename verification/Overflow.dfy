/** Runs of both kernels that lose a wanted tie. Together with `AssuredSelects` they show that the conditions of `TopK`
    are exact: a kernel lists the top k in every run, or some run fails. */
module Overflow {
  import opened Sums
  import opened Rows
  import opened Tiling
  import opened Arrival
  import opened Threshold
  import opened Scatter
  import opened WorkSteal
  import opened Block
  import opened StreamKernel
  import opened Registers
  import opened RegisterKernel
  import opened TieOutcome
  import opened TopK
  import Lane = WithheldLane
  import Thread = WithheldThread

  /** Enough ties can be in front of `b` to fill the buffer. */
  ghost predicate CanBeLost(row: seq<Elem>, bin: nat, b: nat, order: Order, maxTies: nat)
  {
    b in InBin(row, bin) && |InBin(row, bin) - FromOn(row, bin, b, order)| >= maxTies
  }

  /** Once all that can be in front of a tie is logged, the tie finds the buffer full. */
  lemma {:induction false} FoundFull(scatter: ScatterState, b: nat, order: Order)
    requires scatter.Valid() && b !in scatter.done && CanBeLost(scatter.row, scatter.thrBin, b, order, scatter.maxTies)
    requires forall g :: g in Indices(scatter.row) && !(order.Together(b, g) && b <= g) ==> g in scatter.done
    ensures |scatter.eqLog| >= scatter.maxTies && b !in scatter.eqLog
  {
    var front := InBin(scatter.row, scatter.thrBin) - FromOn(scatter.row, scatter.thrBin, b, order);
    scatter.CountersExact();
    scatter.TiesLogged();
    assert scatter.counterEq == |scatter.eqLog|;
    assert front <= scatter.done * InBin(scatter.row, scatter.thrBin);
    SubsetCard(front, scatter.done * InBin(scatter.row, scatter.thrBin));
  }

  /** What is logged later does not get into the buffer any more. */
  lemma {:induction false} StaysOut(log: seq<nat>, later: seq<nat>, b: nat, n: nat)
    requires log <= later && b !in log && n <= |log|
    ensures b !in Logged(later[..n])
  {
    assert later[..n] == log[..n];
  }

  /** The rest of a work-stealing scatter that keeps the lane of `b` waiting in front of it. */
  method LoseTie(stealer: Stealer, scatter: ScatterState, b: nat)
    requires stealer.Valid() && stealer.Shape() && stealer.warps >= 2 && stealer.scatter == scatter
             && scatter.done == {}
    requires forall w :: 0 <= w < |stealer.stolen| ==> stealer.stolen[w] == NotYet
    requires b < |stealer.row| && scatter.row == stealer.row
    requires CanBeLost(stealer.row, scatter.thrBin, b, stealer.LaneOrder(), scatter.maxTies)
    modifies stealer, scatter, scatter.sTopK, scatter.tieBuffer
    ensures scatter.Valid() && scatter.Finished() && InOrder(scatter.eqLog, stealer.LaneOrder())
    ensures |scatter.eqLog| >= scatter.maxTies && b !in Logged(scatter.eqLog[..scatter.maxTies])
  {
    var p := FindPlace(b, stealer.lanes, stealer.elems, stealer.tileSize);
    hide ScatterState.Valid, ScatterState.Finished, Stealer.Valid, Stealer.Shape, InOrder, CanBeLost, Indices;
    Lane.RunElsewhere(stealer, b, p);
    FoundFull(scatter, b, stealer.LaneOrder());
    ghost var log := scatter.eqLog;
    stealer.Run();
    StaysOut(log, scatter.eqLog, b, scatter.maxTies);
  }

  /** The streaming scatter, losing `b`. */
  method LosingScatter(row: seq<Elem>, found: MatchBin, cfg: Config, sTopK: array<int>, b: nat)
      returns (scatter: ScatterState)
    requires cfg.Good() && cfg.lanes >= 2 && IsThreshold(row, found.bin, sTopK.Length)
    requires found.aboveCount == |Above(row, found.bin)|
    requires forall p :: 0 <= p < sTopK.Length ==> sTopK[p] == -1
    requires CanBeLost(row, found.bin, b, StreamOrder(cfg), cfg.maxTies)
    modifies sTopK
    ensures fresh(scatter) && fresh(scatter.tieBuffer) && scatter.sTopK == sTopK
    ensures ScatterOf(scatter, row, found, cfg, false)
    ensures scatter.Valid() && scatter.Finished() && InOrder(scatter.eqLog, StreamOrder(cfg))
    ensures |Buffered(scatter)| == cfg.maxTies <= |scatter.eqLog| && b !in Logged(scatter.eqLog[..cfg.maxTies])
  {
    assert b < |row|;
    hide Stealer.Valid, Stealer.Shape, ScatterState.Valid, InOrder, Logged, CanBeLost, IsThreshold;
    var stealer: Stealer;
    scatter, stealer := StreamKernel.StartScatter(row, found, cfg, sTopK);
    LoseTie(stealer, scatter, b);
    FullBuffer(scatter);
  }

  lemma {:induction false} FullBuffer(scatter: ScatterState)
    requires scatter.Valid() && |scatter.eqLog| >= scatter.maxTies
    ensures scatter.maxTies == scatter.tieBuffer.Length && |Buffered(scatter)| == scatter.maxTies
  {
  }

  /** The streaming kernel on a long row, losing `b`. */
  method LosingStreamRow(row: seq<Elem>, out: array<int>, topK: nat, cfg: Config, ghost bin: nat, b: nat)
      returns (ghost kept: set<nat>)
    requires cfg.Good() && cfg.lanes >= 2 && ValidRow(row, cfg.Bins()) && |row| <= cfg.badIdx
    requires 1 <= topK < |row| && out.Length == topK
    requires IsThreshold(row, bin, topK) && CanBeLost(row, bin, b, StreamOrder(cfg), cfg.maxTies)
    modifies out
    ensures StreamResult(out[..], row, bin, topK, kept, cfg) && b !in kept
  {
    hide ScatterState.Valid, ScatterState.Finished, StreamResult, InOrder, Logged, CanBeLost;
    cfg.ThreadsPositive();
    var sTopK := new int[topK];
    StridedStore(sTopK, seq(topK, _ => -1), cfg.Threads());
    assert forall p :: 0 <= p < topK ==> sTopK[p] == sTopK[..topK][p];
    var histogram := HistogramPhase(row, cfg);
    var found := ThresholdPhase(row, histogram, cfg, topK);
    ThresholdUnique(row, bin, found.bin, topK);
    var scatter := LosingScatter(row, found, cfg, sTopK, b);
    BufferSize(scatter);
    kept := TieHandle(sTopK, topK, scatter, found, cfg);
    StridedStore(out, sTopK[..], cfg.Threads());
    assert out[..] == out[..topK] == sTopK[..];
  }

  /** The rest of a register scatter that keeps the thread of `b` waiting in front of it. */
  method LoseRegisterTie(block: RegisterBlock, scatter: ScatterState, b: nat)
    requires block.Scattering(scatter) && scatter.done == {} && b < |block.row| && scatter.row == block.row
    requires CanBeLost(block.row, scatter.thrBin, b, block.ThreadOrder(), scatter.maxTies)
    modifies block, block.local, scatter, scatter.sTopK, scatter.tieBuffer
    ensures scatter.Valid() && scatter.Finished() && InOrder(scatter.eqLog, block.ThreadOrder())
    ensures |scatter.eqLog| >= scatter.maxTies && b !in Logged(scatter.eqLog[..scatter.maxTies])
  {
    hide ScatterState.Valid, ScatterState.Finished, RegisterBlock.Scattering, InOrder, CanBeLost, Indices;
    Thread.RunElsewhere(block, b, scatter);
    FoundFull(scatter, b, block.ThreadOrder());
    ghost var log := scatter.eqLog;
    block.Run(scatter);
    StaysOut(log, scatter.eqLog, b, scatter.maxTies);
  }

  /** The register scatter, losing `b`. */
  method LosingRegisterScatter(block: RegisterBlock, found: MatchBin, cfg: Config, sTopK: array<int>, b: nat)
      returns (scatter: ScatterState)
    requires cfg.Good() && block.Valid() && block.threads == cfg.Threads()
             && IsThreshold(block.row, found.bin, sTopK.Length)
    requires forall t :: 0 <= t < block.threads ==> block.cur[t] == Cursor(0, 0)
    requires found.aboveCount == |Above(block.row, found.bin)|
    requires forall p :: 0 <= p < sTopK.Length ==> sTopK[p] == -1
    requires CanBeLost(block.row, found.bin, b, block.ThreadOrder(), cfg.maxTies)
    modifies sTopK, block, block.local
    ensures fresh(scatter) && fresh(scatter.tieBuffer) && scatter.sTopK == sTopK
    ensures ScatterOf(scatter, block.row, found, cfg, false)
    ensures scatter.Valid() && scatter.Finished() && InOrder(scatter.eqLog, block.ThreadOrder())
    ensures |Buffered(scatter)| == cfg.maxTies <= |scatter.eqLog| && b !in Logged(scatter.eqLog[..cfg.maxTies])
  {
    assert b < |block.row|;
    hide ScatterState.Valid, ScatterState.Finished, RegisterBlock.Scattering, RegisterBlock.Valid;
    hide InOrder, Logged, CanBeLost;
    scatter := RegisterKernel.StartScatter(block, found, cfg, false, sTopK);
    LoseRegisterTie(block, scatter, b);
    FullBuffer(scatter);
  }

  /** The register kernel on a long row, losing `b`. */
  method LosingRegisterRow(row: seq<Elem>, out: array<int>, topK: nat, cfg: Config, vecs: nat, width: nat,
                           ghost bin: nat, b: nat) returns (ghost kept: set<nat>)
    requires cfg.Good() && vecs > 0 && width > 0 && ValidRow(row, cfg.Bins()) && |row| <= cfg.badIdx
    requires |row| <= Start(vecs + vecs, Start(cfg.Threads(), width))
    requires 1 <= topK < |row| && out.Length == topK
    requires IsThreshold(row, bin, topK) && NeedTiebreak(row, bin, topK)
    requires CanBeLost(row, bin, b, RegisterOrder(cfg, width), cfg.maxTies)
    modifies out
    ensures RegisterResult(out[..], row, bin, topK, kept, cfg, width) && b !in kept
  {
    hide ScatterState.Valid, ScatterState.Finished, RegisterBlock.Scattering, RegisterBlock.Valid;
    hide RegisterResult, InOrder, Logged, CanBeLost;
    cfg.ThreadsPositive();
    var sTopK := new int[topK];
    StridedStore(sTopK, seq(topK, _ => -1), cfg.Threads());
    assert forall p :: 0 <= p < topK ==> sTopK[p] == sTopK[..topK][p];
    var block, histogram := LoadPhase(row, cfg, vecs, width);
    var found := ThresholdPhase(row, histogram, cfg, topK);
    ThresholdUnique(row, bin, found.bin, topK);
    var scatter := LosingRegisterScatter(block, found, cfg, sTopK, b);
    BufferSize(scatter);
    kept := RegisterTies(sTopK, topK, scatter, found, cfg, width, true);
    StridedStore(out, sTopK[..], cfg.Threads());
    assert out[..] == out[..topK] == sTopK[..];
  }

  // ---------------------------------------------------------------- the conditions are exact

  /** A run that lost a wanted tie does not list the top k. */
  lemma {:induction false} LostTie(out: seq<int>, row: seq<Elem>, bin: nat, k: nat, kept: set<nat>, b: nat, full: bool)
    requires IsThreshold(row, bin, k) && kept <= InBin(row, bin) && b in Wanted(row, bin, k) && b !in kept
    requires full ==> k - |Above(row, bin)| <= |kept|
    requires if full then Lists(out, Selected(row, bin, k, kept)) else -1 in out
    ensures !Lists(out, Chosen(row, k))
  {
    Outcome(out, row, bin, k, kept, !full);
  }

  /** A row that is not assured is blank in every run, or has a wanted tie that can be lost. */
  lemma {:induction false} NotAssured(row: seq<Elem>, bin: nat, k: nat, cfg: Config) returns (b: nat)
    requires IsThreshold(row, bin, k) && !StreamAssured(row, bin, k, cfg)
    ensures StreamBlank(row, bin, k, cfg)
         || (b in Wanted(row, bin, k) && CanBeLost(row, bin, b, StreamOrder(cfg), cfg.maxTies))
  {
    b := 0;
    if !StreamBlank(row, bin, k, cfg) {
      b :| b in Wanted(row, bin, k) && |InBin(row, bin) - FromOn(row, bin, b, StreamOrder(cfg))| >= cfg.maxTies;
    }
  }

  lemma {:induction false} RegisterNotAssured(row: seq<Elem>, bin: nat, k: nat, cfg: Config, width: nat)
      returns (b: nat)
    requires IsThreshold(row, bin, k) && !RegisterAssured(row, bin, k, cfg, width)
    ensures NeedTiebreak(row, bin, k)
    ensures RegisterBlank(row, bin, k, cfg)
         || (b in Wanted(row, bin, k) && CanBeLost(row, bin, b, RegisterOrder(cfg, width), cfg.maxTies))
  {
    b := 0;
    if !RegisterBlank(row, bin, k, cfg) {
      b :| b in Wanted(row, bin, k)
        && |InBin(row, bin) - FromOn(row, bin, b, RegisterOrder(cfg, width))| >= cfg.maxTies;
    }
  }

  /** A failing run of the streaming kernel for every row with a wanted tie that can be lost. */
  method FailingStreamRun(row: seq<Elem>, out: array<int>, topK: nat, cfg: Config, ghost bin: nat, b: nat)
      returns (ghost kept: set<nat>)
    requires cfg.Good() && cfg.lanes >= 2 && ValidRow(row, cfg.Bins()) && |row| <= cfg.badIdx
    requires 1 <= topK < |row| && out.Length == topK && IsThreshold(row, bin, topK)
    requires b in Wanted(row, bin, topK) && CanBeLost(row, bin, b, StreamOrder(cfg), cfg.maxTies)
    modifies out
    ensures StreamResult(out[..], row, bin, topK, kept, cfg) && b !in kept && !Lists(out[..], Chosen(row, topK))
  {
    kept := LosingStreamRow(row, out, topK, cfg, bin, b);
    LostTie(out[..], row, bin, topK, kept, b, StreamFills(row, bin, topK, kept, cfg));
  }

  /** And of the register kernel. */
  method FailingRegisterRun(row: seq<Elem>, out: array<int>, topK: nat, cfg: Config, vecs: nat, width: nat,
                            ghost bin: nat, b: nat) returns (ghost kept: set<nat>)
    requires cfg.Good() && vecs > 0 && width > 0 && ValidRow(row, cfg.Bins()) && |row| <= cfg.badIdx
    requires |row| <= Start(vecs + vecs, Start(cfg.Threads(), width))
    requires 1 <= topK < |row| && out.Length == topK && IsThreshold(row, bin, topK) && NeedTiebreak(row, bin, topK)
    requires b in Wanted(row, bin, topK) && CanBeLost(row, bin, b, RegisterOrder(cfg, width), cfg.maxTies)
    modifies out
    ensures RegisterResult(out[..], row, bin, topK, kept, cfg, width) && b !in kept
            && !Lists(out[..], Chosen(row, topK))
  {
    kept := LosingRegisterRow(row, out, topK, cfg, vecs, width, bin, b);
    LostTie(out[..], row, bin, topK, kept, b, Complete(row, kept, cfg.lanes, cfg.floor, topK - |Above(row, bin)|));
  }

  // ---------------------------------------------------------------- two rows with one tie too many

  /** One tie more than the buffer holds, the best of them last. */
  function RisingRow(maxTies: nat): (row: seq<Elem>)
    ensures |row| == maxTies + 1
  {
    seq(maxTies + 1, i requires 0 <= i => Elem(i, 0))
  }

  lemma {:induction false} RisingLoses(maxTies: nat, order: Order)
    requires maxTies >= 1
    ensures ValidRow(RisingRow(maxTies), 1) && IsThreshold(RisingRow(maxTies), 0, 1)
    ensures NeedTiebreak(RisingRow(maxTies), 0, 1) && maxTies in Wanted(RisingRow(maxTies), 0, 1)
    ensures CanBeLost(RisingRow(maxTies), 0, maxTies, order, maxTies)
  {
    var row := RisingRow(maxTies);
    assert Above(row, 0) == {};
    assert InBin(row, 0) == Upto(maxTies + 1);
    assert Better(row, InBin(row, 0), maxTies) == {};
    assert FromOn(row, 0, maxTies, order) <= {maxTies};
    SubsetCard(Upto(maxTies), InBin(row, 0) - FromOn(row, 0, maxTies, order));
  }

  /** Both kernels can miss the highest score of that row. */
  method RisingFails(cfg: Config, vecs: nat, width: nat) returns (out: array<int>, out': array<int>)
    requires cfg.Good() && cfg.lanes >= 2 && cfg.maxTies >= 1 && cfg.maxTies < cfg.badIdx && vecs > 0 && width > 0
    requires cfg.maxTies < Start(vecs + vecs, Start(cfg.Threads(), width))
    ensures out.Length == out'.Length == 1
    ensures !Lists(out[..], Chosen(RisingRow(cfg.maxTies), 1)) && !Lists(out'[..], Chosen(RisingRow(cfg.maxTies), 1))
  {
    var row, b := RisingRow(cfg.maxTies), cfg.maxTies;
    RisingLoses(b, StreamOrder(cfg));
    RisingLoses(b, RegisterOrder(cfg, width));
    SomeBins(cfg);
    hide CanBeLost, Wanted, IsThreshold, StreamResult, RegisterResult, ValidRow, Chosen, Lists, RisingRow;
    out := new int[1];
    ghost var kept := FailingStreamRun(row, out, 1, cfg, 0, b);
    out' := new int[1];
    ghost var kept' := FailingRegisterRun(row, out', 1, cfg, vecs, width, 0, b);
  }

  lemma {:induction false} SomeBins(cfg: Config)
    requires cfg.Good()
    ensures forall row :: ValidRow(row, 1) ==> ValidRow(row, cfg.Bins())
  {
    cfg.ThreadsPositive();
    StartMonotone(1, cfg.Threads(), cfg.items);
  }

  /** One tie more than the buffer holds, all with the same score. */
  function EqualRow(maxTies: nat): (row: seq<Elem>)
    ensures |row| == maxTies + 1
  {
    seq(maxTies + 1, _ => Elem(0, 0))
  }

  /** Here index 0 is wanted and index 1 always behind it, so no run of the streaming kernel fails. */
  lemma {:induction false} EqualRowSelects(out: seq<int>, bin: nat, kept: set<nat>, cfg: Config)
    requires cfg.Good() && cfg.elems >= 2 && cfg.maxTies >= 2 * cfg.lanes
    requires StreamResult(out, EqualRow(cfg.maxTies), bin, 1, kept, cfg)
    ensures Lists(out, {0}) && Chosen(EqualRow(cfg.maxTies), 1) == {0}
  {
    var row := EqualRow(cfg.maxTies);
    cfg.ThreadsPositive();
    EqualRowBins(cfg.maxTies);
    OnlyFirst(row);
    FirstTwoTogether(cfg);
    hide EqualRow, StreamResult, Best, Above, InBin, Lists;
    ThresholdUnique(row, 0, bin, 1);
    SecondBehind(row, StreamOrder(cfg), cfg.maxTies);
    AssuredSelects(out, row, 0, 1, kept, cfg);
    ChosenAtThreshold(row, 0, 1);
  }

  lemma {:induction false} EqualRowBins(maxTies: nat)
    ensures Above(EqualRow(maxTies), 0) == {} && InBin(EqualRow(maxTies), 0) == Upto(maxTies + 1)
  {
  }

  lemma {:induction false} SecondBehind(row: seq<Elem>, order: Order, maxTies: nat)
    requires maxTies >= 1 && InBin(row, 0) == Upto(maxTies + 1) && order.Together(0, 0) && order.Together(0, 1)
    ensures |InBin(row, 0) - FromOn(row, 0, 0, order)| < maxTies
  {
    hide InBin;
    assert {0, 1} <= FromOn(row, 0, 0, order);
    SubsetCard(InBin(row, 0) - FromOn(row, 0, 0, order), Upto(maxTies + 1) - {0, 1});
    assert |Upto(maxTies + 1) - {0, 1}| == maxTies - 1;
  }

  lemma {:induction false} OnlyFirst(row: seq<Elem>)
    requires |row| > 0 && (forall i :: 0 <= i < |row| ==> row[i] == Elem(0, 0)) && InBin(row, 0) == Indices(row)
    ensures Best(row, InBin(row, 0), 1) == {0}
  {
    assert Better(row, InBin(row, 0), 0) == {};
    forall g | g in InBin(row, 0) && g > 0
      ensures RankIn(row, InBin(row, 0), g) >= 1
    {
      assert 0 in Better(row, InBin(row, 0), g);
    }
  }

  lemma {:induction false} FirstTwoTogether(cfg: Config)
    requires cfg.Good() && cfg.elems >= 2
    ensures StreamOrder(cfg).Together(0, 0) && StreamOrder(cfg).Together(0, 1)
  {
    cfg.ThreadsPositive();
    var size := Start(cfg.lanes, cfg.elems);
    SizePositive(cfg.lanes, cfg.elems);
    OnePlace(0, Place(0, 0, 0), StreamOrder(cfg).At(0), cfg.lanes, cfg.elems, size);
    OnePlace(1, Place(0, 0, 1), StreamOrder(cfg).At(1), cfg.lanes, cfg.elems, size);
  }
}
