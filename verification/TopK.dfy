/** What the two kernels promise about one row: when exactly they select the top k, and that they then agree. */
module TopK {
  import opened Sums
  import opened Rows
  import opened Arrival
  import opened TieOutcome
  import opened Block
  import opened StreamKernel
  import opened RegisterKernel

  /** Only one bin is the threshold. */
  lemma {:induction false} ThresholdUnique(row: seq<Elem>, a: nat, b: nat, k: nat)
    requires IsThreshold(row, a, k) && IsThreshold(row, b, k)
    ensures a == b
  {
    var lo, hi := if a < b then a else b, if a < b then b else a;
    if lo < hi {
      assert Above(row, hi) !! InBin(row, hi);
      SubsetCard(Above(row, hi) + InBin(row, hi), Above(row, lo));
    }
  }

  /** The ranks of the ties are computed correctly when all of them are in the buffer. */
  ghost predicate TieRanksExact(row: seq<Elem>, bin: nat, k: nat, cfg: Config)
    requires IsThreshold(row, bin, k)
  {
    InBin(row, bin) <= Indices(row) && RanksExact(row, InBin(row, bin), cfg.lanes, cfg.floor, k - |Above(row, bin)|)
  }

  /** The ties that belong to the top k. */
  ghost function Wanted(row: seq<Elem>, bin: nat, k: nat): set<nat>
    requires IsThreshold(row, bin, k)
  {
    Best(row, InBin(row, bin), k - |Above(row, bin)|)
  }

  lemma {:induction false} NoBlank(out: seq<int>, s: set<nat>)
    requires Lists(out, s)
    ensures -1 !in out
  {
  }

  /** With enough ties kept, the selection is the top k exactly when no wanted tie was lost. */
  lemma {:induction false} KeptDecides(row: seq<Elem>, bin: nat, k: nat, kept: set<nat>)
    requires IsThreshold(row, bin, k) && kept <= InBin(row, bin) && k - |Above(row, bin)| <= |kept|
    ensures Selected(row, bin, k, kept) == Chosen(row, k) <==> Wanted(row, bin, k) <= kept
  {
    var equal, room := InBin(row, bin), k - |Above(row, bin)|;
    assert equal <= Indices(row) && Above(row, bin) !! equal;
    ChosenAtThreshold(row, bin, k);
    if Wanted(row, bin, k) <= kept {
      BestAmongFewer(row, equal, kept, room);
    }
  }

  /** Leaving out members behind the best ones does not change them. */
  lemma {:induction false} BestAmongFewer(row: seq<Elem>, s: set<nat>, kept: set<nat>, room: nat)
    requires kept <= s <= Indices(row) && room <= |kept| && Best(row, s, room) <= kept
    ensures Best(row, kept, room) == Best(row, s, room)
  {
    SubsetCard(kept, s);
    BestSize(row, s, room);
    BestSize(row, kept, room);
    forall g | g in Best(row, s, room)
      ensures g in Best(row, kept, room)
    {
      SubsetCard(Better(row, kept, g), Better(row, s, g));
    }
    SubsetCard(Best(row, s, room), Best(row, kept, room));
  }

  lemma {:induction false} AllKept(row: seq<Elem>, bin: nat, k: nat, kept: set<nat>, maxTies: nat)
    requires IsThreshold(row, bin, k) && IsKept(row, bin, kept, maxTies) && |InBin(row, bin)| <= maxTies
    ensures kept == InBin(row, bin) && Wanted(row, bin, k) <= kept
  {
    SubsetCard(kept, InBin(row, bin));
  }

  // ---------------------------------------------------------------- when a slot stays at -1

  /** A tiebreak leaves a slot blank: the buffer has fewer ties than are wanted, or their ranks are wrong. */
  ghost predicate TiebreakBlank(row: seq<Elem>, bin: nat, k: nat, cfg: Config)
    requires IsThreshold(row, bin, k)
  {
    if |InBin(row, bin)| > cfg.maxTies then k - |Above(row, bin)| > cfg.maxTies else !TieRanksExact(row, bin, k, cfg)
  }

  ghost predicate StreamBlank(row: seq<Elem>, bin: nat, k: nat, cfg: Config)
    requires IsThreshold(row, bin, k)
  {
    if NeedTiebreak(row, bin, k) then TiebreakBlank(row, bin, k, cfg) else |InBin(row, bin)| > cfg.maxTies
  }

  /** The register kernel does without the buffer when no tiebreak is needed. */
  ghost predicate RegisterBlank(row: seq<Elem>, bin: nat, k: nat, cfg: Config)
    requires IsThreshold(row, bin, k)
  {
    NeedTiebreak(row, bin, k) && TiebreakBlank(row, bin, k, cfg)
  }

  /** The size of the buffer decides whether ranks are exact: it holds all ties, or none are ranked, or a full one is
      not ranked by padded ballots. The kernels' buffer of 1024 entries for 32 lanes always qualifies. */
  ghost predicate Ranked(row: seq<Elem>, bin: nat, k: nat, cfg: Config)
  {
    |InBin(row, bin)| <= cfg.maxTies || !NeedTiebreak(row, bin, k) || cfg.maxTies <= cfg.lanes
      || cfg.maxTies >= 2 * cfg.lanes
  }

  lemma {:induction false} CompleteUnlessBlank(row: seq<Elem>, bin: nat, k: nat, kept: set<nat>, cfg: Config)
    requires IsThreshold(row, bin, k) && IsKept(row, bin, kept, cfg.maxTies) && Ranked(row, bin, k, cfg)
    requires NeedTiebreak(row, bin, k)
    ensures Complete(row, kept, cfg.lanes, cfg.floor, k - |Above(row, bin)|) <==> !TiebreakBlank(row, bin, k, cfg)
    ensures !TiebreakBlank(row, bin, k, cfg) ==> k - |Above(row, bin)| <= |kept|
  {
    if |InBin(row, bin)| <= cfg.maxTies {
      SubsetCard(kept, InBin(row, bin));
    }
  }

  /** On every long row and in every run of the streaming kernel, a slot stays at -1 exactly when the row is blank for
      it; the other runs list the top k exactly when no wanted tie was lost. */
  lemma {:induction false} StreamSelects(out: seq<int>, row: seq<Elem>, bin: nat, k: nat, kept: set<nat>, cfg: Config)
    requires StreamResult(out, row, bin, k, kept, cfg) && Ranked(row, bin, k, cfg)
    ensures -1 in out <==> StreamBlank(row, bin, k, cfg)
    ensures !StreamBlank(row, bin, k, cfg) ==> Lists(out, Selected(row, bin, k, kept))
    ensures Lists(out, Chosen(row, k)) <==> !StreamBlank(row, bin, k, cfg) && Wanted(row, bin, k) <= kept
  {
    if NeedTiebreak(row, bin, k) {
      CompleteUnlessBlank(row, bin, k, kept, cfg);
    }
    if |InBin(row, bin)| <= cfg.maxTies {
      AllKept(row, bin, k, kept, cfg.maxTies);
    }
    Outcome(out, row, bin, k, kept, StreamBlank(row, bin, k, cfg));
  }

  /** The same for the register kernel, where a row without a tiebreak is never blank and loses no tie. */
  lemma {:induction false} RegisterSelects(out: seq<int>, row: seq<Elem>, bin: nat, k: nat, kept: set<nat>, cfg: Config,
                                           width: nat)
    requires RegisterResult(out, row, bin, k, kept, cfg, width) && Ranked(row, bin, k, cfg)
    ensures -1 in out <==> RegisterBlank(row, bin, k, cfg)
    ensures NeedTiebreak(row, bin, k) && !RegisterBlank(row, bin, k, cfg) ==> Lists(out, Selected(row, bin, k, kept))
    ensures Lists(out, Chosen(row, k)) <==>
              !NeedTiebreak(row, bin, k) || (!RegisterBlank(row, bin, k, cfg) && Wanted(row, bin, k) <= kept)
  {
    if NeedTiebreak(row, bin, k) {
      CompleteUnlessBlank(row, bin, k, kept, cfg);
      Outcome(out, row, bin, k, kept, RegisterBlank(row, bin, k, cfg));
    } else {
      NoBlank(out, Chosen(row, k));
    }
  }

  /** What a run that lists a selection, or leaves a slot blank, says about the top k. */
  lemma {:induction false} Outcome(out: seq<int>, row: seq<Elem>, bin: nat, k: nat, kept: set<nat>, blank: bool)
    requires IsThreshold(row, bin, k) && kept <= InBin(row, bin)
    requires !blank ==> k - |Above(row, bin)| <= |kept|
    requires if blank then -1 in out else Lists(out, Selected(row, bin, k, kept))
    ensures -1 in out <==> blank
    ensures Lists(out, Chosen(row, k)) <==> !blank && Wanted(row, bin, k) <= kept
  {
    if blank {
      if Lists(out, Chosen(row, k)) {
        NoBlank(out, Chosen(row, k));
      }
    } else {
      NoBlank(out, Selected(row, bin, k, kept));
      KeptDecides(row, bin, k, kept);
      if Lists(out, Chosen(row, k)) {
        ListsOne(out, Chosen(row, k), Selected(row, bin, k, kept));
      }
    }
  }

  lemma {:induction false} ListsOne(out: seq<int>, s: set<nat>, t: set<nat>)
    requires Lists(out, s) && Lists(out, t)
    ensures s == t
  {
    forall g: nat
      ensures g in s <==> g in t
    {
      if g in out {
        var i :| 0 <= i < |out| && out[i] == g;
      }
    }
  }

  /** What a caller gets from every run that leaves no blank, lost ties or not: `k` distinct indices of the row, and no
      index left out has a higher bin. */
  lemma {:induction false} AlwaysHighestBins(out: seq<int>, row: seq<Elem>, bin: nat, k: nat, kept: set<nat>)
    requires IsThreshold(row, bin, k) && kept <= InBin(row, bin) && k - |Above(row, bin)| <= |kept|
    requires Lists(out, Selected(row, bin, k, kept))
    ensures |out| == k && Selected(row, bin, k, kept) <= Indices(row)
    ensures forall x, y :: x in Selected(row, bin, k, kept) && y in Indices(row) - Selected(row, bin, k, kept)
              ==> row[x].bin >= row[y].bin
  {
    assert InBin(row, bin) <= Indices(row) && Above(row, bin) <= Indices(row) && Above(row, bin) !! InBin(row, bin);
    ListsLength(out, Selected(row, bin, k, kept));
    BestSize(row, kept, k - |Above(row, bin)|);
    assert Best(row, kept, k - |Above(row, bin)|) <= kept;
    hide Best, Lists;
  }

  // ---------------------------------------------------------------- when no schedule loses a wanted tie

  /** Fewer ties than the buffer holds can arrive before any wanted one. */
  ghost predicate EachArrives(row: seq<Elem>, bin: nat, k: nat, order: Order, maxTies: nat)
    requires IsThreshold(row, bin, k)
  {
    forall b :: b in Wanted(row, bin, k) ==> |InBin(row, bin) - FromOn(row, bin, b, order)| < maxTies
  }

  lemma {:induction false} WantedKept(row: seq<Elem>, bin: nat, k: nat, kept: set<nat>, order: Order, maxTies: nat)
    requires IsThreshold(row, bin, k) && IsKept(row, bin, kept, maxTies) && Closed(row, bin, kept, order)
    requires EachArrives(row, bin, k, order, maxTies)
    ensures Wanted(row, bin, k) <= kept
  {
    if |InBin(row, bin)| <= maxTies {
      AllKept(row, bin, k, kept, maxTies);
    } else {
      forall b | b in Wanted(row, bin, k)
        ensures b in kept
      {
        AlwaysArrives(row, bin, kept, b, order);
      }
    }
  }

  /** Under this condition every run of the streaming kernel lists the top k; `Overflow` has a failing run for every
      other row. */
  ghost predicate StreamAssured(row: seq<Elem>, bin: nat, k: nat, cfg: Config)
    requires IsThreshold(row, bin, k)
  {
    !StreamBlank(row, bin, k, cfg) && EachArrives(row, bin, k, StreamOrder(cfg), cfg.maxTies)
  }

  ghost predicate RegisterAssured(row: seq<Elem>, bin: nat, k: nat, cfg: Config, width: nat)
    requires IsThreshold(row, bin, k)
  {
    NeedTiebreak(row, bin, k) ==>
      !TiebreakBlank(row, bin, k, cfg) && EachArrives(row, bin, k, RegisterOrder(cfg, width), cfg.maxTies)
  }

  lemma {:induction false} AssuredSelects(out: seq<int>, row: seq<Elem>, bin: nat, k: nat, kept: set<nat>, cfg: Config)
    requires StreamResult(out, row, bin, k, kept, cfg) && Ranked(row, bin, k, cfg)
    requires StreamAssured(row, bin, k, cfg)
    ensures Lists(out, Chosen(row, k))
  {
    StreamSelects(out, row, bin, k, kept, cfg);
    WantedKept(row, bin, k, kept, StreamOrder(cfg), cfg.maxTies);
  }

  lemma {:induction false} AssuredRegisterSelects(out: seq<int>, row: seq<Elem>, bin: nat, k: nat, kept: set<nat>,
                                                  cfg: Config, width: nat)
    requires RegisterResult(out, row, bin, k, kept, cfg, width) && Ranked(row, bin, k, cfg)
    requires RegisterAssured(row, bin, k, cfg, width)
    ensures Lists(out, Chosen(row, k))
  {
    RegisterSelects(out, row, bin, k, kept, cfg, width);
    if NeedTiebreak(row, bin, k) {
      WantedKept(row, bin, k, kept, RegisterOrder(cfg, width), cfg.maxTies);
    }
  }

  /** Ties that fit the buffer all arrive. */
  lemma {:induction false} RoomForAll(row: seq<Elem>, bin: nat, k: nat, order: Order, maxTies: nat)
    requires IsThreshold(row, bin, k) && |InBin(row, bin)| <= maxTies
    ensures EachArrives(row, bin, k, order, maxTies)
  {
    forall b | b in Wanted(row, bin, k)
      ensures |InBin(row, bin) - FromOn(row, bin, b, order)| < maxTies
    {
      assert b in FromOn(row, bin, b, order);
      SubsetCard(InBin(row, bin) - FromOn(row, bin, b, order), InBin(row, bin));
    }
  }

  // ---------------------------------------------------------------- both kernels

  /** No score below the padding score: in particular, no infinite one. */
  ghost predicate FiniteScores(row: seq<Elem>, floor: int)
  {
    forall g :: 0 <= g < |row| ==> row[g].score >= floor
  }

  lemma {:induction false} FiniteRanks(row: seq<Elem>, bin: nat, k: nat, cfg: Config)
    requires IsThreshold(row, bin, k) && FiniteScores(row, cfg.floor)
    ensures TieRanksExact(row, bin, k, cfg)
  {
    assert Unpadded(row, InBin(row, bin), cfg.floor) == InBin(row, bin);
  }

  /** For finite scores and ties that fit the buffer, every run of either kernel lists the same top-k set: `k` indices
      of the row, each once, and no index left out has a higher score than a listed one. */
  lemma {:induction false} KernelsAgree(out: seq<int>, out': seq<int>, row: seq<Elem>, bin: nat, bin': nat, k: nat,
                                        kept: set<nat>, kept': set<nat>, cfg: Config, width: nat, bins: nat)
    requires ValidRow(row, bins) && k < |row| && FiniteScores(row, cfg.floor)
    requires StreamResult(out, row, bin, k, kept, cfg) && RegisterResult(out', row, bin', k, kept', cfg, width)
    requires |InBin(row, bin)| <= cfg.maxTies
    ensures Lists(out, Chosen(row, k)) && Lists(out', Chosen(row, k))
    ensures |out| == |out'| == k && Chosen(row, k) <= Indices(row)
    ensures forall x, y :: x in Chosen(row, k) && y in Indices(row) - Chosen(row, k) ==> row[x].score >= row[y].score
  {
    ThresholdUnique(row, bin, bin', k);
    FiniteRanks(row, bin, k, cfg);
    RoomForAll(row, bin, k, StreamOrder(cfg), cfg.maxTies);
    RoomForAll(row, bin, k, RegisterOrder(cfg, width), cfg.maxTies);
    AssuredSelects(out, row, bin, k, kept, cfg);
    AssuredRegisterSelects(out', row, bin', k, kept', cfg, width);
    ChosenIsTopK(row, bins, k);
    ListsLength(out, Chosen(row, k));
    ListsLength(out', Chosen(row, k));
  }

  /** The places of the window whose scores are in bin `b`. */
  ghost function WindowBin(logits: seq<Elem>, rowStart: nat, rowEnd: nat, b: nat): set<nat>
    requires rowEnd <= |logits|
  {
    set g: nat | rowStart <= g < rowEnd && logits[g].bin == b
  }

  lemma {:induction false} WindowBinSize(logits: seq<Elem>, rowStart: nat, rowEnd: nat, b: nat)
    requires rowEnd <= |logits|
    ensures |InBin(RowOf(logits, rowStart, rowEnd), b)| == |WindowBin(logits, rowStart, rowEnd, b)|
  {
    var here, there := InBin(RowOf(logits, rowStart, rowEnd), b), WindowBin(logits, rowStart, rowEnd, b);
    var moved := map p | p in here :: rowStart + p;
    InjectiveValues(moved);
    assert moved.Keys == here;
    forall g | g in there
      ensures g in moved.Values
    {
      assert (g - rowStart) in moved && moved[g - rowStart] == g;
    }
    assert moved.Values == there;
  }

  /** What a caller can see of a window of the logits: no score below the padding score, and no bin with more scores
      than the buffer holds ties. */
  ghost predicate WindowFits(logits: seq<Elem>, rowStart: nat, rowEnd: nat, cfg: Config)
    requires rowEnd <= |logits|
  {
    && (forall g :: rowStart <= g < rowEnd ==> logits[g].score >= cfg.floor)
    && forall b :: |WindowBin(logits, rowStart, rowEnd, b)| <= cfg.maxTies
  }

  /** For such a window every run of either kernel lists a top k of the window, and both list the same places. */
  lemma {:induction false} WindowsAgree(out: seq<int>, out': seq<int>, logits: seq<Elem>, rowStart: nat, rowEnd: nat,
                                        bin: nat, bin': nat, k: nat, kept: set<nat>, kept': set<nat>, cfg: Config,
                                        width: nat, bins: nat)
    requires rowEnd <= |logits| && k < rowEnd - rowStart && ValidRow(RowOf(logits, rowStart, rowEnd), bins)
    requires WindowFits(logits, rowStart, rowEnd, cfg)
    requires StreamResult(out, RowOf(logits, rowStart, rowEnd), bin, k, kept, cfg)
    requires RegisterResult(out', RowOf(logits, rowStart, rowEnd), bin', k, kept', cfg, width)
    ensures WindowTopK(out, logits, rowStart, rowEnd, k) && WindowTopK(out', logits, rowStart, rowEnd, k)
    ensures forall p :: p in out <==> p in out'
  {
    var row := RowOf(logits, rowStart, rowEnd);
    WindowBinSize(logits, rowStart, rowEnd, bin);
    hide StreamResult, RegisterResult, ValidRow, WindowTopK, Chosen;
    KernelsAgree(out, out', row, bin, bin', k, kept, kept', cfg, width, bins);
    WindowSelected(out, logits, rowStart, rowEnd, k, bins);
    WindowSelected(out', logits, rowStart, rowEnd, k, bins);
    SameMembers(out, out', Chosen(row, k));
  }

  lemma {:induction false} SameMembers(out: seq<int>, out': seq<int>, s: set<nat>)
    requires Lists(out, s) && Lists(out', s)
    ensures forall p :: p in out <==> p in out'
  {
    forall p
      ensures p in out <==> p in out'
    {
      if p in out {
        var i :| 0 <= i < |out| && out[i] == p;
      }
      if p in out' {
        var i :| 0 <= i < |out'| && out'[i] == p;
      }
    }
  }

  /** For finite scores, whenever the ties fit the buffer or no tiebreak is needed, the register kernel lists the top k,
      and the streaming kernel lists the same set exactly when the ties fit. */
  lemma {:induction false} KernelsDifferOnlyByRoom(out: seq<int>, out': seq<int>, row: seq<Elem>, bin: nat, bin': nat,
                                                   k: nat, kept: set<nat>, kept': set<nat>, cfg: Config, width: nat)
    requires FiniteScores(row, cfg.floor)
    requires StreamResult(out, row, bin, k, kept, cfg) && RegisterResult(out', row, bin', k, kept', cfg, width)
    requires |InBin(row, bin)| <= cfg.maxTies || !NeedTiebreak(row, bin, k)
    ensures Lists(out', Chosen(row, k))
    ensures Lists(out, Chosen(row, k)) <==> |InBin(row, bin)| <= cfg.maxTies
  {
    ThresholdUnique(row, bin, bin', k);
    FiniteRanks(row, bin, k, cfg);
    StreamSelects(out, row, bin, k, kept, cfg);
    RegisterSelects(out', row, bin', k, kept', cfg, width);
    if |InBin(row, bin)| <= cfg.maxTies {
      AllKept(row, bin, k, kept, cfg.maxTies);
      AllKept(row, bin, k, kept', cfg.maxTies);
    }
  }

  // ---------------------------------------------------------------- rows on which a kernel fails

  /** One element more in the top bin than the buffer holds, and `low` elements below. */
  function CrowdedRow(maxTies: nat, low: nat): (row: seq<Elem>)
    ensures |row| == maxTies + 1 + low
  {
    seq(maxTies + 1 + low, i => if i <= maxTies then Elem(1, 1) else Elem(0, 0))
  }

  lemma {:induction false} CrowdedBins(maxTies: nat, low: nat)
    ensures |Above(CrowdedRow(maxTies, low), 1)| == 0 && |InBin(CrowdedRow(maxTies, low), 1)| == maxTies + 1
  {
    assert Above(CrowdedRow(maxTies, low), 1) == {};
    assert InBin(CrowdedRow(maxTies, low), 1) == Upto(maxTies + 1);
  }

  /** With `k` one more than the buffer holds, the streaming kernel leaves -1 on this row although no tiebreak is
      needed; the register kernel selects the top k. */
  lemma {:induction false} CrowdedFails(out: seq<int>, out': seq<int>, bin: nat, kept: set<nat>, kept': set<nat>,
                                        cfg: Config, width: nat, low: nat)
    requires low >= 1
    requires StreamResult(out, CrowdedRow(cfg.maxTies, low), bin, cfg.maxTies + 1, kept, cfg)
    requires RegisterResult(out', CrowdedRow(cfg.maxTies, low), bin, cfg.maxTies + 1, kept', cfg, width)
    ensures ValidRow(CrowdedRow(cfg.maxTies, low), 2) && cfg.maxTies + 1 < |CrowdedRow(cfg.maxTies, low)|
    ensures -1 in out && !Lists(out, Chosen(CrowdedRow(cfg.maxTies, low), cfg.maxTies + 1))
    ensures Lists(out', Chosen(CrowdedRow(cfg.maxTies, low), cfg.maxTies + 1))
  {
    var row, k := CrowdedRow(cfg.maxTies, low), cfg.maxTies + 1;
    CrowdedBins(cfg.maxTies, low);
    assert ValidRow(row, 2);
    hide ValidRow;
    hide CrowdedRow, Above, InBin, Lists, Chosen, Best;
    ThresholdUnique(row, 1, bin, k);
    StreamSelects(out, row, bin, k, kept, cfg);
    RegisterSelects(out', row, bin, k, kept', cfg, width);
  }

  /** One element more than a warp has lanes, all of the same score below the padding score. */
  function MaskedRow(cfg: Config): (row: seq<Elem>)
    ensures |row| == cfg.lanes + 1
  {
    seq(cfg.lanes + 1, i => Elem(cfg.floor - 1, 0))
  }

  /** On that row both kernels leave the only slot at -1: the padding entries outrank every tie. */
  lemma {:induction false} MaskedFails(out: seq<int>, out': seq<int>, bin: nat, kept: set<nat>, kept': set<nat>,
                                       cfg: Config, width: nat)
    requires cfg.lanes >= 2 && cfg.maxTies >= cfg.lanes + 1
    requires StreamResult(out, MaskedRow(cfg), bin, 1, kept, cfg)
    requires RegisterResult(out', MaskedRow(cfg), bin, 1, kept', cfg, width)
    ensures ValidRow(MaskedRow(cfg), 1) && 1 < |MaskedRow(cfg)|
    ensures -1 in out && -1 in out'
  {
    var row := MaskedRow(cfg);
    assert Above(row, 0) == {};
    assert InBin(row, 0) == Upto(cfg.lanes + 1);
    assert IsThreshold(row, 0, 1);
    ThresholdUnique(row, 0, bin, 1);
    assert Unpadded(row, InBin(row, 0), cfg.floor) == {};
    StreamSelects(out, row, bin, 1, kept, cfg);
    RegisterSelects(out', row, bin, 1, kept', cfg, width);
  }

  /** Rows no longer than `k`: every index, then -1, provided the block has a thread for every slot. */
  lemma {:induction false} ShortRowListsAll(out: seq<int>, out0: seq<int>, length: nat, threads: nat)
    requires ShortRow(out, out0, length, threads) && length <= |out| <= threads
    ensures Lists(out[..length], Upto(length))
    ensures forall p :: length <= p < |out| ==> out[p] == -1
  {
    forall g | g in Upto(length)
      ensures g in out[..length]
    {
      assert out[..length][g] == g;
    }
  }
}
