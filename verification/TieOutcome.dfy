/** What the tie phase makes of the buffered ties, and exactly when that completes the selection. */
module TieOutcome {
  import opened Sums
  import opened Rows
  import opened Scatter
  import opened Ties

  /** The elements above the threshold bin and the `k - |Above|` best of the ties that were kept. */
  ghost function Selected(row: seq<Elem>, bin: nat, k: nat, kept: set<nat>): set<nat>
    requires IsThreshold(row, bin, k) && kept <= InBin(row, bin)
  {
    Above(row, bin) + Best(row, kept, k - |Above(row, bin)|)
  }

  /** Members with a score that the padding entry does not beat. */
  ghost function Unpadded(row: seq<Elem>, s: set<nat>, floor: int): set<nat>
    requires s <= Indices(row)
  {
    set g | g in s && row[g].score >= floor
  }

  /** The ranks that matter are computed correctly: the padded two-ballot form is not used, or enough kept ties reach
      the padding score. */
  ghost predicate RanksExact(row: seq<Elem>, kept: set<nat>, lanes: nat, floor: int, remain: nat)
    requires kept <= Indices(row)
  {
    |kept| <= lanes || |kept| >= 2 * lanes || |Unpadded(row, kept, floor)| >= remain
  }

  /** A tie below the padding score ranks behind all ties that reach it. */
  lemma {:induction false} PaddedRanks(ties: seq<TieEntry>, row: seq<Elem>, bin: nat, floor: int, i: nat)
    requires TiesOf(ties, row, bin) && i < |ties|
    ensures Members(ties) <= Indices(row)
    ensures ties[i].score < floor ==> CountGreater(ties, ties[i]) >= |Unpadded(row, Members(ties), floor)|
    ensures ties[i].score >= floor ==> CountGreater(ties, ties[i]) < |Unpadded(row, Members(ties), floor)|
  {
    MembersFacts(ties, row, bin);
    RankOfEntry(ties, row, bin, i);
    var g, finite := ties[i].idx, Unpadded(row, Members(ties), floor);
    var better := Better(row, Members(ties), g);
    if ties[i].score < floor {
      SubsetCard(finite, better);
    } else {
      assert g in finite && g !in better;
      SubsetCard(better, finite);
    }
  }

  /** When the ranks that matter are exact, slot `r` receives the tie of rank `r`. */
  lemma {:induction false} SlotFilled(ties: seq<TieEntry>, row: seq<Elem>, bin: nat, lanes: nat, floor: int,
                                      remain: nat, r: nat) returns (i: nat)
    requires TiesOf(ties, row, bin) && Members(ties) <= Indices(row)
    requires RanksExact(row, Members(ties), lanes, floor, remain)
    requires r < remain <= |ties|
    ensures i < |ties| && ComputedRank(ties, lanes, floor, ties[i]) == r
    ensures ties[i].idx in Members(ties) && RankIn(row, Members(ties), ties[i].idx) == r
  {
    MembersFacts(ties, row, bin);
    RanksArePermutation(row, Members(ties));
    assert Taken(row, Members(ties), r);
    var g :| g in Members(ties) && RankIn(row, Members(ties), g) == r;
    i := MemberIndex(ties, g);
    RankOfEntry(ties, row, bin, i);
    PaddedRanks(ties, row, bin, floor, i);
  }

  /** When they are not, one wanted slot belongs to no tie. */
  lemma {:induction false} SlotMissed(ties: seq<TieEntry>, row: seq<Elem>, bin: nat, lanes: nat, floor: int,
                                      remain: nat) returns (r: nat)
    requires TiesOf(ties, row, bin) && Members(ties) <= Indices(row)
    requires !RanksExact(row, Members(ties), lanes, floor, remain)
    ensures r < remain
    ensures forall i :: 0 <= i < |ties| ==> ComputedRank(ties, lanes, floor, ties[i]) != r
  {
    MembersFacts(ties, row, bin);
    r := |Unpadded(row, Members(ties), floor)|;
    forall i | 0 <= i < |ties|
      ensures ComputedRank(ties, lanes, floor, ties[i]) != r
    {
      PaddedRanks(ties, row, bin, floor, i);
    }
  }

  /** With too few ties the slot behind the last rank stays empty. */
  lemma {:induction false} TooFewTies(ties: seq<TieEntry>, row: seq<Elem>, bin: nat, lanes: nat, floor: int,
                                      remain: nat) returns (r: nat)
    requires TiesOf(ties, row, bin) && Members(ties) <= Indices(row) && |ties| < remain
    requires RanksExact(row, Members(ties), lanes, floor, remain)
    ensures r < remain
    ensures forall i :: 0 <= i < |ties| ==> ComputedRank(ties, lanes, floor, ties[i]) != r
  {
    MembersFacts(ties, row, bin);
    r := |ties|;
    SubsetCard(Unpadded(row, Members(ties), floor), Members(ties));
    forall i | 0 <= i < |ties|
      ensures ComputedRank(ties, lanes, floor, ties[i]) != r
    {
      RankOfEntry(ties, row, bin, i);
      RankBelowSize(row, Members(ties), ties[i].idx);
    }
  }

  /** The output before the tie phase: the indices above the threshold bin fill the first slots, the rest is -1; the
      buffered ties are elements of the threshold bin. */
  ghost predicate Scattered(out: seq<int>, gtLog: seq<nat>, ties: seq<TieEntry>, row: seq<Elem>, bin: nat, k: nat)
  {
    && IsThreshold(row, bin, k) && TiesOf(ties, row, bin)
    && Lists(gtLog, Above(row, bin)) && |gtLog| == |Above(row, bin)| && |out| == k
    && (forall p :: 0 <= p < |gtLog| ==> out[p] == gtLog[p])
    && (forall p :: |gtLog| <= p < k ==> out[p] == -1)
  }

  /** The state of the output after the ranked stores. */
  ghost predicate RankedStores(out: seq<int>, out0: seq<int>, written: map<nat, nat>, gtLog: seq<nat>,
                               ties: seq<TieEntry>,
                               row: seq<Elem>, bin: nat, k: nat, lanes: nat, floor: int)
  {
    && Scattered(out0, gtLog, ties, row, bin, k) && |out| == k
    && Stored(out, out0, written, ties, lanes, floor, |gtLog|, k - |gtLog|)
    && (forall i :: 0 <= i < |ties| && ComputedRank(ties, lanes, floor, ties[i]) < k - |gtLog|
                    ==> ComputedRank(ties, lanes, floor, ties[i]) in written)
  }

  /** Enough ties were kept and the ranks that matter are exact. */
  ghost predicate Complete(row: seq<Elem>, kept: set<nat>, lanes: nat, floor: int, remain: nat)
    requires kept <= Indices(row)
  {
    remain <= |kept| && RanksExact(row, kept, lanes, floor, remain)
  }

  /** The slot of a rank without an owner is left as it was. */
  lemma {:induction false} SlotUntouched(out: seq<int>, out0: seq<int>, written: map<nat, nat>, gtLog: seq<nat>,
                                         ties: seq<TieEntry>,
                      row: seq<Elem>, bin: nat, k: nat, lanes: nat, floor: int, r: nat)
    requires RankedStores(out, out0, written, gtLog, ties, row, bin, k, lanes, floor)
    requires |gtLog| + r < k && forall i :: 0 <= i < |ties| ==> ComputedRank(ties, lanes, floor, ties[i]) != r
    ensures out[|gtLog| + r] == -1
  {
    hide ComputedRank, TiesOf, Lists, IsThreshold;
    assert r !in written;
  }

  /** The slot of a rank with an owner holds that tie. */
  lemma {:induction false} SlotWritten(out: seq<int>, out0: seq<int>, written: map<nat, nat>, gtLog: seq<nat>,
                                       ties: seq<TieEntry>,
                    row: seq<Elem>, bin: nat, k: nat, lanes: nat, floor: int, i: nat)
    requires RankedStores(out, out0, written, gtLog, ties, row, bin, k, lanes, floor)
    requires i < |ties| && |gtLog| + ComputedRank(ties, lanes, floor, ties[i]) < k
    ensures out[|gtLog| + ComputedRank(ties, lanes, floor, ties[i])] == ties[i].idx
  {
    hide ComputedRank, TiesOf, Lists, IsThreshold;
    var r := ComputedRank(ties, lanes, floor, ties[i]);
    assert r in written;
    if written[r] != i {
      ComputedRanksDiffer(ties, row, bin, lanes, floor, written[r], i);
    }
  }

  /** A complete tie phase finishes the selection. */
  lemma {:induction false} RankedComplete(out: seq<int>, out0: seq<int>, written: map<nat, nat>, gtLog: seq<nat>,
                                          ties: seq<TieEntry>,
                       row: seq<Elem>, bin: nat, k: nat, lanes: nat, floor: int)
    requires RankedStores(out, out0, written, gtLog, ties, row, bin, k, lanes, floor)
    requires Members(ties) <= InBin(row, bin) && InBin(row, bin) <= Indices(row)
    requires Complete(row, Members(ties), lanes, floor, k - |gtLog|)
    ensures Lists(out, Selected(row, bin, k, Members(ties)))
  {
    hide *;
    AboveKept(out, out0, written, gtLog, ties, row, bin, k, lanes, floor);
    forall p | |gtLog| <= p < k
      ensures TieAt(out, row, Members(ties), |gtLog|, p)
    {
      SlotAt(out, out0, written, gtLog, ties, row, bin, k, lanes, floor, p);
    }
    ListsJoin(out, gtLog, row, bin, Members(ties));
    SelectedIs(row, bin, k, Members(ties), |gtLog|);
  }

  lemma {:induction false} SelectedIs(row: seq<Elem>, bin: nat, k: nat, kept: set<nat>, above: nat)
    requires IsThreshold(row, bin, k) && kept <= InBin(row, bin) && InBin(row, bin) <= Indices(row)
             && above == |Above(row, bin)|
    ensures above <= k && Selected(row, bin, k, kept) == Above(row, bin) + Best(row, kept, k - above)
  {
  }

  lemma {:induction false} AboveKept(out: seq<int>, out0: seq<int>, written: map<nat, nat>, gtLog: seq<nat>,
                                     ties: seq<TieEntry>,
                  row: seq<Elem>, bin: nat, k: nat, lanes: nat, floor: int)
    requires RankedStores(out, out0, written, gtLog, ties, row, bin, k, lanes, floor)
    ensures IsThreshold(row, bin, k) && |gtLog| == |Above(row, bin)| < k && |out| == k && Lists(gtLog, Above(row, bin))
    ensures forall p :: 0 <= p < |gtLog| ==> out[p] == gtLog[p]
  {
    assert forall p :: 0 <= p < |gtLog| ==> out[p] == out0[p];
  }

  lemma {:induction false} SlotAt(out: seq<int>, out0: seq<int>, written: map<nat, nat>, gtLog: seq<nat>,
                                  ties: seq<TieEntry>,
               row: seq<Elem>, bin: nat, k: nat, lanes: nat, floor: int, p: nat)
    requires RankedStores(out, out0, written, gtLog, ties, row, bin, k, lanes, floor)
    requires Members(ties) <= InBin(row, bin) && InBin(row, bin) <= Indices(row)
    requires Complete(row, Members(ties), lanes, floor, k - |gtLog|)
    requires |gtLog| <= p < k
    ensures TieAt(out, row, Members(ties), |gtLog|, p)
  {
    hide *;
    RankedFacts(out, out0, written, gtLog, ties, row, bin, k, lanes, floor);
    MembersFacts(ties, row, bin);
    CompleteFacts(row, Members(ties), lanes, floor, k - |gtLog|);
    var i := SlotFilled(ties, row, bin, lanes, floor, k - |gtLog|, p - |gtLog|);
    SlotWritten(out, out0, written, gtLog, ties, row, bin, k, lanes, floor, i);
    TieAtHolds(out, row, Members(ties), |gtLog|, p);
  }

  lemma {:induction false} RankedFacts(out: seq<int>, out0: seq<int>, written: map<nat, nat>, gtLog: seq<nat>,
                                       ties: seq<TieEntry>,
                    row: seq<Elem>, bin: nat, k: nat, lanes: nat, floor: int)
    requires RankedStores(out, out0, written, gtLog, ties, row, bin, k, lanes, floor)
    ensures TiesOf(ties, row, bin) && |gtLog| < k == |out|
  {
    hide TiesOf, Lists, ComputedRank, Stored;
  }

  lemma {:induction false} CompleteFacts(row: seq<Elem>, kept: set<nat>, lanes: nat, floor: int, remain: nat)
    requires kept <= Indices(row)
    ensures Complete(row, kept, lanes, floor, remain) <==>
              remain <= |kept| && RanksExact(row, kept, lanes, floor, remain)
  {
  }

  lemma {:induction false} TieAtHolds(out: seq<int>, row: seq<Elem>, kept: set<nat>, above: nat, p: nat)
    requires kept <= Indices(row) && above <= p < |out| && out[p] >= 0 && out[p] in kept
             && RankIn(row, kept, out[p]) == p - above
    ensures TieAt(out, row, kept, above, p)
  {
  }

  /** An incomplete one leaves a slot at -1, whatever the order of the warps. */
  lemma {:induction false} RankedIncomplete(out: seq<int>, out0: seq<int>, written: map<nat, nat>, gtLog: seq<nat>,
                                            ties: seq<TieEntry>,
                         row: seq<Elem>, bin: nat, k: nat, lanes: nat, floor: int)
    requires RankedStores(out, out0, written, gtLog, ties, row, bin, k, lanes, floor)
    requires Members(ties) <= InBin(row, bin) && InBin(row, bin) <= Indices(row)
    requires !Complete(row, Members(ties), lanes, floor, k - |gtLog|)
    ensures -1 in out
  {
    hide *;
    RankedFacts(out, out0, written, gtLog, ties, row, bin, k, lanes, floor);
    MembersFacts(ties, row, bin);
    CompleteFacts(row, Members(ties), lanes, floor, k - |gtLog|);
    var remain := k - |gtLog|;
    var r: nat;
    if RanksExact(row, Members(ties), lanes, floor, remain) {
      r := TooFewTies(ties, row, bin, lanes, floor, remain);
    } else {
      r := SlotMissed(ties, row, bin, lanes, floor, remain);
    }
    SlotUntouched(out, out0, written, gtLog, ties, row, bin, k, lanes, floor, r);
  }

  /** Slot `p` holds the kept tie whose rank belongs there. */
  ghost predicate TieAt(out: seq<int>, row: seq<Elem>, kept: set<nat>, above: nat, p: nat)
    requires kept <= Indices(row)
  {
    above <= p < |out| && out[p] >= 0 && out[p] in kept && RankIn(row, kept, out[p]) == p - above
  }

  /** An output that lists `Above` first and then a tie of each wanted rank lists the selection. */
  lemma {:induction false} ListsJoin(out: seq<int>, gtLog: seq<nat>, row: seq<Elem>, bin: nat, kept: set<nat>)
    requires kept <= InBin(row, bin) && InBin(row, bin) <= Indices(row) && |gtLog| <= |out|
    requires Lists(gtLog, Above(row, bin)) && forall p :: 0 <= p < |gtLog| ==> out[p] == gtLog[p]
    requires forall p :: |gtLog| <= p < |out| ==> TieAt(out, row, kept, |gtLog|, p)
    ensures Lists(out, Above(row, bin) + Best(row, kept, |out| - |gtLog|))
  {
    forall i, j | 0 <= i < j < |out|
      ensures out[i] != out[j]
    {
      if |gtLog| <= i {
        assert TieAt(out, row, kept, |gtLog|, i) && TieAt(out, row, kept, |gtLog|, j);
      } else if |gtLog| <= j {
        assert TieAt(out, row, kept, |gtLog|, j);
        assert gtLog[i] in Above(row, bin);
      }
    }
    forall i | 0 <= i < |out|
      ensures out[i] >= 0 && out[i] in Above(row, bin) + Best(row, kept, |out| - |gtLog|)
    {
      if |gtLog| <= i {
        assert TieAt(out, row, kept, |gtLog|, i);
      } else {
        assert gtLog[i] in Above(row, bin);
      }
    }
    forall g | g in Above(row, bin) + Best(row, kept, |out| - |gtLog|)
      ensures g in out
    {
      if g in Above(row, bin) {
        var p :| 0 <= p < |gtLog| && gtLog[p] == g;
        assert out[p] == g;
      } else {
        var p := |gtLog| + RankIn(row, kept, g);
        assert TieAt(out, row, kept, |gtLog|, p);
        if out[p] != g {
          RanksDiffer(row, kept, g, out[p]);
        }
      }
    }
  }
}
