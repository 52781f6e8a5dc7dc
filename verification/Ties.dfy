/** bf16TieHandle: ranks of the buffered ties by ballots or strided counts, and the stores they lead to. */
module Ties {
  import opened Sums
  import opened WarpOps
  import opened Rows
  import opened Scatter

  predicate IsGreater(a: TieEntry, b: TieEntry)
  {
    a.score > b.score || (a.score == b.score && a.idx < b.idx)
  }

  /** One where entry `j` beats the target. */
  function Votes(ties: seq<TieEntry>, target: TieEntry): (v: seq<nat>)
    ensures |v| == |ties|
    ensures forall j :: 0 <= j < |ties| ==> v[j] == if IsGreater(ties[j], target) then 1 else 0
  {
    seq(|ties|, j requires 0 <= j < |ties| => if IsGreater(ties[j], target) then 1 else 0)
  }

  /** How many entries beat the target: the rank all forms are meant to compute. */
  function CountGreater(ties: seq<TieEntry>, target: TieEntry): nat
  {
    Sum(Votes(ties, target))
  }

  lemma {:induction false} CountGreaterStep(ties: seq<TieEntry>, target: TieEntry, i: nat)
    requires i < |ties|
    ensures CountGreater(ties[..i + 1], target)
              == CountGreater(ties[..i], target) + if IsGreater(ties[i], target) then 1 else 0
  {
    assert Votes(ties[..i + 1], target)[..i] == Votes(ties[..i], target);
  }

  lemma {:induction false} CountGreaterConcat(a: seq<TieEntry>, b: seq<TieEntry>, target: TieEntry)
    ensures CountGreater(a + b, target) == CountGreater(a, target) + CountGreater(b, target)
  {
    assert Votes(a + b, target) == Votes(a, target) + Votes(b, target);
    SumConcat(Votes(a, target), Votes(b, target));
  }

  // ---------------------------------------------------------------- the three forms

  /** `__popc(__ballot_sync(...))`: the number of lanes whose entry beats the target. */
  method PopcBallot(laneEntries: seq<TieEntry>, target: TieEntry) returns (count: nat)
    ensures count == CountGreater(laneEntries, target)
  {
    count := 0;
    for l := 0 to |laneEntries|
      invariant count == CountGreater(laneEntries[..l], target)
    {
      CountGreaterStep(laneEntries, target, l);
      if IsGreater(laneEntries[l], target) {
        count := count + 1;
      }
    }
    assert laneEntries[..|laneEntries|] == laneEntries;
  }

  /** Two ballots over `2 * lanes` entries; lanes without an entry hold the padding entry. */
  method RankTwoBallots(ties: seq<TieEntry>, lanes: nat, invalid: TieEntry, target: TieEntry) returns (rank: nat)
    requires lanes <= |ties| <= 2 * lanes && target.idx < invalid.idx
    ensures rank == CountGreater(ties, target) + if target.score < invalid.score then 2 * lanes - |ties| else 0
  {
    var tie1 := seq(lanes, l requires 0 <= l < lanes => if l + lanes < |ties| then ties[l + lanes] else invalid);
    var r0 := PopcBallot(ties[..lanes], target);
    var r1 := PopcBallot(tie1, target);
    rank := r0 + r1;
    assert ties == ties[..lanes] + ties[lanes..];
    CountGreaterConcat(ties[..lanes], ties[lanes..], target);
    var padding := tie1[|ties| - lanes..];
    assert tie1 == ties[lanes..] + padding;
    CountGreaterConcat(ties[lanes..], padding, target);
    PaddingVotes(padding, invalid, target);
  }

  lemma {:induction false} PaddingVotes(padding: seq<TieEntry>, invalid: TieEntry, target: TieEntry)
    requires forall l :: 0 <= l < |padding| ==> padding[l] == invalid
    requires target.idx < invalid.idx
    ensures CountGreater(padding, target) == if target.score < invalid.score then |padding| else 0
  {
    if |padding| > 0 {
      PaddingVotes(padding[..|padding| - 1], invalid, target);
      CountGreaterStep(padding, target, |padding| - 1);
      assert padding[..|padding|] == padding;
    }
  }

  /** Lane `l` counts over `l, l + lanes, ...`. */
  method LaneCount(ties: seq<TieEntry>, lanes: nat, l: nat, target: TieEntry) returns (count: nat)
    requires l < lanes
    ensures count == ClassSum(Votes(ties, target), l, lanes)
  {
    ghost var votes := Votes(ties, target);
    count := 0;
    var j := l;
    ghost var upto: nat := if l < |ties| then l else |ties|;
    ClassSumSkip(votes, 0, upto, l, lanes, -1);
    ghost var round: nat := 0;
    while j < |ties|
      invariant j == round * lanes + l && upto == (if j < |ties| then j else |ties|)
      invariant count == ClassSum(votes[..upto], l, lanes)
    {
      if IsGreater(ties[j], target) {
        count := count + 1;
      }
      ghost var stop: nat := if j + lanes < |ties| then j + lanes else |ties|;
      ClassSumRound(votes, j, stop, l, lanes, round);
      j := j + lanes;
      upto := stop;
      round := round + 1;
    }
    assert votes[..upto] == votes;
  }

  /** From one member of a class up to the next, only that member counts. */
  lemma {:induction false} ClassSumRound(v: seq<nat>, j: nat, stop: nat, l: nat, lanes: nat, round: nat)
    requires l < lanes && j == round * lanes + l < |v| && stop == if j + lanes < |v| then j + lanes else |v|
    ensures ClassSum(v[..stop], l, lanes) == ClassSum(v[..j], l, lanes) + v[j]
    ensures j + lanes == (round + 1) * lanes + l
  {
    Joined(j, round, l, lanes);
    assert v[..j + 1][..j] == v[..j];
    assert (round + 1) * lanes + l == j + lanes;
    ClassSumSkip(v, j + 1, stop, l, lanes, round);
  }

  /** Positions strictly between two members of a class add nothing to it. */
  lemma {:induction false} ClassSumSkip(v: seq<nat>, a: nat, b: nat, l: nat, lanes: nat, round: int)
    requires a <= b <= |v| && l < lanes && round >= -1
    requires round * lanes + l + 1 <= a && b <= (round + 1) * lanes + l
    ensures ClassSum(v[..b], l, lanes) == ClassSum(v[..a], l, lanes)
    decreases b
  {
    if a < b {
      ClassSumSkip(v, a, b - 1, l, lanes, round);
      assert v[..b][..b - 1] == v[..b - 1];
      if (b - 1) % lanes == l {
        var q, r := Split(b - 1, lanes);
        if q <= round {
          MulMono(q, round, lanes);
        } else {
          MulMono(round + 1, q, lanes);
        }
        assert false;
      }
    }
  }

  /** Lane counts of all lanes, combined by the butterfly sum. */
  method RankStrided(ties: seq<TieEntry>, lanes: nat, target: TieEntry) returns (rank: nat)
    requires IsPow2(lanes)
    ensures rank == CountGreater(ties, target)
  {
    var counts: seq<nat> := [];
    for l := 0 to lanes
      invariant |counts| == l
      invariant forall k :: 0 <= k < l ==> counts[k] == ClassSum(Votes(ties, target), k, lanes)
    {
      var c := LaneCount(ties, lanes, l, target);
      counts := counts + [c];
    }
    var reduced := WarpReduceSum(counts);
    rank := reduced[0];
    ClassSumsTotal(Votes(ties, target), counts, lanes);
  }

  /** The classes modulo `m` together hold every entry once. */
  lemma {:induction false} ClassSumsTotal(v: seq<nat>, counts: seq<nat>, m: nat)
    requires m > 0 && |counts| == m
    requires forall k :: 0 <= k < m ==> counts[k] == ClassSum(v, k, m)
    ensures Sum(counts) == Sum(v)
  {
    if |v| == 0 {
      AllZero(counts);
    } else {
      var n := |v| - 1;
      var q, c := Split(n, m);
      var before := counts[c := ClassSum(v[..n], c, m)];
      ClassSumsTotal(v[..n], before, m);
      SumUpdate(counts, c, ClassSum(v[..n], c, m));
    }
  }

  lemma {:induction false} AllZero(s: seq<nat>)
    requires forall k :: 0 <= k < |s| ==> s[k] == 0
    ensures Sum(s) == 0
  {
    if |s| > 0 {
      AllZero(s[..|s| - 1]);
    }
  }

  /** What the kernel computes as the rank of `target`: exact, except that in the two-ballot form the unused lanes
      count against a target below the padding score. */
  ghost function ComputedRank(ties: seq<TieEntry>, lanes: nat, floor: int, target: TieEntry): nat
  {
    CountGreater(ties, target) + if lanes < |ties| <= 2 * lanes && target.score < floor then 2 * lanes - |ties| else 0
  }

  /** The rank of one target, by the form that the number of ties selects. */
  method RankOf(ties: seq<TieEntry>, lanes: nat, invalid: TieEntry, target: TieEntry) returns (rank: nat)
    requires IsPow2(lanes) && target.idx < invalid.idx
    ensures rank == ComputedRank(ties, lanes, invalid.score, target)
  {
    if |ties| <= lanes {
      rank := PopcBallot(ties, target);
    } else if |ties| <= 2 * lanes {
      rank := RankTwoBallots(ties, lanes, invalid, target);
    } else {
      rank := RankStrided(ties, lanes, target);
    }
  }

  // ---------------------------------------------------------------- ranks against the reference order

  /** The entries are distinct elements of bin `bin` with their scores. */
  ghost predicate TiesOf(ties: seq<TieEntry>, row: seq<Elem>, bin: nat)
  {
    && (forall j :: 0 <= j < |ties| ==>
       ties[j].idx < |row| && row[ties[j].idx].bin == bin && row[ties[j].idx].score == ties[j].score)
    && (forall i, j :: 0 <= i < j < |ties| ==> ties[i].idx != ties[j].idx)
  }

  ghost function Members(ties: seq<TieEntry>): set<nat>
  {
    if |ties| == 0 then {} else Members(ties[..|ties| - 1]) + {ties[|ties| - 1].idx}
  }

  lemma {:induction false} NotMember(ties: seq<TieEntry>, g: nat)
    requires forall j :: 0 <= j < |ties| ==> ties[j].idx != g
    ensures g !in Members(ties)
  {
    if |ties| > 0 {
      NotMember(ties[..|ties| - 1], g);
    }
  }

  lemma {:induction false} MembersFacts(ties: seq<TieEntry>, row: seq<Elem>, bin: nat)
    requires TiesOf(ties, row, bin)
    ensures Members(ties) <= InBin(row, bin) && |Members(ties)| == |ties|
    ensures forall j :: 0 <= j < |ties| ==> ties[j].idx in Members(ties)
  {
    if |ties| > 0 {
      var n := |ties| - 1;
      MembersFacts(ties[..n], row, bin);
      NotMember(ties[..n], ties[n].idx);
      forall j | 0 <= j < |ties|
        ensures ties[j].idx in Members(ties)
      {
        if j < n {
          assert ties[..n][j] == ties[j];
        }
      }
    }
  }

  lemma {:induction false} MemberIndex(ties: seq<TieEntry>, g: nat) returns (j: nat)
    requires g in Members(ties)
    ensures j < |ties| && ties[j].idx == g
  {
    if forall j :: 0 <= j < |ties| ==> ties[j].idx != g {
      NotMember(ties, g);
    }
    j :| 0 <= j < |ties| && ties[j].idx == g;
  }

  /** The counted rank is the rank among the buffered elements. */
  lemma {:induction false} CountIsRank(ties: seq<TieEntry>, row: seq<Elem>, bin: nat, target: TieEntry)
    requires TiesOf(ties, row, bin)
    requires target.idx < |row| && row[target.idx].bin == bin && row[target.idx].score == target.score
    ensures Members(ties) <= Indices(row)
    ensures CountGreater(ties, target) == RankIn(row, Members(ties), target.idx)
  {
    MembersFacts(ties, row, bin);
    if |ties| == 0 {
      assert Better(row, Members(ties), target.idx) == {};
    } else {
      var n := |ties| - 1;
      CountIsRank(ties[..n], row, bin, target);
      CountGreaterStep(ties, target, n);
      assert ties[..n + 1] == ties;
      BetterExtend(row, Members(ties[..n]), ties[n].idx, target.idx);
      NotMember(ties[..n], ties[n].idx);
    }
  }

  lemma {:induction false} BetterExtend(row: seq<Elem>, s: set<nat>, x: nat, g: nat)
    requires s <= Indices(row) && x < |row| && g < |row|
    ensures Better(row, s + {x}, g) == if Beats(row, x, g) then Better(row, s, g) + {x} else Better(row, s, g)
  {
  }

  /** Rank of entry `i` among all entries. */
  lemma {:induction false} RankOfEntry(ties: seq<TieEntry>, row: seq<Elem>, bin: nat, i: nat)
    requires TiesOf(ties, row, bin) && i < |ties|
    ensures Members(ties) <= Indices(row) && ties[i].idx in Members(ties)
    ensures CountGreater(ties, ties[i]) == RankIn(row, Members(ties), ties[i].idx)
  {
    MembersFacts(ties, row, bin);
    CountIsRank(ties, row, bin, ties[i]);
  }

  /** No two targets compute the same rank, so no two warps store to the same slot. */
  lemma {:induction false} ComputedRanksDiffer(ties: seq<TieEntry>, row: seq<Elem>, bin: nat, lanes: nat, floor: int,
                                               i: nat, j: nat)
    requires TiesOf(ties, row, bin) && i < |ties| && j < |ties| && i != j
    ensures ComputedRank(ties, lanes, floor, ties[i]) != ComputedRank(ties, lanes, floor, ties[j])
  {
    RankOfEntry(ties, row, bin, i);
    RankOfEntry(ties, row, bin, j);
    if IsGreater(ties[i], ties[j]) {
      BetterRank(row, Members(ties), ties[i].idx, ties[j].idx);
    } else {
      BetterRank(row, Members(ties), ties[j].idx, ties[i].idx);
    }
  }

  // ---------------------------------------------------------------- the stores

  /** What the warps have stored so far: slot by slot, the target that owns it. */
  ghost predicate Stored(out: seq<int>, out0: seq<int>, written: map<nat, nat>, ties: seq<TieEntry>, lanes: nat,
                         floor: int,
                         above: nat, remain: nat)
    requires above + remain <= |out| == |out0|
  {
    && (forall r :: r in written ==>
       r < remain && written[r] < |ties| && ComputedRank(ties, lanes, floor, ties[written[r]]) == r)
    && (forall r :: r in written ==> out[above + r] == ties[written[r]].idx)
    && (forall p :: 0 <= p < |out| && (p < above || p - above !in written) ==> out[p] == out0[p])
  }

  /** Every target that a warp is past has been stored if its rank is among the wanted ones. */
  ghost predicate Handled(nxt: seq<nat>, written: map<nat, nat>, ties: seq<TieEntry>, lanes: nat, floor: int,
                          remain: nat)
    requires lanes > 0 && |nxt| == lanes
  {
    forall i :: 0 <= i < |ties| && i < nxt[Ring(i, lanes)] && ComputedRank(ties, lanes, floor, ties[i]) < remain
                ==> ComputedRank(ties, lanes, floor, ties[i]) in written
  }

  /** Warp `w` ranks the targets `w, w + lanes, ...`; warps run in any order. */
  method StoreRanks(sTopK: array<int>, ties: seq<TieEntry>, lanes: nat, invalid: TieEntry, above: nat, remain: nat,
                    ghost row: seq<Elem>, ghost bin: nat) returns (ghost written: map<nat, nat>)
    requires IsPow2(lanes) && above + remain <= sTopK.Length
    requires TiesOf(ties, row, bin) && |row| <= invalid.idx
    modifies sTopK
    ensures Stored(sTopK[..], old(sTopK[..]), written, ties, lanes, invalid.score, above, remain)
    ensures forall i :: 0 <= i < |ties| && ComputedRank(ties, lanes, invalid.score, ties[i]) < remain
                        ==> ComputedRank(ties, lanes, invalid.score, ties[i]) in written
  {
    var nxt: seq<nat> := seq(lanes, w requires 0 <= w => w);
    StartHandled(nxt, ties, lanes, invalid.score, remain);
    written := map[];
    ghost var left := Left(nxt, ties);
    while exists w :: 0 <= w < lanes && nxt[w] < |ties|
      invariant Cursors(nxt, lanes) && left == Left(nxt, ties)
      invariant Stored(sTopK[..], old(sTopK[..]), written, ties, lanes, invalid.score, above, remain)
      invariant Handled(nxt, written, ties, lanes, invalid.score, remain)
      decreases left
    {
      var w :| 0 <= w < lanes && nxt[w] < |ties|;
      written := StoreRank(sTopK, ties, lanes, invalid, above, remain, row, bin, nxt, w, written, old(sTopK[..]));
      nxt := nxt[w := nxt[w] + lanes];
      left := Left(nxt, ties);
    }
    AllHandled(nxt, written, ties, lanes, invalid.score, remain);
  }

  /** Warp `w` stands at some target `w + k * lanes`. */
  ghost predicate Cursors(nxt: seq<nat>, lanes: nat)
  {
    lanes > 0 && |nxt| == lanes && forall w :: 0 <= w < lanes ==> Ring(nxt[w], lanes) == w
  }

  ghost function Left(nxt: seq<nat>, ties: seq<TieEntry>): nat
  {
    Deficit(nxt, |ties| + |nxt|)
  }

  /** The turn of warp `w`: rank its target and, when the rank is wanted, store the index. */
  method StoreRank(sTopK: array<int>, ties: seq<TieEntry>, lanes: nat, invalid: TieEntry, above: nat, remain: nat,
                   ghost row: seq<Elem>, ghost bin: nat, nxt: seq<nat>, w: nat, ghost earlier: map<nat, nat>,
                   ghost out0: seq<int>) returns (ghost written: map<nat, nat>)
    requires IsPow2(lanes) && above + remain <= sTopK.Length == |out0|
    requires TiesOf(ties, row, bin) && |row| <= invalid.idx && forall j :: 0 <= j < |ties| ==> ties[j].idx < invalid.idx
    requires |nxt| == lanes && Cursors(nxt, lanes) && w < lanes && nxt[w] < |ties|
    requires Stored(sTopK[..], out0, earlier, ties, lanes, invalid.score, above, remain)
    requires Handled(nxt, earlier, ties, lanes, invalid.score, remain)
    modifies sTopK
    ensures Stored(sTopK[..], out0, written, ties, lanes, invalid.score, above, remain)
    ensures Cursors(nxt[w := nxt[w] + lanes], lanes)
    ensures Handled(nxt[w := nxt[w] + lanes], written, ties, lanes, invalid.score, remain)
    ensures Left(nxt[w := nxt[w] + lanes], ties) < Left(nxt, ties)
  {
    hide Cursors, Left, Handled, Stored, TiesOf, ComputedRank;
    var i := nxt[w];
    var rank := RankOf(ties, lanes, invalid, ties[i]);
    written := earlier;
    ghost var before := sTopK[..];
    if rank < remain {
      sTopK[above + rank] := ties[i].idx;
      written := written[rank := i];
      assert sTopK[..] == before[above + rank := ties[i].idx];
      StoredOne(before, out0, earlier, ties, lanes, invalid.score, above, remain, i, rank);
    }
    HandledOne(nxt, earlier, written, ties, lanes, invalid.score, remain, w, i, rank);
    CursorMoves(nxt, ties, lanes, w);
  }

  lemma {:induction false} CursorMoves(nxt: seq<nat>, ties: seq<TieEntry>, lanes: nat, w: nat)
    requires Cursors(nxt, lanes) && w < lanes && nxt[w] < |ties|
    ensures Cursors(nxt[w := nxt[w] + lanes], lanes)
    ensures Left(nxt[w := nxt[w] + lanes], ties) < Left(nxt, ties)
  {
    RingStep(nxt[w], lanes);
    DeficitDrops(nxt, w, nxt[w] + lanes, |ties| + |nxt|);
  }

  lemma {:induction false} RingStep(i: nat, lanes: nat)
    requires lanes > 0
    ensures Ring(i + lanes, lanes) == Ring(i, lanes)
  {
  }

  lemma {:induction false} StoredOne(out: seq<int>, out0: seq<int>, written: map<nat, nat>, ties: seq<TieEntry>,
                                     lanes: nat, floor: int,
                  above: nat, remain: nat, i: nat, rank: nat)
    requires above + remain <= |out| == |out0| && i < |ties| && rank < remain
    requires Stored(out, out0, written, ties, lanes, floor, above, remain)
    requires rank == ComputedRank(ties, lanes, floor, ties[i])
    ensures Stored(out[above + rank := ties[i].idx], out0, written[rank := i], ties, lanes, floor, above, remain)
  {
  }

  lemma {:induction false} StartHandled(nxt: seq<nat>, ties: seq<TieEntry>, lanes: nat, floor: int, remain: nat)
    requires lanes > 0 && |nxt| == lanes && forall w :: 0 <= w < lanes ==> nxt[w] == w
    ensures forall w :: 0 <= w < lanes ==> Ring(nxt[w], lanes) == w
    ensures Handled(nxt, map[], ties, lanes, floor, remain)
  {
    forall i: nat
      ensures Ring(i, lanes) <= i
    {
      RingIsMod(i, lanes);
      var q, r := Split(i, lanes);
    }
  }

  lemma {:induction false} HandledOne(nxt: seq<nat>, earlier: map<nat, nat>, written: map<nat, nat>,
                                      ties: seq<TieEntry>, lanes: nat, floor: int,
                   remain: nat, w: nat, i: nat, rank: nat)
    requires Cursors(nxt, lanes) && w < lanes && i == nxt[w] < |ties|
    requires rank == ComputedRank(ties, lanes, floor, ties[i])
    requires written == if rank < remain then earlier[rank := i] else earlier
    requires Handled(nxt, earlier, ties, lanes, floor, remain)
    ensures Handled(nxt[w := i + lanes], written, ties, lanes, floor, remain)
  {
    forall k | 0 <= k < |ties| && k < nxt[w := i + lanes][Ring(k, lanes)]
      && ComputedRank(ties, lanes, floor, ties[k]) < remain
      ensures ComputedRank(ties, lanes, floor, ties[k]) in written
    {
      if Ring(k, lanes) == w && i < k {
        RingDistinct(i, k, lanes);
      }
    }
  }

  lemma {:induction false} AllHandled(nxt: seq<nat>, written: map<nat, nat>, ties: seq<TieEntry>, lanes: nat,
                                      floor: int, remain: nat)
    requires lanes > 0 && |nxt| == lanes && Handled(nxt, written, ties, lanes, floor, remain)
    requires forall w :: 0 <= w < lanes ==> nxt[w] >= |ties|
    ensures forall i :: 0 <= i < |ties| && ComputedRank(ties, lanes, floor, ties[i]) < remain
                        ==> ComputedRank(ties, lanes, floor, ties[i]) in written
  {
  }
}
