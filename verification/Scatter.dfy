/** The scatter phase shared by both kernels: elements above the threshold bin go to the output, elements in it to the
    tie buffer, each at a position handed out by an atomic counter. The store that follows an `atomicAdd` is a step of
    its own, so other threads run between the two. */
module Scatter {
  import opened Sums
  import opened Rows

  datatype TieEntry = TieEntry(idx: nat, score: int)

  /** What a thread has obtained from a counter and not stored yet. */
  datatype Pending = Idle | StoreGt(slot: nat, idx: nat) | StoreEq(slot: nat, entry: TieEntry)

  /** Outstanding stores above the threshold: owners and threads agree, and each thread owes the logged index. */
  ghost predicate OwedGt(pend: seq<Pending>, log: seq<nat>, owner: map<nat, nat>)
  {
    && (forall t :: 0 <= t < |pend| && pend[t].StoreGt? ==>
          && pend[t].slot in owner && owner[pend[t].slot] == t
          && pend[t].slot < |log| && log[pend[t].slot] == pend[t].idx)
    && (forall p :: p in owner ==> owner[p] < |pend| && pend[owner[p]].StoreGt? && pend[owner[p]].slot == p)
  }

  /** The same for stores of ties. */
  ghost predicate OwedEq(pend: seq<Pending>, row: seq<Elem>, log: seq<nat>, owner: map<nat, nat>)
  {
    && (forall t :: 0 <= t < |pend| && pend[t].StoreEq? ==>
          && pend[t].slot in owner && owner[pend[t].slot] == t
          && pend[t].slot < |log| && log[pend[t].slot] < |row|
          && pend[t].entry == TieEntry(log[pend[t].slot], row[log[pend[t].slot]].score))
    && (forall p :: p in owner ==> owner[p] < |pend| && pend[owner[p]].StoreEq? && pend[owner[p]].slot == p)
  }

  /** The output holds the logged index at every position whose store is not outstanding. */
  ghost predicate OutAbove(out: seq<int>, log: seq<nat>, owner: map<nat, nat>)
  {
    forall p: nat :: p < |log| && p < |out| && p !in owner ==> out[p] == log[p]
  }

  /** The part of the output behind the `above` first slots: the logged ties when they go there directly, and
      untouched otherwise. */
  ghost predicate OutTail(out: seq<int>, above: nat, direct: bool, log: seq<nat>, owner: map<nat, nat>)
  {
    forall p: nat :: above <= p < |out| ==>
      if direct then p - above < |log| && p - above !in owner ==> out[p] == log[p - above] else out[p] == -1
  }

  /** The buffer holds the logged tie at every position that it has and whose store is not outstanding. */
  ghost predicate InBuffer(ties: seq<TieEntry>, row: seq<Elem>, log: seq<nat>, owner: map<nat, nat>)
  {
    forall p: nat :: p < |log| && p < |ties| && p !in owner ==>
      log[p] < |row| && ties[p] == TieEntry(log[p], row[log[p]].score)
  }

  lemma {:induction false} ClaimAboveStep(pend: seq<Pending>, row: seq<Elem>, log: seq<nat>, owner: map<nat, nat>,
                                          t: nat, g: nat,
                       eqLog: seq<nat>, eqOwner: map<nat, nat>, out: seq<int>)
    requires OwedGt(pend, log, owner) && OwedEq(pend, row, eqLog, eqOwner) && OutAbove(out, log, owner)
    requires t < |pend| && pend[t] == Idle
    ensures OwedGt(pend[t := StoreGt(|log|, g)], log + [g], owner[|log| := t])
    ensures OwedEq(pend[t := StoreGt(|log|, g)], row, eqLog, eqOwner)
    ensures OutAbove(out, log + [g], owner[|log| := t])
  {
  }

  lemma {:induction false} ClaimTieStep(pend: seq<Pending>, row: seq<Elem>, log: seq<nat>, owner: map<nat, nat>,
                                        t: nat, g: nat,
                     gtLog: seq<nat>, gtOwner: map<nat, nat>)
    requires OwedEq(pend, row, log, owner) && OwedGt(pend, gtLog, gtOwner)
    requires t < |pend| && pend[t] == Idle && g < |row|
    ensures OwedEq(pend[t := StoreEq(|log|, TieEntry(g, row[g].score))], row, log + [g], owner[|log| := t])
    ensures OwedGt(pend[t := StoreEq(|log|, TieEntry(g, row[g].score))], gtLog, gtOwner)
  {
  }

  lemma {:induction false} ClaimTieStores(row: seq<Elem>, log: seq<nat>, owner: map<nat, nat>, t: nat, g: nat,
                       out: seq<int>, above: nat, direct: bool, ties: seq<TieEntry>)
    requires OutTail(out, above, direct, log, owner)
    requires !direct ==> InBuffer(ties, row, log, owner)
    ensures OutTail(out, above, direct, log + [g], owner[|log| := t])
    ensures !direct ==> InBuffer(ties, row, log + [g], owner[|log| := t])
  {
  }

  lemma {:induction false} StoreAboveStep(pend: seq<Pending>, row: seq<Elem>, log: seq<nat>, owner: map<nat, nat>,
                                          t: nat,
                       eqLog: seq<nat>, eqOwner: map<nat, nat>, out: seq<int>)
    requires OwedGt(pend, log, owner) && OwedEq(pend, row, eqLog, eqOwner) && OutAbove(out, log, owner)
    requires t < |pend| && pend[t].StoreGt? && pend[t].slot < |out|
    ensures OwedGt(pend[t := Idle], log, owner - {pend[t].slot})
    ensures OwedEq(pend[t := Idle], row, eqLog, eqOwner)
    ensures OutAbove(out[pend[t].slot := pend[t].idx], log, owner - {pend[t].slot})
  {
  }

  lemma {:induction false} StoreAboveTail(out: seq<int>, above: nat, direct: bool, log: seq<nat>, owner: map<nat, nat>,
                                          p: nat, idx: int)
    requires OutTail(out, above, direct, log, owner) && p < above && p < |out|
    ensures OutTail(out[p := idx], above, direct, log, owner)
  {
  }

  lemma {:induction false} StoreTieOut(out: seq<int>, above: nat, log: seq<nat>, owner: map<nat, nat>, p: nat,
                                       gtLog: seq<nat>, gtOwner: map<nat, nat>)
    requires OutTail(out, above, true, log, owner) && OutAbove(out, gtLog, gtOwner)
    requires p < |log| && |gtLog| <= above
    ensures above + p < |out| ==> OutTail(out[above + p := log[p]], above, true, log, owner - {p})
    ensures above + p < |out| ==> OutAbove(out[above + p := log[p]], gtLog, gtOwner)
    ensures above + p >= |out| ==> OutTail(out, above, true, log, owner - {p})
  {
  }

  lemma {:induction false} StoreTieIn(ties: seq<TieEntry>, row: seq<Elem>, log: seq<nat>, owner: map<nat, nat>, p: nat,
                   out: seq<int>, above: nat)
    requires InBuffer(ties, row, log, owner) && p < |log| && log[p] < |row| && OutTail(out, above, false, log, owner)
    ensures p < |ties| ==> InBuffer(ties[p := TieEntry(log[p], row[log[p]].score)], row, log, owner - {p})
    ensures p >= |ties| ==> InBuffer(ties, row, log, owner - {p})
    ensures OutTail(out, above, false, log, owner - {p})
  {
  }

  /** The thread owes what the log says. */
  lemma {:induction false} OwesGt(pend: seq<Pending>, log: seq<nat>, owner: map<nat, nat>, t: nat)
    requires OwedGt(pend, log, owner) && t < |pend| && pend[t].StoreGt?
    ensures pend[t].slot < |log| && log[pend[t].slot] == pend[t].idx
  {
  }

  lemma {:induction false} OwesEq(pend: seq<Pending>, row: seq<Elem>, log: seq<nat>, owner: map<nat, nat>, t: nat)
    requires OwedEq(pend, row, log, owner) && t < |pend| && pend[t].StoreEq?
    ensures pend[t].slot < |log| && log[pend[t].slot] < |row|
    ensures pend[t].entry == TieEntry(log[pend[t].slot], row[log[pend[t].slot]].score)
  {
  }

  lemma {:induction false} StoreTieStep(pend: seq<Pending>, row: seq<Elem>, log: seq<nat>, owner: map<nat, nat>, t: nat,
                     gtLog: seq<nat>, gtOwner: map<nat, nat>)
    requires OwedEq(pend, row, log, owner) && OwedGt(pend, gtLog, gtOwner)
    requires t < |pend| && pend[t].StoreEq?
    ensures OwedEq(pend[t := Idle], row, log, owner - {pend[t].slot})
    ensures OwedGt(pend[t := Idle], gtLog, gtOwner)
  {
  }

  /** Threads that owe a store. */
  ghost function OwingThreads(pend: seq<Pending>): set<nat>
  {
    set t | t in Upto(|pend|) && pend[t] != Idle
  }

  lemma {:induction false} StoreOwesLess(pend: seq<Pending>, t: nat)
    requires t < |pend| && pend[t] != Idle
    ensures OwingThreads(pend[t := Idle]) < OwingThreads(pend)
  {
    assert t in OwingThreads(pend) && t !in OwingThreads(pend[t := Idle]);
  }

  class ScatterState {
    ghost const row: seq<Elem>
    const thrBin: nat
    const numAbove: nat
    const topK: nat
    const maxTies: nat
    const direct: bool                // ties go straight to the output: the register kernel without a tiebreak
    const sTopK: array<int>
    const tieBuffer: array<TieEntry>
    var counterGt: nat
    var counterEq: nat
    var pend: seq<Pending>            // per thread
    ghost var done: set<nat>          // indices scattered so far
    ghost var gtLog: seq<nat>         // the index that received each position above the threshold
    ghost var eqLog: seq<nat>         // the index that received each position in the threshold bin
    ghost var gtOwner: map<nat, nat>  // positions whose store is outstanding, with the thread that owes it
    ghost var eqOwner: map<nat, nat>

    ghost predicate Task()
    {
      && IsThreshold(row, thrBin, topK)
      && numAbove == |Above(row, thrBin)|
      && (direct ==> numAbove + |InBin(row, thrBin)| == topK)
      && sTopK.Length == topK && tieBuffer.Length == maxTies
    }

    ghost predicate LogsValid()
      reads this`counterGt, this`counterEq, this`done, this`gtLog, this`eqLog
    {
      && done <= Indices(row)
      && counterGt == |gtLog| <= numAbove && counterEq == |eqLog| <= |InBin(row, thrBin)|
      && Lists(gtLog, done * Above(row, thrBin))
      && Lists(eqLog, done * InBin(row, thrBin))
    }

    ghost predicate PendingValid()
      reads this`pend, this`gtLog, this`eqLog, this`gtOwner, this`eqOwner
    {
      OwedGt(pend, gtLog, gtOwner) && OwedEq(pend, row, eqLog, eqOwner)
    }

    ghost predicate StoresValid()
      reads this`gtLog, this`eqLog, this`gtOwner, this`eqOwner, sTopK, tieBuffer
    {
      && OutAbove(sTopK[..], gtLog, gtOwner)
      && OutTail(sTopK[..], numAbove, direct, eqLog, eqOwner)
      && (!direct ==> InBuffer(tieBuffer[..], row, eqLog, eqOwner))
    }

    ghost predicate Valid()
      reads this, sTopK, tieBuffer
    {
      Task() && LogsValid() && PendingValid() && StoresValid()
    }

    constructor (ghost row: seq<Elem>, thrBin: nat, numAbove: nat, direct: bool, sTopK: array<int>,
                 tieBuffer: array<TieEntry>,
                 threads: nat)
      requires IsThreshold(row, thrBin, sTopK.Length) && numAbove == |Above(row, thrBin)|
      requires direct ==> numAbove + |InBin(row, thrBin)| == sTopK.Length
      requires forall p :: 0 <= p < sTopK.Length ==> sTopK[p] == -1
      ensures Valid() && done == {} && |pend| == threads
      ensures forall t :: 0 <= t < threads ==> pend[t] == Idle
      ensures this.row == row && this.thrBin == thrBin && this.numAbove == numAbove && this.direct == direct
      ensures this.sTopK == sTopK && this.tieBuffer == tieBuffer && topK == sTopK.Length && maxTies == tieBuffer.Length
    {
      this.row, this.thrBin, this.numAbove, this.direct := row, thrBin, numAbove, direct;
      this.sTopK, this.tieBuffer, topK, maxTies := sTopK, tieBuffer, sTopK.Length, tieBuffer.Length;
      counterGt, counterEq, done, gtLog, eqLog, gtOwner, eqOwner := 0, 0, {}, [], [], map[], map[];
      pend := seq(threads, _ => Idle);
    }

    /** The counters equal the numbers of scattered elements above and in the threshold bin. */
    lemma {:induction false} CountersExact()
      requires Valid()
      ensures counterGt == |done * Above(row, thrBin)|
      ensures counterEq == |done * InBin(row, thrBin)|
    {
      ListsLength(gtLog, done * Above(row, thrBin));
      ListsLength(eqLog, done * InBin(row, thrBin));
    }

    lemma {:induction false} ListsExtend(log: seq<nat>, g: nat, mine: set<nat>, other: set<nat>)
      requires Lists(log, done * mine) && g !in done && g in mine && g !in other
      ensures Lists(log + [g], (done + {g}) * mine) && |log| < |mine|
      ensures (done + {g}) * other == done * other
    {
      ListsLength(log, done * mine);
      SubsetCard(done * mine + {g}, mine);
      assert (done + {g}) * mine == done * mine + {g};
      assert (done + {g}) * other == done * other;
    }

    /** Only elements that have been scattered are logged as ties. */
    lemma {:induction false} TiesLogged()
      requires Valid()
      ensures forall i :: 0 <= i < |eqLog| ==> eqLog[i] in done && eqLog[i] in InBin(row, thrBin)
      ensures forall g :: g in done && g in InBin(row, thrBin) ==> g in eqLog
    {
      hide PendingValid, StoresValid, Task;
    }

    lemma {:induction false} NothingLogged()
      requires Valid() && done == {}
      ensures eqLog == []
    {
      CountersExact();
      assert done * InBin(row, thrBin) == {};
    }

    /** Thread `t` looks at element `x` of index `g` and, where the bin calls for it, takes a position. */
    method Claim(t: nat, g: nat, x: Elem)
      requires Valid() && t < |pend| && pend[t] == Idle
      requires g < |row| && g !in done && x == row[g]
      modifies this
      ensures Valid() && done == old(done) + {g}
      ensures |pend| == |old(pend)| && pend == old(pend)[t := pend[t]]
      ensures eqLog == if x.bin == thrBin then old(eqLog) + [g] else old(eqLog)
    {
      if x.bin > thrBin {
        ClaimAbove(t, g);
      } else if x.bin == thrBin {
        ClaimTie(t, g, x.score);
      } else {
        assert (done + {g}) * Above(row, thrBin) == done * Above(row, thrBin);
        assert (done + {g}) * InBin(row, thrBin) == done * InBin(row, thrBin);
        done := done + {g};
      }
    }

    lemma {:induction false} BinOf(g: nat)
      requires g < |row|
      ensures g in Indices(row)
      ensures g in Above(row, thrBin) <==> row[g].bin > thrBin
      ensures g in InBin(row, thrBin) <==> row[g].bin == thrBin
    {
    }

    method ClaimAbove(t: nat, g: nat)
      requires Valid() && t < |pend| && pend[t] == Idle
      requires g < |row| && g !in done && row[g].bin > thrBin
      modifies this`counterGt, this`done, this`gtLog, this`gtOwner, this`pend
      ensures Valid() && done == old(done) + {g}
      ensures |pend| == |old(pend)| && pend == old(pend)[t := pend[t]]
    {
      BinOf(g);
      hide OwedGt, OwedEq, OutAbove, OutTail, InBuffer, Lists, Above, InBin, IsThreshold, Indices;
      ListsExtend(gtLog, g, Above(row, thrBin), InBin(row, thrBin));
      ClaimAboveStep(pend, row, gtLog, gtOwner, t, g, eqLog, eqOwner, sTopK[..]);
      var pos := counterGt;
      counterGt := counterGt + 1;
      done, gtLog, gtOwner := done + {g}, gtLog + [g], gtOwner[pos := t];
      pend := pend[t := StoreGt(pos, g)];
      assert Task() && LogsValid() && PendingValid() && StoresValid();
    }

    method ClaimTie(t: nat, g: nat, score: int)
      requires Valid() && t < |pend| && pend[t] == Idle
      requires g < |row| && g !in done && row[g].bin == thrBin && score == row[g].score
      modifies this`counterEq, this`done, this`eqLog, this`eqOwner, this`pend
      ensures Valid() && done == old(done) + {g} && eqLog == old(eqLog) + [g]
      ensures |pend| == |old(pend)| && pend == old(pend)[t := pend[t]]
    {
      hide OwedGt, OwedEq, OutAbove, OutTail, InBuffer, Lists, Above, InBin, IsThreshold, Indices;
      BinOf(g);
      ListsExtend(eqLog, g, InBin(row, thrBin), Above(row, thrBin));
      ClaimTieStep(pend, row, eqLog, eqOwner, t, g, gtLog, gtOwner);
      ClaimTieStores(row, eqLog, eqOwner, t, g, sTopK[..], numAbove, direct, tieBuffer[..]);
      var pos := counterEq;
      counterEq := counterEq + 1;
      done, eqLog, eqOwner := done + {g}, eqLog + [g], eqOwner[pos := t];
      pend := pend[t := StoreEq(pos, TieEntry(g, score))];
      assert Task() && LogsValid() && PendingValid() && StoresValid();
    }

    /** Thread `t` stores what it owes. */
    method Store(t: nat)
      requires Valid() && t < |pend| && pend[t] != Idle
      modifies this`pend, this`gtOwner, this`eqOwner, sTopK, tieBuffer
      ensures Valid() && pend == old(pend)[t := Idle]
    {
      match pend[t]
      case StoreGt(pos, idx) => StoreAbove(t, pos, idx);
      case StoreEq(pos, entry) =>
        if direct {
          StoreTieDirect(t, pos, entry);
        } else {
          StoreTieBuffer(t, pos, entry);
        }
    }

    method StoreAbove(t: nat, pos: nat, idx: nat)
      requires Valid() && t < |pend| && pend[t] == StoreGt(pos, idx)
      modifies this`pend, this`gtOwner, sTopK
      ensures Valid() && pend == old(pend)[t := Idle]
    {
      hide OwedGt, OwedEq, OutAbove, OutTail, InBuffer;
      OwesGt(pend, gtLog, gtOwner, t);
      assert pos < topK;  // the streaming kernel tests this, the register kernel does not
      StoreAboveStep(pend, row, gtLog, gtOwner, t, eqLog, eqOwner, sTopK[..]);
      StoreAboveTail(sTopK[..], numAbove, direct, eqLog, eqOwner, pos, idx);
      sTopK[pos] := idx;
      assert sTopK[..] == old(sTopK[..])[pos := idx];
      gtOwner := gtOwner - {pos};
      pend := pend[t := Idle];
    }

    method StoreTieDirect(t: nat, pos: nat, entry: TieEntry)
      requires Valid() && t < |pend| && pend[t] == StoreEq(pos, entry) && direct
      modifies this`pend, this`eqOwner, sTopK
      ensures Valid() && pend == old(pend)[t := Idle]
    {
      hide OwedGt, OwedEq, OutAbove, OutTail, InBuffer;
      OwesEq(pend, row, eqLog, eqOwner, t);
      StoreTieStep(pend, row, eqLog, eqOwner, t, gtLog, gtOwner);
      StoreTieOut(sTopK[..], numAbove, eqLog, eqOwner, pos, gtLog, gtOwner);
      if numAbove + pos < topK {
        sTopK[numAbove + pos] := entry.idx;
        assert sTopK[..] == old(sTopK[..])[numAbove + pos := entry.idx];
      }
      eqOwner := eqOwner - {pos};
      pend := pend[t := Idle];
    }

    method StoreTieBuffer(t: nat, pos: nat, entry: TieEntry)
      requires Valid() && t < |pend| && pend[t] == StoreEq(pos, entry) && !direct
      modifies this`pend, this`eqOwner, tieBuffer
      ensures Valid() && pend == old(pend)[t := Idle]
    {
      hide OwedGt, OwedEq, OutAbove, OutTail, InBuffer;
      OwesEq(pend, row, eqLog, eqOwner, t);
      StoreTieStep(pend, row, eqLog, eqOwner, t, gtLog, gtOwner);
      StoreTieIn(tieBuffer[..], row, eqLog, eqOwner, pos, sTopK[..], numAbove);
      if pos < maxTies {
        tieBuffer[pos] := entry;
        assert tieBuffer[..] == old(tieBuffer[..])[pos := entry];
      }
      eqOwner := eqOwner - {pos};
      pend := pend[t := Idle];
    }

    /** Every element is scattered and nothing is owed. */
    ghost predicate Finished()
      reads this
    {
      done == Indices(row) && forall t :: 0 <= t < |pend| ==> pend[t] == Idle
    }

    /** What the scatter phase leaves behind, in whatever order the threads ran. */
    lemma {:induction false} Outcome()
      requires Valid() && Finished()
      ensures Lists(gtLog, Above(row, thrBin)) && |gtLog| == numAbove
      ensures Lists(eqLog, InBin(row, thrBin)) && counterEq == |eqLog| == |InBin(row, thrBin)|
      ensures forall p :: 0 <= p < numAbove ==> sTopK[p] == gtLog[p]
      ensures direct ==> forall p :: numAbove <= p < topK ==> sTopK[p] == eqLog[p - numAbove]
      ensures !direct ==> forall p :: numAbove <= p < topK ==> sTopK[p] == -1
      ensures !direct ==> forall p :: 0 <= p < |eqLog| && p < maxTies ==>
                eqLog[p] < |row| && tieBuffer[p] == TieEntry(eqLog[p], row[eqLog[p]].score)
    {
      NothingOwed();
      assert Indices(row) * Above(row, thrBin) == Above(row, thrBin);
      assert Indices(row) * InBin(row, thrBin) == InBin(row, thrBin);
      hide OwedGt, OwedEq, Lists, Above, InBin, Indices, IsThreshold;
      ListsLength(gtLog, Above(row, thrBin));
      ListsLength(eqLog, InBin(row, thrBin));
    }

    lemma {:induction false} NothingOwed()
      requires PendingValid() && forall t :: 0 <= t < |pend| ==> pend[t] == Idle
      ensures gtOwner == map[] && eqOwner == map[]
    {
    }
  }
}
