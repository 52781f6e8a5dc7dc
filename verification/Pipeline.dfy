/** bf16StreamPass<false>: the histogram pass over a row through a ring of stage buffers filled by asynchronous
    copies. */
module Pipeline {
  import opened Sums
  import opened Rows
  import opened Tiling
  import opened Histogram

  /** An asynchronous copy of one thread's part of a stage, with the commit group of the thread it belongs to. */
  datatype Copy = Copy(stage: nat, thread: nat, group: nat)

  class StreamPass {
    const row: seq<Elem>
    const threads: nat
    const elems: nat
    const stages: nat
    const size: nat                      // elements per stage
    const numIters: nat
    const histogram: array<nat>
    const buf: array2<Elem>              // one row per stage buffer
    var lo: nat                          // the stage being consumed; all earlier ones are done
    var issued: seq<nat>                 // per thread: stages whose copy it has issued
    var committed: seq<nat>              // per thread: groups it has committed, empty ones included
    var inflight: set<Copy>              // copies that have not landed yet
    var pos: seq<nat>                    // per thread: elements of stage `lo` it has counted
    ghost var done: set<nat>             // indices counted so far

    // ------------------------------------------------------------ geometry: one tile per stage

    ghost predicate Shape()
    {
      Tiled(threads, elems, size) && stages > 0 && numIters == CeilDiv(|row|, size)
    }

    ghost predicate At(g: nat, p: Place)
    {
      IsAt(g, p, threads, elems, size)
    }

    /** Where index `g` is held. */
    ghost function PlaceOf(g: nat): (p: Place)
      requires Shape()
      ensures At(g, p)
    {
      Locate(g, threads, elems, size)
    }

    // ------------------------------------------------------------ invariant

    /** The slots of thread `t` in the buffer of stage `s` hold that stage's elements. */
    ghost predicate Staged(s: nat, t: nat)
      reads buf
      requires Shape() && buf.Length0 == stages && buf.Length1 == size && t < threads
    {
      forall j :: Start(t, elems) <= j < Start(t, elems) + elems && j < size && Start(s, size) + j < |row|
                  ==> buf[Ring(s, stages), j] == row[Start(s, size) + j]
    }

    ghost predicate Consumed(g: nat)
      reads this`lo, this`pos
      requires Shape() && |pos| == threads
    {
      var p := PlaceOf(g);
      p.tile < lo || (p.tile == lo && p.elem < pos[p.lane])
    }

    ghost predicate Layout()
      reads this`lo, this`issued, this`pos
    {
      && Shape() && ValidRow(row, histogram.Length)
      && buf.Length0 == stages && buf.Length1 == size
      && |issued| == threads && |pos| == threads && lo <= numIters
      && forall t :: 0 <= t < threads ==> lo <= issued[t] <= lo + stages && pos[t] <= elems
    }

    /** Copies in flight are full vectors of issued stages that nobody has consumed. */
    ghost predicate CopiesValid()
      reads this`lo, this`issued, this`inflight
      requires |issued| == threads
    {
      forall c :: c in inflight ==> c.thread < threads && lo <= c.stage < issued[c.thread] && c.stage < numIters
                                    && Start(c.stage, size) + Start(c.thread, elems) + elems <= |row|
                                    && c.group == c.stage
    }

    /** A thread commits a group after each stage it issues, so it lags at most one behind. */
    ghost predicate CommitsValid()
      reads this`issued, this`committed
      requires |issued| == threads
    {
      |committed| == threads && forall t :: 0 <= t < threads ==> committed[t] <= issued[t] <= committed[t] + 1
    }

    /** Every issued stage whose copy has landed is intact until it is consumed. */
    ghost predicate BuffersValid()
      reads this`lo, this`issued, this`inflight, buf
      requires Shape() && buf.Length0 == stages && buf.Length1 == size && |issued| == threads
    {
      forall t, s: nat ::
        0 <= t < threads && lo <= s < issued[t] && s < numIters && Copy(s, t, s) !in inflight ==> Staged(s, t)
    }

    ghost predicate CountsValid()
      reads this`lo, this`pos, this`done, histogram
      requires Shape() && |pos| == threads
    {
      && done <= Indices(row)
      && (forall g :: g in Indices(row) ==> (g in done <==> Consumed(g)))
      && Counts(histogram[..], row, done)
    }

    ghost predicate Valid()
      reads this, buf, histogram
    {
      Layout() && CommitsValid() && CopiesValid() && BuffersValid() && CountsValid()
    }

    constructor (row: seq<Elem>, threads: nat, elems: nat, stages: nat, histogram: array<nat>, buf: array2<Elem>)
      requires threads > 0 && elems > 0 && stages > 0
      requires ValidRow(row, histogram.Length)
      requires buf.Length0 == stages && buf.Length1 == Start(threads, elems)
      requires forall b :: 0 <= b < histogram.Length ==> histogram[b] == 0
      ensures Valid() && lo == 0 && inflight == {} && done == {}
      ensures this.row == row && this.histogram == histogram && this.buf == buf
      ensures this.threads == threads && this.elems == elems && this.stages == stages
      ensures forall t :: 0 <= t < threads ==> issued[t] == committed[t] == 0 && pos[t] == 0
    {
      this.row, this.threads, this.elems, this.stages := row, threads, elems, stages;
      this.histogram, this.buf := histogram, buf;
      size := Start(threads, elems);
      SizePositive(threads, elems);
      numIters := CeilDiv(|row|, Start(threads, elems));
      lo, inflight, done := 0, {}, {};
      issued := seq(threads, _ => 0);
      committed := seq(threads, _ => 0);
      pos := seq(threads, _ => 0);
      new;
      CountsEmpty(histogram[..], row);
    }

    // ------------------------------------------------------------ steps of the copy engine and of the threads

    /** Fill the slots of thread `t` in the buffer of stage `s`; nothing that other copies placed is touched. */
    method Fill(s: nat, t: nat)
      requires Layout() && t < threads && lo <= s < lo + stages
      modifies buf
      ensures Staged(s, t)
      ensures forall s': nat, t' ::
                0 <= t' < threads && lo <= s' < lo + stages && (s', t') != (s, t) && old(Staged(s', t')) ==>
                  Staged(s', t')
    {
      var base := Start(s, size) + Start(t, elems);
      var b := Ring(s, stages);
      Span(t, elems - 1, threads, elems, size);
      for e := 0 to elems
        invariant forall i, j ::
                    0 <= i < stages && 0 <= j < size && !(i == b && Start(t, elems) <= j < Start(t, elems) + elems)
                    ==> buf[i, j] == old(buf[i, j])
        invariant forall j :: Start(t, elems) <= j < Start(t, elems) + e && Start(s, size) + j < |row|
                    ==> buf[b, j] == row[Start(s, size) + j]
      {
        if base + e < |row| {
          buf[b, Start(t, elems) + e] := row[base + e];
        }
      }
      forall s': nat, t' | 0 <= t' < threads && lo <= s' < lo + stages && (s', t') != (s, t) && old(Staged(s', t'))
        ensures Staged(s', t')
      {
        OtherSlots(s, t, s', t');
      }
    }

    lemma {:induction false} OtherSlots(s: nat, t: nat, s': nat, t': nat)
      requires Shape() && t < threads && t' < threads && (s', t') != (s, t)
      requires s < s' + stages && s' < s + stages
      ensures Ring(s, stages) != Ring(s', stages) || Start(t, elems) + elems <= Start(t', elems)
              || Start(t', elems) + elems <= Start(t, elems)
    {
      if s' < s { RingDistinct(s', s, stages); } else if s < s' { RingDistinct(s, s', stages); }
      if t' < t { StartMonotone(t' + 1, t, elems); } else if t < t' { StartMonotone(t + 1, t', elems); }
    }

    /** An asynchronous copy lands. */
    method Land(c: Copy)
      requires Valid() && c in inflight
      modifies this`inflight, buf
      ensures Valid() && inflight == old(inflight) - {c}
    {
      Fill(c.stage, c.thread);
      inflight := inflight - {c};
    }

    /** How far issuing and committing can be apart, and ahead of the stage being consumed. */
    lemma {:induction false} Window()
      requires Valid()
      ensures |issued| == |committed| == |pos| == threads && stages > 0
      ensures forall t :: 0 <= t < threads ==> committed[t] <= issued[t] <= committed[t] + 1 && issued[t] <= lo + stages
    {
    }

    /** Thread `t` issues its next stage: a full vector is copied asynchronously, as part of the group that the thread
        commits next; a partial one is copied at once, and past the end of the row nothing of the row is loaded. */
    method Issue(t: nat)
      requires Valid() && t < threads && issued[t] == committed[t] < lo + stages
      modifies this`issued, this`inflight, buf
      ensures Valid() && issued == old(issued)[t := old(issued)[t] + 1]
    {
      hide Valid;
      Window();
      var s := issued[t];
      if s < numIters && Start(s, size) + Start(t, elems) + elems <= |row| {
        IssueAsync(t, s);
      } else if s < numIters {
        IssueNow(t, s);
      } else {
        IssueNothing(t, s);
      }
    }

    method IssueNothing(t: nat, s: nat)
      requires Valid() && t < threads && s == issued[t] == committed[t] < lo + stages && s >= numIters
      modifies this`issued
      ensures Valid() && issued == old(issued)[t := s + 1]
    {
      hide Counts, ValidRow, IsAt, CountsValid, Staged;
      issued := issued[t := s + 1];
    }

    method IssueAsync(t: nat, s: nat)
      requires Valid() && t < threads && s == issued[t] == committed[t] < lo + stages
      requires s < numIters && Start(s, size) + Start(t, elems) + elems <= |row|
      modifies this`issued, this`inflight
      ensures Valid() && issued == old(issued)[t := s + 1]
    {
      hide Counts, ValidRow, IsAt, CountsValid, Staged;
      inflight := inflight + {Copy(s, t, committed[t])};
      issued := issued[t := s + 1];
    }

    method IssueNow(t: nat, s: nat)
      requires Valid() && t < threads && s == issued[t] == committed[t] < lo + stages && s < numIters
      modifies this`issued, buf
      ensures Valid() && issued == old(issued)[t := s + 1]
    {
      hide Counts, ValidRow, IsAt, CountsValid;
      Fill(s, t);
      issued := issued[t := s + 1];
    }

    /** `__pipeline_commit`: the copies issued since the last one form a group, possibly an empty one. */
    method Commit(t: nat)
      requires Valid() && t < threads && committed[t] < issued[t]
      modifies this`committed
      ensures Valid() && committed == old(committed)[t := old(committed)[t] + 1]
    {
      hide Layout, CopiesValid, BuffersValid, CountsValid;
      committed := committed[t := committed[t] + 1];
    }

    /** Thread `t` counts its next element of the current stage, or leaves the loop at the end of the row. */
    method Count(t: nat)
      requires Valid() && t < threads && pos[t] < elems && lo < numIters && lo < issued[t]
      requires forall c :: c in inflight ==> c.stage > lo
      modifies this`pos, this`done, histogram
      ensures Valid() && |pos| == |old(pos)| && old(pos)[t] < pos[t] <= elems && pos == old(pos)[t := pos[t]]
    {
      var local := Start(t, elems) + pos[t];
      var globalIdx := Start(lo, size) + local;
      if globalIdx >= |row| {
        pos := pos[t := elems];
        CountStep(old(pos), done, t, globalIdx, Place(lo, t, old(pos)[t]));
      } else {
        Span(t, pos[t], threads, elems, size);
        assert Staged(lo, t);
        CountElem(t, buf[Ring(lo, stages), local], globalIdx);
      }
    }

    method CountElem(t: nat, val: Elem, globalIdx: nat)
      requires Layout() && CountsValid() && t < threads && pos[t] < elems
      requires At(globalIdx, Place(lo, t, pos[t])) && globalIdx < |row| && val == row[globalIdx]
      modifies this`pos, this`done, histogram
      ensures Layout() && CountsValid() && pos == old(pos)[t := old(pos)[t] + 1]
    {
      hide Counts, IsAt, Tiled;
      OnePlace(globalIdx, Place(lo, t, pos[t]), PlaceOf(globalIdx), threads, elems, size);
      CountOne(histogram[..], row, done, globalIdx);
      histogram[val.bin] := histogram[val.bin] + 1;
      done := done + {globalIdx};
      pos := pos[t := pos[t] + 1];
      CountStep(old(pos), old(done), t, globalIdx, Place(lo, t, old(pos)[t]));
    }

    /** Advancing one thread adds exactly its element to the consumed ones. */
    lemma {:induction false} CountStep(pos0: seq<nat>, done0: set<nat>, t: nat, g0: nat, here: Place)
      requires Layout() && t < threads && |pos0| == threads && pos0[t] < elems
      requires here == Place(lo, t, pos0[t]) && At(g0, here)
      requires pos == pos0[t := if g0 < |row| then pos0[t] + 1 else elems]
      requires done == if g0 < |row| then done0 + {g0} else done0
      requires forall g :: g in Indices(row) ==>
                 (g in done0 <==>
                   PlaceOf(g).tile < lo || (PlaceOf(g).tile == lo && PlaceOf(g).elem < pos0[PlaceOf(g).lane]))
      ensures forall g :: g in Indices(row) ==> (g in done <==> Consumed(g))
    {
      forall g | g in Indices(row)
        ensures g in done <==> Consumed(g)
      {
        var p := PlaceOf(g);
        if g == g0 {
          OnePlace(g0, here, p, threads, elems, size);
        } else {
          assert p != here;
        }
      }
    }

    /** All threads are past stage `lo`: its buffer may be reused. */
    method Release()
      requires Valid() && lo < numIters
      requires forall t :: 0 <= t < threads ==> pos[t] == elems && issued[t] == lo + stages
      requires forall c :: c in inflight ==> c.stage > lo
      modifies this`lo, this`pos
      ensures Valid() && lo == old(lo) + 1
      ensures forall t :: 0 <= t < threads ==> pos[t] == 0
    {
      lo := lo + 1;
      pos := seq(threads, _ => 0);
    }

    // ------------------------------------------------------------ the pass

    /** Some copy in flight lands. */
    method LandSome()
      requires Valid() && inflight != {}
      modifies this`inflight, buf
      ensures Valid() && inflight < old(inflight) && |inflight| < |old(inflight)|
      ensures issued == old(issued) && pos == old(pos)
    {
      var c :| c in inflight;
      Land(c);
    }

    predicate MayIssue(t: nat, target: nat)
      reads this`issued, this`committed
    {
      t < threads && t < |issued| && t < |committed| && issued[t] == committed[t] < target
    }

    predicate MayCommit(t: nat)
      reads this`issued, this`committed
    {
      t < threads && t < |issued| && t < |committed| && committed[t] < issued[t]
    }

    predicate AnyIssue(target: nat)
      reads this`issued, this`committed
    {
      exists t :: 0 <= t < threads && MayIssue(t, target)
    }

    predicate AnyCommit()
      reads this`issued, this`committed
    {
      exists t :: 0 <= t < threads && MayCommit(t)
    }

    /** Some thread issues its next stage. */
    method SomeIssue(target: nat)
      requires Valid() && target == lo + stages && AnyIssue(target)
      modifies this`issued, this`inflight, buf
      ensures Valid() && Deficit(issued, target) < Deficit(old(issued), target)
    {
      hide Valid, Deficit;
      var t :| 0 <= t < threads && MayIssue(t, target);
      ghost var before := issued;
      Issue(t);
      DeficitDrops(before, t, before[t] + 1, target);
    }

    /** Some thread commits what it has issued. */
    method SomeCommit(target: nat)
      requires Valid() && target == lo + stages && AnyCommit()
      modifies this`committed
      ensures Valid() && Deficit(committed, target) < Deficit(old(committed), target)
    {
      hide Valid, Deficit;
      Window();
      var t :| 0 <= t < threads && MayCommit(t);
      ghost var before := committed;
      Commit(t);
      DeficitDrops(before, t, before[t] + 1, target);
    }

    /** A thread that has neither a stage to issue nor one to commit has the full window. */
    lemma {:induction false} FullWindow(target: nat)
      requires Valid() && target == lo + stages && !AnyIssue(target) && !AnyCommit()
      ensures RoundDone(target)
    {
      Window();
      hide Valid;
      forall t | 0 <= t < threads
        ensures issued[t] == committed[t] == target
      {
        assert !MayIssue(t, target) && !MayCommit(t);
      }
    }

    /** Threads issue and commit, in any order and while copies keep landing, until each has the full window. */
    method IssueRound(target: nat)
      requires Valid() && target == lo + stages
      modifies this`issued, this`committed, this`inflight, buf
      ensures Valid() && RoundDone(target)
    {
      hide Valid, Deficit, AnyIssue, AnyCommit;
      while AnyIssue(target) || AnyCommit()
        invariant Valid()
        decreases Deficit(issued, target), Deficit(committed, target), |inflight|
      {
        if {
          case inflight != {} => LandSome();
          case AnyIssue(target) => SomeIssue(target);
          case AnyCommit() => SomeCommit(target);
        }
      }
      FullWindow(target);
    }

    /** Every thread has issued and committed all stages before `target`. */
    ghost predicate RoundDone(target: nat)
      reads this`issued, this`committed
    {
      |issued| == |committed| == threads && forall t :: 0 <= t < threads ==> issued[t] == committed[t] == target
    }

    /** `__pipeline_wait_prior(prior)` by all threads: of what a thread has committed, only the last `prior` groups may
        still be in flight. */
    method WaitPrior(prior: nat)
      requires Valid()
      modifies this`inflight, buf
      ensures Valid() && Waited(prior)
    {
      while exists c :: c in inflight && c.thread < threads && c.group + prior < committed[c.thread]
        invariant Valid()
        decreases |inflight|
      {
        LandSome();
      }
    }

    ghost predicate Waited(prior: nat)
      reads this`committed, this`inflight
    {
      forall c :: c in inflight ==> c.thread < |committed| && committed[c.thread] <= c.group + prior
    }

    /** With a window of `stages` groups behind them, waiting for all but the last `stages - 1` is waiting for the
        current stage, and waiting for all of them empties the pipeline. */
    lemma {:induction false} StageLanded(prior: nat)
      requires Valid() && RoundDone(lo + stages) && Waited(prior)
      ensures prior == stages - 1 ==> forall c :: c in inflight ==> c.stage > lo
      ensures prior == 0 ==> inflight == {}
    {
    }

    predicate AnyUncounted()
      reads this`pos
    {
      exists t :: 0 <= t < threads && t < |pos| && pos[t] < elems
    }

    /** Some thread counts an element or leaves the loop. */
    method SomeCount()
      requires Valid() && lo < numIters && AnyUncounted()
      requires forall t :: 0 <= t < threads ==> issued[t] == lo + stages
      requires forall c :: c in inflight ==> c.stage > lo
      modifies this`pos, this`done, histogram
      ensures Valid() && Deficit(pos, elems) < Deficit(old(pos), elems)
    {
      hide Valid, Deficit;
      Window();
      var t :| 0 <= t < threads && t < |pos| && pos[t] < elems;
      ghost var before := pos;
      Count(t);
      DeficitDrops(before, t, pos[t], elems);
    }

    lemma {:induction false} AllPast()
      requires Valid() && !AnyUncounted()
      ensures forall t :: 0 <= t < threads ==> pos[t] == elems
    {
    }

    /** Threads count the current stage in any order, while copies of later stages keep landing. */
    method ConsumeStage()
      requires Valid() && lo < numIters
      requires forall t :: 0 <= t < threads ==> issued[t] == lo + stages
      requires forall c :: c in inflight ==> c.stage > lo
      modifies this`inflight, this`pos, this`done, buf, histogram
      ensures Valid()
      ensures forall c :: c in inflight ==> c.stage > lo
      ensures forall t :: 0 <= t < threads ==> pos[t] == elems
    {
      hide Valid, Deficit, AnyUncounted;
      while AnyUncounted()
        invariant Valid()
        invariant forall c :: c in inflight ==> c.stage > lo
        decreases Deficit(pos, elems), |inflight|
      {
        if {
          case inflight != {} => LandSome();
          case AnyUncounted() => SomeCount();
        }
      }
      AllPast();
    }

    /** The whole pass, for every order of threads and every moment at which copies land. */
    method Run()
      requires Valid() && lo == 0 && inflight == {}
      requires forall t :: 0 <= t < threads ==> issued[t] == committed[t] == 0 && pos[t] == 0
      modifies this, buf, histogram
      ensures Counts(histogram[..], row, Indices(row)) && inflight == {}
    {
      IssueRound(lo + stages);
      while lo < numIters
        invariant Valid() && RoundDone(lo + stages)
        invariant forall t :: 0 <= t < threads ==> pos[t] == 0
        decreases numIters - lo
      {
        WaitPrior(stages - 1);
        StageLanded(stages - 1);
        // __syncthreads()
        ConsumeStage();
        // __syncthreads()
        Release();
        IssueRound(lo + stages);
      }
      WaitPrior(0);
      StageLanded(0);
      AllCounted();
    }

    lemma {:induction false} AllCounted()
      requires Valid() && lo == numIters
      ensures Counts(histogram[..], row, Indices(row))
    {
      forall g | g in Indices(row)
        ensures g in done
      {
        TileInRange(g, |row|, threads, elems, size);
      }
      assert done == Indices(row);
    }
  }
}
