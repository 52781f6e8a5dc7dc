/** Schedules of the register scatter that keep one thread waiting in front of an element until all others are through.
    */
module WithheldThread {
  import opened Sums
  import opened Rows
  import opened Tiling
  import opened Scatter
  import opened Registers

  /** Thread `t` stands right in front of index `g0`. */
  predicate InFront(b: RegisterBlock, t: nat, g0: nat)
    reads b`cur
  {
    t < |b.cur| && b.cur[t].elem < b.width && b.IndexOf(t, b.cur[t]) == g0
  }

  predicate MayWork(b: RegisterBlock, t: nat, g0: nat, s: ScatterState)
    reads b`cur, s`pend
  {
    b.ThreadWorks(t, s) && !InFront(b, t, g0)
  }

  predicate AnyMayWork(b: RegisterBlock, g0: nat, s: ScatterState)
    reads b`cur, s`pend
  {
    exists t :: 0 <= t < b.threads && MayWork(b, t, g0, s)
  }

  method WorkElsewhere(b: RegisterBlock, g0: nat, s: ScatterState)
    requires b.Scattering(s) && g0 !in s.done && AnyMayWork(b, g0, s)
    modifies b`cur, b.local, s
    ensures b.Scattering(s) && g0 !in s.done && b.WorkLeft() < old(b.WorkLeft()) && old(s.eqLog) <= s.eqLog
  {
    hide RegisterBlock.Scattering, RegisterBlock.WorkLeft;
    var t :| 0 <= t < b.threads && MayWork(b, t, g0, s);
    b.WorkBy(t, s);
  }

  /** Any order of all steps but those that the waiting thread holds up. */
  method RunElsewhere(b: RegisterBlock, g0: nat, s: ScatterState)
    requires b.Scattering(s) && g0 < |b.row| && g0 !in s.done
    modifies b, b.local, s, s.sTopK, s.tieBuffer
    ensures b.Scattering(s) && s.Valid() && old(s.eqLog) <= s.eqLog && g0 !in s.done
    ensures forall g :: g in Indices(b.row) && !(b.ThreadOrder().Together(g0, g) && g0 <= g) ==> g in s.done
  {
    hide RegisterBlock.Scattering, RegisterBlock.WorkLeft, AnyMayWork, RegisterBlock.AnyOwes, OwingThreads;
    while AnyMayWork(b, g0, s) || b.AnyOwes(s)
      invariant b.Scattering(s) && old(s.eqLog) <= s.eqLog && g0 !in s.done
      decreases b.WorkLeft(), OwingThreads(s.pend)
    {
      if {
        case AnyMayWork(b, g0, s) => WorkElsewhere(b, g0, s);
        case b.AnyOwes(s) => b.StoreTurn(s);
      }
    }
    NothingElse(b, g0, s);
  }

  lemma {:induction false} NothingElse(b: RegisterBlock, g0: nat, s: ScatterState)
    requires b.Scattering(s) && g0 < |b.row| && g0 !in s.done && !AnyMayWork(b, g0, s) && !b.AnyOwes(s)
    ensures s.Valid()
    ensures forall g :: g in Indices(b.row) && !(b.ThreadOrder().Together(g0, g) && g0 <= g) ==> g in s.done
  {
    forall g | g in Indices(b.row) && !(b.ThreadOrder().Together(g0, g) && g0 <= g)
      ensures g in s.done
    {
      PassedElsewhere(b, g0, s, g);
    }
  }

  lemma {:induction false} PassedElsewhere(b: RegisterBlock, g0: nat, s: ScatterState, g: nat)
    requires b.Scattering(s) && g0 < |b.row| && g0 !in s.done && !AnyMayWork(b, g0, s) && !b.AnyOwes(s)
    requires g in Indices(b.row) && !(b.ThreadOrder().Together(g0, g) && g0 <= g)
    ensures g in s.done
  {
    hide ScatterState.Valid, RegisterBlock.RegistersIn, RegisterBlock.BufferValid;
    var t := b.PlaceOf(g).lane;
    assert !MayWork(b, t, g0, s);
    TileBelow(g, b.end, b.threads, b.width, b.size);
    if InFront(b, t, g0) && b.cur[t].vec < b.end {
      b.IndexAt(t, b.cur[t].vec, b.cur[t].elem);
      Behind(b, t, g);
    }
    assert Passed(b.PlaceOf(g), b.cur);
  }

  /** Of its own elements a thread is past those that are lower than the one in front of it. */
  lemma {:induction false} Behind(b: RegisterBlock, t: nat, g: nat)
    requires b.CursorsValid() && t < b.threads && b.cur[t].vec < b.end && b.cur[t].elem < b.width
    requires b.PlaceOf(g).lane == t && g < b.IndexOf(t, b.cur[t])
    ensures Passed(b.PlaceOf(g), b.cur)
  {
    b.IndexAt(t, b.cur[t].vec, b.cur[t].elem);
    var p := b.PlaceOf(g);
    if p.tile > b.cur[t].vec {
      StartMonotone(b.cur[t].vec + 1, p.tile, b.size);
    }
  }
}
