/** The order in which ties can reach the buffer: every thread scatters its elements in the order of their indices, and
    nothing else is certain. */
module Arrival {
  import opened Sums
  import opened Rows
  import opened Tiling

  /** What one thread scatters in order: its `elems` elements of one tile, or those of all tiles. */
  datatype Order = Order(lanes: nat, elems: nat, size: nat, acrossTiles: bool)
  {
    ghost function At(g: nat): (p: Place)
      ensures Tiled(lanes, elems, size) ==> IsAt(g, p, lanes, elems, size)
    {
      if Tiled(lanes, elems, size) then Locate(g, lanes, elems, size) else Place(g, 0, 0)
    }

    /** One thread scatters both, whichever has the lower index first. */
    ghost predicate Together(a: nat, b: nat)
    {
      At(a).lane == At(b).lane && (acrossTiles || At(a).tile == At(b).tile)
    }
  }

  /** No element is logged before a lower one of its thread. */
  ghost predicate InOrder(log: seq<nat>, order: Order)
  {
    forall i, j :: 0 <= i < j < |log| && order.Together(log[i], log[j]) ==> log[i] < log[j]
  }

  /** The ties that arrive no earlier than `b` in any schedule: itself and those behind it on its thread. */
  ghost function FromOn(row: seq<Elem>, bin: nat, b: nat, order: Order): set<nat>
  {
    set h | h in InBin(row, bin) && order.Together(b, h) && b <= h
  }

  /** A set of ties that can be those that have arrived: with each of them the lower ones of its thread. */
  ghost predicate Closed(row: seq<Elem>, bin: nat, kept: set<nat>, order: Order)
  {
    forall g, h :: g in kept && h in InBin(row, bin) && order.Together(h, g) && h < g ==> h in kept
  }

  ghost function Logged(log: seq<nat>): set<nat>
  {
    set g | g in log
  }

  lemma {:induction false} OrderAppend(log: seq<nat>, g: nat, order: Order)
    requires InOrder(log, order) && forall i :: 0 <= i < |log| && order.Together(log[i], g) ==> log[i] < g
    ensures InOrder(log + [g], order)
  {
  }

  /** The ties logged first are such a set. */
  lemma {:induction false} FirstAreClosed(log: seq<nat>, row: seq<Elem>, bin: nat, n: nat, order: Order)
    requires Lists(log, InBin(row, bin)) && InOrder(log, order) && n <= |log|
    ensures Closed(row, bin, Logged(log[..n]), order)
  {
    forall g, h | g in Logged(log[..n]) && h in InBin(row, bin) && order.Together(h, g) && h < g
      ensures h in Logged(log[..n])
    {
      var p :| 0 <= p < n && log[p] == g;
      assert h in log;
      var q :| 0 <= q < |log| && log[q] == h;
      assert q < p || (p < q && order.Together(log[p], log[q]));
      assert log[..n][q] == h;
    }
  }

  /** A tie that fewer than `|kept|` others can precede is among those that arrived. */
  lemma {:induction false} AlwaysArrives(row: seq<Elem>, bin: nat, kept: set<nat>, b: nat, order: Order)
    requires Closed(row, bin, kept, order) && kept <= InBin(row, bin) && b in InBin(row, bin)
    requires |InBin(row, bin) - FromOn(row, bin, b, order)| < |kept|
    ensures b in kept
  {
    if b !in kept {
      forall g | g in kept
        ensures g in InBin(row, bin) - FromOn(row, bin, b, order)
      {
        assert !(order.Together(b, g) && b <= g);
      }
      SubsetCard(kept, InBin(row, bin) - FromOn(row, bin, b, order));
    }
  }
}
