/** bf16RegisterTopK: each thread keeps its part of the row in registers. Rows longer than one pass leave their second
    chunk in shared memory, from where the registers are reloaded while the first chunk is scattered. */
module Registers {
  import opened Sums
  import opened Tiling
  import opened Rows
  import opened Arrival
  import opened Histogram
  import opened Scatter
  import opened Block

  /** Where a thread stands: at an element, at the end of a vector, or behind its last one. */
  datatype Cursor = Cursor(vec: nat, elem: nat)

  function Past(c: Cursor): Cursor
  {
    Cursor(c.vec, c.elem + 1)
  }

  function Turned(c: Cursor): Cursor
  {
    Cursor(c.vec + 1, 0)
  }

  /** The thread that owns place `p` is past it. */
  ghost predicate Passed(p: Place, cur: seq<Cursor>)
  {
    && p.lane < |cur|
    && (p.tile < cur[p.lane].vec || (p.tile == cur[p.lane].vec && p.elem < cur[p.lane].elem))
  }

  lemma {:induction false} PassOne(p: Place, cur: seq<Cursor>, t: nat)
    requires t < |cur|
    ensures Passed(p, cur[t := Past(cur[t])]) <==> Passed(p, cur) || p == Place(cur[t].vec, t, cur[t].elem)
  {
  }

  lemma {:induction false} PassVector(p: Place, cur: seq<Cursor>, t: nat, width: nat)
    requires t < |cur| && cur[t].elem == width && p.elem < width
    ensures Passed(p, cur[t := Turned(cur[t])]) <==> Passed(p, cur)
  {
  }

  /** Leaving the loop passes everything that is left for the thread. */
  lemma {:induction false} PassRest(p: Place, cur: seq<Cursor>, t: nat, end: nat)
    requires t < |cur| && cur[t].vec < end && p.tile < end
    ensures Passed(p, cur[t := Cursor(end, 0)]) <==> Passed(p, cur) || p.lane == t
  {
  }

  /** A number that grows with every step of a thread: vectors of `width + 1` stops. */
  ghost function Reached(c: Cursor, width: nat): nat
  {
    Start(c.vec, width + 1) + c.elem
  }

  ghost function Progressed(cur: seq<Cursor>, width: nat): (s: seq<nat>)
    ensures |s| == |cur|
    ensures forall t :: 0 <= t < |cur| ==> s[t] == Reached(cur[t], width)
  {
    seq(|cur|, t requires 0 <= t < |cur| => Reached(cur[t], width))
  }

  lemma {:induction false} ProgressDrops(cur: seq<Cursor>, t: nat, c: Cursor, width: nat, target: nat)
    requires t < |cur| && Reached(cur[t], width) < Reached(c, width) <= target
    ensures Deficit(Progressed(cur[t := c], width), target) < Deficit(Progressed(cur, width), target)
  {
    assert Progressed(cur[t := c], width) == Progressed(cur, width)[t := Reached(c, width)];
    DeficitDrops(Progressed(cur, width), t, Reached(c, width), target);
  }

  class RegisterBlock {
    const row: seq<Elem>
    const length: nat
    const threads: nat
    const vecs: nat                     // vectors per thread
    const width: nat                    // elements per vector
    const size: nat                     // elements of one vector of all threads
    const maxLen: nat                   // length of one pass
    const twoPass: bool
    const end: nat                      // vectors per thread over all passes
    const local: array3<Elem>           // per thread, vector and element: the registers
    const scoreBuffer: array<Elem>      // second chunk
    var cur: seq<Cursor>                // per thread: where it stands in the scatter

    ghost predicate Shape()
    {
      && Tiled(threads, width, size) && vecs > 0 && maxLen == Start(vecs, size)
      && length == |row| && length <= Start(end, size)
      && (if twoPass then maxLen < length && end == vecs + vecs else end == vecs)
      && local.Length0 == threads && local.Length1 == vecs && local.Length2 == width
      && scoreBuffer.Length == maxLen
    }

    ghost function PlaceOf(g: nat): (p: Place)
      requires Shape()
      ensures IsAt(g, p, threads, width, size)
    {
      Locate(g, threads, width, size)
    }

    /** Register `(v, e)` of thread `t` holds the element of vector `u`, when the row has one there. */
    ghost predicate Holds(t: nat, v: nat, e: nat, u: nat)
      requires Shape() && t < threads && v < vecs && e < width
      reads local
    {
      Start(u, size) + Start(t, width) + e < length ==> local[t, v, e] == row[Start(u, size) + Start(t, width) + e]
    }

    /** The vector that a thread at vector `at` finds in its registers at `v`: the reloaded one once it is past the
        first. */
    ghost function Current(at: nat, v: nat): nat
    {
      if twoPass && v < at then v + vecs else v
    }

    ghost predicate RegistersIn(c: seq<Cursor>)
      requires Shape() && |c| == threads
      reads local
    {
      forall t, v,
        e :: 0 <= t < threads && 0 <= v < vecs && 0 <= e < width && c[t].vec < end ==>
          Holds(t, v, e, Current(c[t].vec, v))
    }

    /** Registers only matter for the vector their thread is at. */
    lemma {:induction false} RegistersKept(c: seq<Cursor>, t: nat, next: Cursor)
      requires Shape() && |c| == threads && RegistersIn(c) && t < threads
      requires next.vec == c[t].vec || next.vec == end
      ensures RegistersIn(c[t := next])
    {
    }

    ghost predicate BufferValid()
      requires Shape()
      reads scoreBuffer
    {
      twoPass ==> forall i :: 0 <= i < scoreBuffer.Length && maxLen + i < length ==> scoreBuffer[i] == row[maxLen + i]
    }

    /** Every thread stands at an element, at the end of a vector, or behind its last vector. */
    ghost predicate CursorsIn(cur: seq<Cursor>)
    {
      && |cur| == threads
      && forall t :: 0 <= t < threads ==>
         cur[t].vec <= end && cur[t].elem <= width && (cur[t].vec == end ==> cur[t].elem == 0)
    }

    ghost predicate CursorsValid()
      reads this`cur
    {
      Shape() && CursorsIn(cur)
    }

    ghost predicate Valid()
      reads this, local, scoreBuffer
    {
      CursorsValid() && RegistersIn(cur) && BufferValid()
    }

    constructor (row: seq<Elem>, threads: nat, vecs: nat, width: nat, scoreBuffer: array<Elem>)
      requires threads > 0 && vecs > 0 && width > 0
      requires |row| <= Start(vecs + vecs, Start(threads, width))
               && scoreBuffer.Length == Start(vecs, Start(threads, width))
      ensures CursorsValid() && fresh(local)
      ensures this.row == row && this.threads == threads && this.vecs == vecs && this.width == width
      ensures forall t :: 0 <= t < threads ==> cur[t].vec == 0 && cur[t].elem == 0
      ensures this.scoreBuffer == scoreBuffer
    {
      this.row, this.threads, this.vecs, this.width, this.scoreBuffer := row, threads, vecs, width, scoreBuffer;
      length := |row|;
      SizePositive(threads, width);
      size := Start(threads, width);
      maxLen := Start(vecs, Start(threads, width));
      twoPass := |row| > Start(vecs, Start(threads, width));
      end := if |row| > Start(vecs, Start(threads, width)) then vecs + vecs else vecs;
      local := new Elem[threads, vecs, width];
      cur := seq(threads, _ => Cursor(0, 0));
    }

    /** Index of element `e` of vector `u` of thread `t`. */
    function Index(t: nat, u: nat, e: nat): nat
    {
      Start(u, size) + Start(t, width) + e
    }

    lemma {:induction false} IndexAt(t: nat, u: nat, e: nat)
      requires Shape() && t < threads && e < width
      ensures PlaceOf(Index(t, u, e)) == Place(u, t, e)
      ensures Start(t, width) + e < size
      ensures u < vecs ==> Index(t, u, e) < maxLen
      ensures u >= end ==> Index(t, u, e) >= length
    {
      Span(t, e, threads, width, size);
      OnePlace(Index(t, u, e), Place(u, t, e), PlaceOf(Index(t, u, e)), threads, width, size);
      if u < vecs {
        StartMonotone(u + 1, vecs, size);
      }
      if u >= end {
        StartMonotone(end, u, size);
      }
    }

    function IndexOf(t: nat, c: Cursor): nat
    {
      Index(t, c.vec, c.elem)
    }

    /** A step past an element passes that element and no other. */
    lemma {:induction false} StepPasses(c: seq<Cursor>, t: nat)
      requires Shape() && |c| == threads && t < threads && c[t].elem < width
      ensures forall g :: g in Indices(row) ==>
                (Passed(PlaceOf(g), c[t := Past(c[t])]) <==> Passed(PlaceOf(g), c) || g == IndexOf(t, c[t]))
      ensures !Passed(PlaceOf(IndexOf(t, c[t])), c)
    {
      IndexAt(t, c[t].vec, c[t].elem);
      forall g | g in Indices(row)
        ensures Passed(PlaceOf(g), c[t := Past(c[t])]) <==> Passed(PlaceOf(g), c) || g == IndexOf(t, c[t])
      {
        PassOne(PlaceOf(g), c, t);
      }
    }

    /** Turning to the next vector passes nothing. */
    lemma {:induction false} TurnPasses(c: seq<Cursor>, t: nat)
      requires Shape() && |c| == threads && t < threads && c[t].elem == width
      ensures forall g :: g in Indices(row) ==> (Passed(PlaceOf(g), c[t := Turned(c[t])]) <==> Passed(PlaceOf(g), c))
    {
      forall g | g in Indices(row)
        ensures Passed(PlaceOf(g), c[t := Turned(c[t])]) <==> Passed(PlaceOf(g), c)
      {
        PassVector(PlaceOf(g), c, t, width);
      }
    }

    /** Nor does leaving the loop at an index beyond the row: the thread has no element of the row left. */
    lemma {:induction false} RestPasses(c: seq<Cursor>, t: nat)
      requires Shape() && |c| == threads && t < threads && c[t].vec < end && c[t].elem < width
               && IndexOf(t, c[t]) >= length
      ensures forall g :: g in Indices(row) ==> (Passed(PlaceOf(g), c[t := Cursor(end, 0)]) <==> Passed(PlaceOf(g), c))
    {
      forall g | g in Indices(row)
        ensures Passed(PlaceOf(g), c[t := Cursor(end, 0)]) <==> Passed(PlaceOf(g), c)
      {
        TileBelow(g, end, threads, width, size);
        PassRest(PlaceOf(g), c, t, end);
        if PlaceOf(g).lane == t {
          NothingBeyond(c, t, g);
        }
      }
    }

    lemma {:induction false} NothingBeyond(c: seq<Cursor>, t: nat, g: nat)
      requires Shape() && |c| == threads && t < threads && c[t].elem < width
      requires IndexOf(t, c[t]) >= length > g && PlaceOf(g).lane == t
      ensures Passed(PlaceOf(g), c)
    {
      var p := PlaceOf(g);
      if p.tile > c[t].vec {
        StartMonotone(c[t].vec + 1, p.tile, size);
        Span(t, c[t].elem, threads, width, size);
      }
    }

    // ------------------------------------------------------------ loading

    /** Thread `t` loads vector `v`, zeros beyond the row. */
    method LoadVector(t: nat, v: nat)
      requires Shape() && t < threads && v < vecs
      modifies local
      ensures forall e :: 0 <= e < width ==> Holds(t, v, e, v)
      ensures forall i, j,
                k :: 0 <= i < threads && 0 <= j < vecs && 0 <= k < width && (i, j) != (t, v) ==>
                  local[i, j, k] == old(local[i, j, k])
    {
      for e := 0 to width
        invariant forall k :: 0 <= k < e ==> Holds(t, v, k, v)
        invariant forall i, j,
                    k :: 0 <= i < threads && 0 <= j < vecs && 0 <= k < width && (i, j) != (t, v) ==>
                      local[i, j, k] == old(local[i, j, k])
      {
        var idx := Index(t, v, e);
        label before:
        local[t, v, e] := if idx < length then row[idx] else Elem(0, 0);
        forall k | 0 <= k < e
          ensures Holds(t, v, k, v)
        {
          assert old@before(Holds(t, v, k, v));
        }
      }
    }

    /** Thread `t` loads its registers; it stops at the first vector that starts beyond the row. */
    method LoadThread(t: nat)
      requires Shape() && t < threads
      modifies local
      ensures forall v, e :: 0 <= v < vecs && 0 <= e < width ==> Holds(t, v, e, v)
      ensures forall i, j,
                k :: 0 <= i < threads && 0 <= j < vecs && 0 <= k < width && i != t ==>
                  local[i, j, k] == old(local[i, j, k])
    {
      var v := 0;
      while v < vecs
        invariant 0 <= v <= vecs
        invariant forall u, e :: 0 <= u < v && 0 <= e < width ==> Holds(t, u, e, u)
        invariant forall i, j,
                    k :: 0 <= i < threads && 0 <= j < vecs && 0 <= k < width && i != t ==>
                      local[i, j, k] == old(local[i, j, k])
      {
        if Index(t, v, 0) >= length {
          forall u, e | v <= u < vecs && 0 <= e < width
            ensures Holds(t, u, e, u)
          {
            StartMonotone(v, u, size);
          }
          return;
        }
        label before:
        LoadVector(t, v);
        forall u, e | 0 <= u < v && 0 <= e < width
          ensures Holds(t, u, e, u)
        {
          assert old@before(Holds(t, u, e, u));
        }
        v := v + 1;
      }
    }

    /** All loads: registers, and the second chunk into shared memory. */
    method Load()
      requires CursorsValid() && forall t :: 0 <= t < threads ==> cur[t].vec == 0
      modifies local, scoreBuffer
      ensures Valid()
    {
      var todo: set<nat> := Upto(threads);
      while todo != {}
        invariant forall t :: t in todo ==> t < threads
        invariant forall t, v,
                    e :: 0 <= t < threads && t !in todo && 0 <= v < vecs && 0 <= e < width ==> Holds(t, v, e, v)
      {
        var t :| t in todo;
        label before:
        LoadThread(t);
        forall i, v, e | 0 <= i < threads && i !in todo && 0 <= v < vecs && 0 <= e < width
          ensures Holds(i, v, e, v)
        {
          assert old@before(Holds(i, v, e, v));
        }
        todo := todo - {t};
      }
      if twoPass {
        StartAdd(vecs, vecs, size);
        StridedStore(scoreBuffer, row[maxLen..], threads);
        forall i | 0 <= i < scoreBuffer.Length && maxLen + i < length
          ensures scoreBuffer[i] == row[maxLen + i]
        {
          assert scoreBuffer[i] == scoreBuffer[..length - maxLen][i];
        }
      }
    }

    // ------------------------------------------------------------ histogram

    /** Index `g` has been counted, from a register or from shared memory. */
    ghost predicate Added(g: nat, ac: seq<Cursor>, nxt: seq<nat>)
      requires Shape() && |nxt| == threads
    {
      if g < maxLen then Passed(PlaceOf(g), ac) else g - maxLen < nxt[Ring(g - maxLen, threads)]
    }

    ghost predicate Accumulated(ac: seq<Cursor>, nxt: seq<nat>, done: set<nat>)
      requires Shape()
    {
      && |ac| == |nxt| == threads && done <= Indices(row)
      && (forall t :: 0 <= t < threads ==> ac[t].vec <= vecs && ac[t].elem <= width && Ring(nxt[t], threads) == t)
      && (forall g :: g in Indices(row) ==> (g in done <==> Added(g, ac, nxt)))
    }

    lemma {:induction false} NothingAdded(ac: seq<Cursor>, nxt: seq<nat>)
      requires Shape() && |ac| == |nxt| == threads
      requires forall t :: 0 <= t < threads ==> ac[t].vec == ac[t].elem == 0 && nxt[t] == t
      ensures Accumulated(ac, nxt, {})
    {
      forall g: nat
        ensures Ring(g, threads) <= g
      {
        RingIsMod(g, threads);
        var q, r := Split(g, threads);
      }
    }

    lemma {:induction false} AddRegister(ac: seq<Cursor>, nxt: seq<nat>, done: set<nat>, t: nat)
      requires Shape() && Accumulated(ac, nxt, done)
      requires t < threads && ac[t].vec < vecs && ac[t].elem < width && IndexOf(t, ac[t]) < length
      ensures IndexOf(t, ac[t]) !in done
      ensures Accumulated(ac[t := Past(ac[t])], nxt, done + {IndexOf(t, ac[t])})
    {
      IndexAt(t, ac[t].vec, ac[t].elem);
      StepPasses(ac, t);
    }

    lemma {:induction false} TurnRegister(ac: seq<Cursor>, nxt: seq<nat>, done: set<nat>, t: nat)
      requires Shape() && Accumulated(ac, nxt, done)
      requires t < threads && ac[t].vec < vecs && ac[t].elem == width
      ensures Accumulated(ac[t := Turned(ac[t])], nxt, done)
    {
      TurnPasses(ac, t);
    }

    lemma {:induction false} StopRegister(ac: seq<Cursor>, nxt: seq<nat>, done: set<nat>, t: nat)
      requires Shape() && Accumulated(ac, nxt, done) && !twoPass
      requires t < threads && ac[t].vec < vecs && ac[t].elem < width && IndexOf(t, ac[t]) >= length
      ensures Accumulated(ac[t := Cursor(vecs, 0)], nxt, done)
    {
      RestPasses(ac, t);
    }

    lemma {:induction false} AddBuffered(ac: seq<Cursor>, nxt: seq<nat>, done: set<nat>, t: nat)
      requires Shape() && Accumulated(ac, nxt, done)
      requires t < threads && maxLen + nxt[t] < length
      ensures maxLen + nxt[t] !in done
      ensures Accumulated(ac, nxt[t := nxt[t] + threads], done + {maxLen + nxt[t]})
    {
      NoneBetween(nxt[t], threads);
      var g0, nxt' := maxLen + nxt[t], nxt[t := nxt[t] + threads];
      forall g: nat
        ensures Added(g, ac, nxt') <==> Added(g, ac, nxt) || g == g0
      {
        AddedOne(g, ac, nxt, t);
      }
      AddedOne(g0, ac, nxt, t);
      hide Added, Passed, PlaceOf;
    }

    lemma {:induction false} AddedOne(g: nat, ac: seq<Cursor>, nxt: seq<nat>, t: nat)
      requires Shape() && |nxt| == threads && t < threads && Ring(nxt[t], threads) == t
      ensures Added(g, ac, nxt[t := nxt[t] + threads]) <==> Added(g, ac, nxt) || g == maxLen + nxt[t]
      ensures !Added(maxLen + nxt[t], ac, nxt)
    {
      NoneBetween(nxt[t], threads);
      hide Ring, Passed, PlaceOf;
    }

    lemma {:induction false} AllAdded(ac: seq<Cursor>, nxt: seq<nat>, done: set<nat>)
      requires Shape() && Accumulated(ac, nxt, done)
      requires forall t :: 0 <= t < threads ==> ac[t].vec == vecs && (twoPass ==> maxLen + nxt[t] >= length)
      ensures done == Indices(row)
    {
      forall g | g in Indices(row)
        ensures g in done
      {
        if g < maxLen {
          TileBelow(g, vecs, threads, width, size);
        } else {
          assert maxLen + nxt[Ring(g - maxLen, threads)] >= length;
        }
      }
    }

    /** Thread `t` adds its next register to the histogram, turns to its next vector, or leaves the loop. */
    method AddTurn(t: nat, histogram: array<nat>, ac: seq<Cursor>, ghost nxt: seq<nat>, ghost done: set<nat>)
        returns (c: Cursor, ghost done': set<nat>)
      requires Valid() && (forall t :: 0 <= t < threads ==> cur[t].vec == 0) && ValidRow(row, histogram.Length)
      requires Accumulating(histogram, ac, nxt, done)
      requires t < threads && ac[t].vec < vecs
      modifies histogram
      ensures Accumulating(histogram, ac[t := c], nxt, done')
      ensures Reached(ac[t], width) < Reached(c, width) <= Start(vecs, width + 1)
    {
      hide Counts, Accumulated;
      AccumulatedSizes(ac, nxt, done, t);
      var v, e := ac[t].vec, ac[t].elem;
      done' := done;
      StartMonotone(v + 1, vecs, width + 1);
      if e == width {
        TurnRegister(ac, nxt, done, t);
        c := Turned(ac[t]);
      } else {
        var idx := Index(t, v, e);
        IndexAt(t, v, e);
        if !twoPass && idx >= length {
          StopRegister(ac, nxt, done, t);
          c := Cursor(vecs, 0);
        } else {
          assert Holds(t, v, e, Current(cur[t].vec, v));
          AddRegister(ac, nxt, done, t);
          CountOne(histogram[..], row, done, idx);
          var bin := local[t, v, e].bin;
          histogram[bin] := histogram[bin] + 1;
          c, done' := Past(ac[t]), done + {idx};
        }
      }
    }

    lemma {:induction false} AccumulatedSizes(ac: seq<Cursor>, nxt: seq<nat>, done: set<nat>, t: nat)
      requires Shape() && Accumulated(ac, nxt, done) && t < threads
      ensures |ac| == |nxt| == threads && ac[t].vec <= vecs && ac[t].elem <= width
    {
    }

    /** Thread `t` adds its next element of the second chunk. */
    method AddExtra(t: nat, histogram: array<nat>, ghost ac: seq<Cursor>, nxt: seq<nat>, ghost done: set<nat>)
        returns (ghost done': set<nat>)
      requires Valid() && twoPass && ValidRow(row, histogram.Length)
      requires Accumulating(histogram, ac, nxt, done)
      requires t < threads && maxLen + nxt[t] < length
      modifies histogram
      ensures Accumulating(histogram, ac, nxt[t := nxt[t] + threads], done')
    {
      AccumulatedSizes(ac, nxt, done, t);
      BufferedAt(nxt[t]);
      hide Counts, Accumulated, Valid, Shape;
      AddBuffered(ac, nxt, done, t);
      CountOne(histogram[..], row, done, maxLen + nxt[t]);
      var bin := scoreBuffer[nxt[t]].bin;
      histogram[bin] := histogram[bin] + 1;
      done' := done + {maxLen + nxt[t]};
    }

    /** Where shared memory holds the second chunk. */
    lemma {:induction false} BufferedAt(i: nat)
      requires Valid() && twoPass && maxLen + i < length
      ensures Shape() && i < scoreBuffer.Length && scoreBuffer[i] == row[maxLen + i] && length == |row|
    {
      StartAdd(vecs, vecs, size);
    }

    ghost predicate Accumulating(histogram: array<nat>, ac: seq<Cursor>, nxt: seq<nat>, done: set<nat>)
      requires Shape()
      reads histogram
    {
      Accumulated(ac, nxt, done) && Counts(histogram[..], row, done)
    }

    /** A register turn of some thread. */
    method SomeRegister(histogram: array<nat>, ac: seq<Cursor>, ghost nxt: seq<nat>, ghost done: set<nat>)
        returns (ac': seq<Cursor>, ghost done': set<nat>)
      requires Valid() && (forall t :: 0 <= t < threads ==> cur[t].vec == 0) && ValidRow(row, histogram.Length)
      requires Accumulating(histogram, ac, nxt, done) && AnyRegister(ac)
      modifies histogram
      ensures Accumulating(histogram, ac', nxt, done')
      ensures Deficit(Progressed(ac', width), Start(vecs, width + 1)) < Deficit(Progressed(ac, width),
                Start(vecs, width + 1))
    {
      var t :| 0 <= t < threads && t < |ac| && ac[t].vec < vecs;
      AccumulatedSizes(ac, nxt, done, t);
      hide Accumulating, Valid, ValidRow, Deficit;
      var c;
      c, done' := AddTurn(t, histogram, ac, nxt, done);
      ProgressDrops(ac, t, c, width, Start(vecs, width + 1));
      ac' := ac[t := c];
    }

    /** A second-chunk turn of some thread that is through with its registers. */
    method SomeExtra(histogram: array<nat>, ac: seq<Cursor>, nxt: seq<nat>, ghost done: set<nat>)
        returns (nxt': seq<nat>, ghost done': set<nat>)
      requires Valid() && ValidRow(row, histogram.Length)
      requires Accumulating(histogram, ac, nxt, done) && AnyExtra(ac, nxt)
      modifies histogram
      ensures Accumulating(histogram, ac, nxt', done')
              && Deficit(nxt', length + threads) < Deficit(nxt, length + threads)
    {
      var t :| 0 <= t < threads && MayAddExtra(t, ac, nxt);
      ExtraDrops(ac, nxt, t);
      hide Accumulating, Valid, ValidRow, Deficit, Shape, AnyExtra;
      done' := AddExtra(t, histogram, ac, nxt, done);
      nxt' := nxt[t := nxt[t] + threads];
    }

    lemma {:induction false} ExtraDrops(ac: seq<Cursor>, nxt: seq<nat>, t: nat)
      requires t < threads && MayAddExtra(t, ac, nxt)
      ensures Deficit(nxt[t := nxt[t] + threads], length + threads) < Deficit(nxt, length + threads)
    {
      DeficitDrops(nxt, t, nxt[t] + threads, length + threads);
    }

    /** The histogram phase, threads in any order. */
    method Accumulate(histogram: array<nat>)
      requires Valid() && (forall t :: 0 <= t < threads ==> cur[t].vec == 0) && ValidRow(row, histogram.Length)
      requires forall b :: 0 <= b < histogram.Length ==> histogram[b] == 0
      modifies histogram
      ensures Counts(histogram[..], row, Indices(row))
    {
      var ac: seq<Cursor> := seq(threads, _ => Cursor(0, 0));
      var nxt: seq<nat> := seq(threads, t requires 0 <= t => t);
      ghost var done: set<nat> := {};
      NothingAdded(ac, nxt);
      CountsEmpty(histogram[..], row);
      hide Counts, Accumulated, Valid, ValidRow, Deficit, Progressed, AnyRegister, AnyExtra;
      while AnyRegister(ac) || AnyExtra(ac, nxt)
        invariant Accumulating(histogram, ac, nxt, done)
        decreases Deficit(Progressed(ac, width), Start(vecs, width + 1)), Deficit(nxt, length + threads)
      {
        if {
          case AnyRegister(ac) =>
            ac, done := SomeRegister(histogram, ac, nxt, done);
          case AnyExtra(ac, nxt) =>
            nxt, done := SomeExtra(histogram, ac, nxt, done);
        }
      }
      NoneLeft(ac, nxt, done);
    }

    lemma {:induction false} NoneLeft(ac: seq<Cursor>, nxt: seq<nat>, done: set<nat>)
      requires Shape() && Accumulated(ac, nxt, done) && !AnyRegister(ac) && !AnyExtra(ac, nxt)
      ensures done == Indices(row)
    {
      forall t | 0 <= t < threads
        ensures ac[t].vec == vecs && (twoPass ==> maxLen + nxt[t] >= length)
      {
        assert !MayAddExtra(t, ac, nxt);
      }
      AllAdded(ac, nxt, done);
    }

    predicate AnyRegister(ac: seq<Cursor>)
    {
      exists t :: 0 <= t < threads && t < |ac| && ac[t].vec < vecs
    }

    predicate AnyExtra(ac: seq<Cursor>, nxt: seq<nat>)
    {
      exists t :: 0 <= t < threads && MayAddExtra(t, ac, nxt)
    }

    predicate MayAddExtra(t: nat, ac: seq<Cursor>, nxt: seq<nat>)
    {
      twoPass && t < |ac| && t < |nxt| && ac[t].vec == vecs && maxLen + nxt[t] < length
    }

    // ------------------------------------------------------------ scatter

    /** Exactly the elements that their threads are past have been scattered. */
    ghost predicate DoneValid(done: set<nat>, cur: seq<Cursor>)
      requires Shape()
    {
      forall g :: g in Indices(row) ==> (g in done <==> Passed(PlaceOf(g), cur))
    }

    ghost predicate Scattering(scatter: ScatterState)
      reads this, local, scoreBuffer, scatter, scatter.sTopK, scatter.tieBuffer
    {
      && Valid() && scatter.Valid() && scatter.row == row && |scatter.pend| == threads
      && DoneValid(scatter.done, cur) && InOrder(scatter.eqLog, ThreadOrder())
    }

    /** A thread scatters the elements of all its vectors in order. */
    ghost function ThreadOrder(): Order
    {
      Order(threads, width, size, true)
    }

    lemma {:induction false} ClaimedInOrder(t: nat, scatter: ScatterState, idx: nat)
      requires Scattering(scatter) && t < threads && cur[t].vec < end && cur[t].elem < width
               && idx == IndexOf(t, cur[t])
      ensures InOrder(scatter.eqLog + [idx], ThreadOrder())
    {
      scatter.TiesLogged();
      hide ScatterState.Valid, InOrder;
      forall i | 0 <= i < |scatter.eqLog| && ThreadOrder().Together(scatter.eqLog[i], idx)
        ensures scatter.eqLog[i] < idx
      {
        PassedIsLower(t, scatter.eqLog[i]);
      }
      OrderAppend(scatter.eqLog, idx, ThreadOrder());
    }

    /** What a thread is past lies before what it looks at. */
    lemma {:induction false} PassedIsLower(t: nat, g: nat)
      requires CursorsValid() && t < threads && cur[t].vec < end && cur[t].elem < width
      requires Passed(PlaceOf(g), cur) && PlaceOf(g).lane == PlaceOf(IndexOf(t, cur[t])).lane
      ensures g < IndexOf(t, cur[t])
    {
      IndexAt(t, cur[t].vec, cur[t].elem);
      var p := PlaceOf(g);
      if p.tile < cur[t].vec {
        StartMonotone(p.tile + 1, cur[t].vec, size);
        Span(t, p.elem, threads, width, size);
      }
    }

    /** The work that is left in the scatter; it decreases with every step but a store. */
    ghost function WorkLeft(): nat
      reads this`cur
    {
      Deficit(Progressed(cur, width), Start(end, width + 1))
    }

    /** Moving the cursor of thread `t` on leaves less work. */
    lemma {:induction false} LessWork(t: nat, c: Cursor)
      requires CursorsValid() && t < threads && cur[t].vec <= c.vec <= end && c.elem <= width
               && (c.vec == end ==> c.elem == 0)
      requires cur[t].vec == c.vec ==> cur[t].elem < c.elem
      ensures CursorsIn(cur[t := c])
      ensures Deficit(Progressed(cur[t := c], width), Start(end, width + 1)) < WorkLeft()
    {
      if c.vec < end {
        StartMonotone(c.vec + 1, end, width + 1);
      }
      if cur[t].vec < c.vec {
        StartMonotone(cur[t].vec + 1, c.vec, width + 1);
      }
      ProgressDrops(cur, t, c, width, Start(end, width + 1));
    }

    lemma {:induction false} SizesOf(t: nat)
      requires CursorsValid() && t < threads
      ensures |cur| == threads && cur[t].vec <= end && cur[t].elem <= width
    {
    }

    /** Thread `t` looks at its next element, or leaves the loop at the end of the row. */
    method ScatterElement(t: nat, scatter: ScatterState)
      requires Scattering(scatter) && t < threads && cur[t].vec < end && cur[t].elem < width && scatter.pend[t] == Idle
      modifies this`cur, scatter
      ensures Scattering(scatter) && WorkLeft() < old(WorkLeft()) && old(scatter.eqLog) <= scatter.eqLog
      ensures scatter.done <= old(scatter.done) + {old(IndexOf(t, cur[t]))}
    {
      var idx := IndexOf(t, cur[t]);
      if (!twoPass || cur[t].vec >= vecs) && idx >= length {
        LeaveLoop(t, scatter, idx);
      } else {
        IndexAt(t, cur[t].vec, cur[t].elem);
        ScatterOne(t, scatter, idx);
      }
    }

    method LeaveLoop(t: nat, scatter: ScatterState, idx: nat)
      requires Scattering(scatter) && t < threads && cur[t].vec < end && cur[t].elem < width && scatter.pend[t] == Idle
      requires idx == IndexOf(t, cur[t]) >= length
      modifies this`cur
      ensures Scattering(scatter) && WorkLeft() < old(WorkLeft())
    {
      hide ScatterState.Valid, InOrder;
      hide Deficit, Progressed;
      RestPasses(cur, t);
      LessWork(t, Cursor(end, 0));
      RegistersKept(cur, t, Cursor(end, 0));
      hide RegistersIn;
      cur := cur[t := Cursor(end, 0)];
    }

    /** The register that holds the next element of thread `t`. */
    method NextRegister(t: nat, idx: nat) returns (x: Elem)
      requires Valid() && t < threads && cur[t].vec < end && cur[t].elem < width && idx == IndexOf(t, cur[t]) < length
      ensures x == row[idx]
    {
      var v := if cur[t].vec < vecs then cur[t].vec else cur[t].vec - vecs;
      assert Holds(t, v, cur[t].elem, Current(cur[t].vec, v));
      x := local[t, v, cur[t].elem];
    }

    /** What the step of thread `t` past its element does to the cursors and to the elements behind them. */
    lemma {:induction false} OneStep(t: nat, done: set<nat>, idx: nat)
      requires CursorsValid() && RegistersIn(cur) && DoneValid(done, cur)
      requires t < threads && cur[t].vec < end && cur[t].elem < width && idx == IndexOf(t, cur[t]) < length
      ensures idx !in done && DoneValid(done + {idx}, cur[t := Past(cur[t])])
      ensures CursorsIn(cur[t := Past(cur[t])]) && RegistersIn(cur[t := Past(cur[t])])
      ensures Deficit(Progressed(cur[t := Past(cur[t])], width), Start(end, width + 1)) < WorkLeft()
    {
      StepPasses(cur, t);
      LessWork(t, Past(cur[t]));
      RegistersKept(cur, t, Past(cur[t]));
    }

    method ScatterOne(t: nat, scatter: ScatterState, idx: nat)
      requires Scattering(scatter) && t < threads && cur[t].vec < end && cur[t].elem < width && scatter.pend[t] == Idle
      requires idx == IndexOf(t, cur[t]) < length
      modifies this`cur, scatter
      ensures Scattering(scatter) && WorkLeft() < old(WorkLeft()) && old(scatter.eqLog) <= scatter.eqLog
      ensures scatter.done == old(scatter.done) + {idx}
    {
      OneStep(t, scatter.done, idx);
      ClaimedInOrder(t, scatter, idx);
      var x := NextRegister(t, idx);
      hide ScatterState.Valid, InOrder;
      hide CursorsIn, DoneValid, RegistersIn, Deficit, Progressed, BufferValid, Index, Shape, Past;
      scatter.Claim(t, idx, x);
      cur := cur[t := Past(cur[t])];
      assert Valid();
      assert DoneValid(scatter.done, cur);
    }

    /** `local[v].load(scoreBuffer, tx + v * blockDim)`. */
    method Reload(t: nat, v: nat, u: nat)
      requires Shape() && BufferValid() && twoPass && t < threads && v < vecs && u == v + vecs
      modifies local
      ensures forall e :: 0 <= e < width ==> Holds(t, v, e, u)
      ensures forall i, j,
                k :: 0 <= i < threads && 0 <= j < vecs && 0 <= k < width && (i, j) != (t, v) ==>
                  local[i, j, k] == old(local[i, j, k])
    {
      StartAdd(v, vecs, size);
      for e := 0 to width
        invariant forall k :: 0 <= k < e ==> Holds(t, v, k, u)
        invariant forall i, j,
                    k :: 0 <= i < threads && 0 <= j < vecs && 0 <= k < width && (i, j) != (t, v) ==>
                      local[i, j, k] == old(local[i, j, k])
      {
        IndexAt(t, v, e);
        label before:
        local[t, v, e] := scoreBuffer[Index(t, v, e)];
        forall k | 0 <= k < e
          ensures Holds(t, v, k, u)
        {
          assert old@before(Holds(t, v, k, u));
        }
      }
    }

    /** What turning does to the registers: in the first chunk of two the thread reloads those it is through with. */
    method TurnRegisters(t: nat)
      requires CursorsValid() && RegistersIn(cur) && BufferValid() && t < threads && cur[t].vec < end
      modifies local
      ensures RegistersIn(cur[t := Turned(cur[t])])
    {
      var v := cur[t].vec;
      if twoPass && v < vecs {
        Reload(t, v, v + vecs);
      }
      ghost var c := cur[t := Turned(cur[t])];
      forall i, j, k | 0 <= i < threads && 0 <= j < vecs && 0 <= k < width && c[i].vec < end
        ensures Holds(i, j, k, Current(c[i].vec, j))
      {
        assert old(Holds(i, j, k, Current(cur[i].vec, j)));
        if twoPass && i == t && j == v {
          assert Holds(t, v, k, v + vecs);
        } else {
          assert Current(c[i].vec, j) == Current(cur[i].vec, j) && local[i, j, k] == old(local[i, j, k]);
        }
      }
    }

    /** Thread `t` turns to its next vector. */
    method TurnVector(t: nat, scatter: ScatterState)
      requires Scattering(scatter) && t < threads && cur[t].vec < end && cur[t].elem == width && scatter.pend[t] == Idle
      modifies this`cur, local
      ensures Scattering(scatter) && WorkLeft() < old(WorkLeft())
    {
      TurnPasses(cur, t);
      LessWork(t, Turned(cur[t]));
      hide ScatterState.Valid, InOrder;
      hide Deficit, Progressed, CursorsIn, RegistersIn, BufferValid, Passed;
      TurnRegisters(t);
      cur := cur[t := Turned(cur[t])];
    }

    predicate ThreadWorks(t: nat, scatter: ScatterState)
      reads this`cur, scatter`pend
    {
      t < |cur| && t < |scatter.pend| && cur[t].vec < end && scatter.pend[t] == Idle
    }

    predicate AnyThreadWorks(scatter: ScatterState)
      reads this`cur, scatter`pend
    {
      exists t :: 0 <= t < threads && ThreadWorks(t, scatter)
    }

    predicate AnyOwes(scatter: ScatterState)
      reads scatter`pend
    {
      exists t :: 0 <= t < |scatter.pend| && scatter.pend[t] != Idle
    }

    method WorkTurn(scatter: ScatterState)
      requires Scattering(scatter) && AnyThreadWorks(scatter)
      modifies this`cur, local, scatter
      ensures Scattering(scatter) && WorkLeft() < old(WorkLeft()) && old(scatter.eqLog) <= scatter.eqLog
    {
      var t :| 0 <= t < threads && ThreadWorks(t, scatter);
      WorkBy(t, scatter);
    }

    /** Thread `t` takes its next step. */
    method WorkBy(t: nat, scatter: ScatterState)
      requires Scattering(scatter) && t < threads && ThreadWorks(t, scatter)
      modifies this`cur, local, scatter
      ensures Scattering(scatter) && WorkLeft() < old(WorkLeft()) && old(scatter.eqLog) <= scatter.eqLog
      ensures scatter.done <= old(scatter.done) + if old(cur)[t].elem < width then {old(IndexOf(t, cur[t]))} else {}
    {
      SizesOf(t);
      hide Valid, DoneValid, Deficit, Progressed, WorkLeft;
      if cur[t].elem < width {
        ScatterElement(t, scatter);
      } else {
        TurnVector(t, scatter);
      }
    }

    method StoreStep(t: nat, scatter: ScatterState)
      requires Scattering(scatter) && t < |scatter.pend| && scatter.pend[t] != Idle
      modifies scatter`pend, scatter`gtOwner, scatter`eqOwner, scatter.sTopK, scatter.tieBuffer
      ensures Scattering(scatter) && scatter.pend == old(scatter.pend)[t := Idle]
    {
      scatter.Store(t);
    }

    method StoreTurn(scatter: ScatterState)
      requires Scattering(scatter) && AnyOwes(scatter)
      modifies scatter`pend, scatter`gtOwner, scatter`eqOwner, scatter.sTopK, scatter.tieBuffer
      ensures Scattering(scatter) && OwingThreads(scatter.pend) < old(OwingThreads(scatter.pend))
    {
      var t :| 0 <= t < |scatter.pend| && scatter.pend[t] != Idle;
      StoreOwesLess(scatter.pend, t);
      hide Scattering, OwingThreads;
      StoreStep(t, scatter);
    }

    /** The scatter of a whole row, threads interleaving at every atomic operation and every store. */
    method Run(scatter: ScatterState)
      requires Scattering(scatter)
      modifies this, local, scatter, scatter.sTopK, scatter.tieBuffer
      ensures scatter.Valid() && scatter.Finished()
      ensures InOrder(scatter.eqLog, ThreadOrder()) && old(scatter.eqLog) <= scatter.eqLog
    {
      while AnyThreadWorks(scatter) || AnyOwes(scatter)
        invariant Scattering(scatter) && old(scatter.eqLog) <= scatter.eqLog
        decreases WorkLeft(), OwingThreads(scatter.pend)
      {
        hide Scattering, AnyThreadWorks, AnyOwes, OwingThreads, WorkLeft;
        if {
          case AnyThreadWorks(scatter) => WorkTurn(scatter);
          case AnyOwes(scatter) => StoreTurn(scatter);
        }
      }
      AllScattered(scatter);
    }

    lemma {:induction false} AllScattered(scatter: ScatterState)
      requires Scattering(scatter) && !AnyThreadWorks(scatter) && !AnyOwes(scatter)
      ensures scatter.Finished()
    {
      forall g | g in Indices(row)
        ensures g in scatter.done
      {
        TileBelow(g, end, threads, width, size);
        assert !ThreadWorks(PlaceOf(g).lane, scatter);
      }
      hide DoneValid;
      assert scatter.done <= Indices(row);
    }
  }
}
