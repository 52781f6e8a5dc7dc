/** bf16ScatterWarpSteal: warps take tiles of the row from a shared counter and scatter their elements, with no block
    barrier. Threads of all warps interleave at every atomic operation and every store. */
module WorkSteal {
  import opened Sums
  import opened Rows
  import opened Tiling
  import opened Scatter
  import opened Arrival

  datatype Stolen = NotYet | Tile(tile: nat)

  /** The element at `s` has been claimed: its tile is behind the warp that has it, or in work and the lane is past it.
      */
  ghost predicate Visited(s: Place, claimed: seq<nat>, myTile: seq<nat>, pos: seq<seq<nat>>)
  {
    && s.tile < |claimed| && claimed[s.tile] < |myTile| && claimed[s.tile] < |pos| && s.lane < |pos[claimed[s.tile]]|
    && (s.tile < myTile[claimed[s.tile]]
        || (s.tile == myTile[claimed[s.tile]] && s.elem < pos[claimed[s.tile]][s.lane]))
  }

  /** Every tile handed out belongs to one warp, which has finished it, works on it, or holds it for later. */
  ghost predicate TilesOwned(claimed: seq<nat>, myTile: seq<nat>, stolen: seq<Stolen>)
  {
    && |stolen| == |myTile|
    && (forall tile :: 0 <= tile < |claimed| ==>
          claimed[tile] < |myTile| && (tile <= myTile[claimed[tile]] || stolen[claimed[tile]] == Tile(tile)))
    && (forall w :: 0 <= w < |myTile| ==> myTile[w] < |claimed| && claimed[myTile[w]] == w)
    && (forall w :: 0 <= w < |myTile| && stolen[w].Tile? ==>
          myTile[w] < stolen[w].tile < |claimed| && claimed[stolen[w].tile] == w)
  }

  lemma {:induction false} StealKeepsVisits(s: Place, claimed: seq<nat>, myTile: seq<nat>, stolen: seq<Stolen>,
                                            pos: seq<seq<nat>>, w: nat)
    requires TilesOwned(claimed, myTile, stolen) && w < |myTile|
    ensures Visited(s, claimed + [w], myTile, pos) <==> Visited(s, claimed, myTile, pos)
  {
  }

  lemma {:induction false} BroadcastKeepsVisits(s: Place, claimed: seq<nat>, myTile: seq<nat>, stolen: seq<Stolen>,
                                                pos: seq<seq<nat>>,
                             w: nat, lanes: nat, elems: nat, zeros: seq<nat>)
    requires TilesOwned(claimed, myTile, stolen) && w < |myTile| == |pos| && stolen[w].Tile?
    requires |pos[w]| == |zeros| == lanes && s.lane < lanes && s.elem < elems
    requires forall l :: 0 <= l < lanes ==> pos[w][l] == elems && zeros[l] == 0
    ensures Visited(s, claimed, myTile[w := stolen[w].tile], pos[w := zeros]) <==> Visited(s, claimed, myTile, pos)
  {
  }

  lemma {:induction false} BroadcastKeepsTiles(claimed: seq<nat>, myTile: seq<nat>, stolen: seq<Stolen>, w: nat)
    requires TilesOwned(claimed, myTile, stolen) && w < |myTile| && stolen[w].Tile?
    ensures TilesOwned(claimed, myTile[w := stolen[w].tile], stolen[w := NotYet])
  {
  }

  /** The positions after lane `l` of warp `w` has moved on to `to`. */
  function Moved(pos: seq<seq<nat>>, w: nat, l: nat, to: nat): seq<seq<nat>>
    requires w < |pos| && l < |pos[w]|
  {
    var moved: seq<nat> := pos[w][l := to];
    pos[w := moved]
  }

  /** Moving lane `l` of warp `w` on visits exactly the elements it passes. */
  lemma {:induction false} ClaimVisits(s: Place, claimed: seq<nat>, myTile: seq<nat>, stolen: seq<Stolen>,
                                       pos: seq<seq<nat>>, w: nat, l: nat, to: nat)
    requires TilesOwned(claimed, myTile, stolen) && w < |myTile| == |pos| && l < |pos[w]| && pos[w][l] <= to
    ensures Visited(s, claimed, myTile, Moved(pos, w, l, to))
        <==> Visited(s, claimed, myTile, pos) || (s.tile == myTile[w] && s.lane == l && pos[w][l] <= s.elem < to)
  {
  }

  /** Warps that work and have not been turned away by the counter. */
  ghost function HuntingWarps(myTile: seq<nat>, stolen: seq<Stolen>, numTiles: nat): set<nat>
    requires |stolen| == |myTile|
  {
    set w | w in Upto(|myTile|) && myTile[w] < numTiles && !(stolen[w].Tile? && stolen[w].tile >= numTiles)
  }

  /** Warps whose lane 0 holds a tile number it has not broadcast. */
  ghost function HoldingWarps(stolen: seq<Stolen>): set<nat>
  {
    set w | w in Upto(|stolen|) && stolen[w].Tile?
  }

  lemma {:induction false} StealHuntsLess(myTile: seq<nat>, stolen: seq<Stolen>, numTiles: nat, w: nat, next: nat)
    requires |stolen| == |myTile| && w < |myTile| && myTile[w] < numTiles <= next && stolen[w] == NotYet
    ensures HuntingWarps(myTile, stolen[w := Tile(next)], numTiles) < HuntingWarps(myTile, stolen, numTiles)
  {
    assert w in HuntingWarps(myTile, stolen, numTiles) && w !in HuntingWarps(myTile, stolen[w := Tile(next)], numTiles);
  }

  lemma {:induction false} BroadcastHoldsLess(myTile: seq<nat>, stolen: seq<Stolen>, numTiles: nat, w: nat)
    requires |stolen| == |myTile| && w < |myTile| && myTile[w] < numTiles && stolen[w].Tile?
    ensures HuntingWarps(myTile[w := stolen[w].tile], stolen[w := NotYet], numTiles)
              == HuntingWarps(myTile, stolen, numTiles)
    ensures HoldingWarps(stolen[w := NotYet]) < HoldingWarps(stolen)
  {
    assert w in HoldingWarps(stolen) && w !in HoldingWarps(stolen[w := NotYet]);
  }

  class Stealer {
    const row: seq<Elem>
    const length: nat
    const warps: nat
    const lanes: nat
    const elems: nat                  // elements per lane and tile
    const tileSize: nat
    const numTiles: nat
    const scatter: ScatterState
    var next: nat                     // the shared counter: `warpSum[0]`
    var myTile: seq<nat>              // per warp
    var stolen: seq<Stolen>           // per warp: what lane 0 took and has not broadcast yet
    var pos: seq<seq<nat>>            // per warp and lane: elements of the current tile it has claimed
    ghost var claimed: seq<nat>       // tile -> the warp it was given to

    // ------------------------------------------------------------ geometry

    ghost predicate Shape()
    {
      && warps > 0 && Tiled(lanes, elems, tileSize)
      && numTiles == CeilDiv(length, tileSize) && length == |row|
      && scatter.row == row
    }

    ghost predicate At(g: nat, s: Place)
    {
      IsAt(g, s, lanes, elems, tileSize)
    }

    ghost function PlaceOf(g: nat): (s: Place)
      requires Shape()
      ensures At(g, s)
    {
      Locate(g, lanes, elems, tileSize)
    }

    /** `threadIdx.x` of a lane. */
    function Thread(w: nat, l: nat): nat
    {
      Start(w, lanes) + l
    }

    lemma {:induction false} ThreadRange(w: nat, l: nat)
      requires w < warps && l < lanes
      ensures Thread(w, l) < Start(warps, lanes)
    {
      StartMonotone(w + 1, warps, lanes);
    }

    // ------------------------------------------------------------ invariant

    ghost predicate Sizes()
      reads this`pos, this`myTile, this`stolen, this`next, this`claimed, scatter`pend
    {
      && Shape() && |myTile| == |stolen| == |pos| == warps && |claimed| == next
      && |scatter.pend| == Start(warps, lanes)
      && forall w :: 0 <= w < warps ==> |pos[w]| == lanes && forall l :: 0 <= l < lanes ==> pos[w][l] <= elems
    }

    ghost predicate DoneValid()
      reads this`claimed, this`myTile, this`pos, scatter`done
      requires Shape()
    {
      forall g :: g in Indices(row) ==> (g in scatter.done <==> Visited(PlaceOf(g), claimed, myTile, pos))
    }

    /** What a lane scatters in order: its part of one tile. */
    ghost function LaneOrder(): Order
    {
      Order(lanes, elems, tileSize, false)
    }

    ghost predicate Valid()
      reads this, scatter, scatter.sTopK, scatter.tieBuffer
    {
      && Sizes() && TilesOwned(claimed, myTile, stolen) && DoneValid() && scatter.Valid()
      && InOrder(scatter.eqLog, LaneOrder())
    }

    constructor (row: seq<Elem>, scatter: ScatterState, warps: nat, lanes: nat, elems: nat)
      requires warps > 0 && lanes > 0 && elems > 0
      requires scatter.Valid() && scatter.row == row && scatter.done == {}
      requires |scatter.pend| == Start(warps, lanes)
      ensures Valid() && scatter.eqLog == []
      ensures this.scatter == scatter && this.row == row && this.warps == warps && this.lanes == lanes
              && this.elems == elems
      ensures forall w :: 0 <= w < |stolen| ==> stolen[w] == NotYet
    {
      this.row, this.scatter, this.warps, this.lanes, this.elems := row, scatter, warps, lanes, elems;
      length := |row|;
      SizePositive(lanes, elems);
      tileSize := Start(lanes, elems);
      numTiles := CeilDiv(|row|, Start(lanes, elems));
      next := warps;
      myTile := seq(warps, w requires 0 <= w => w);
      stolen := seq(warps, _ => NotYet);
      pos := seq(warps, _ => seq(lanes, _ => 0));
      claimed := seq(warps, w requires 0 <= w => w);
      new;
      scatter.NothingLogged();
      hide ScatterState.Valid;
    }

    // ------------------------------------------------------------ steps

    predicate Working(w: nat)
      reads this`myTile
    {
      w < |myTile| && myTile[w] < numTiles
    }

    /** Lane `l` of warp `w` has an element of its tile to look at and owes no store. */
    predicate CanClaim(w: nat, l: nat)
      reads this`myTile, this`pos, scatter`pend
    {
      && Working(w) && w < |pos| && l < |pos[w]| && Thread(w, l) < |scatter.pend|
      && pos[w][l] < elems && scatter.pend[Thread(w, l)] == Idle
    }

    /** Lane `l` of warp `w` is through with its tile. */
    predicate LaneDone(w: nat, l: nat)
      reads this`pos, scatter`pend
    {
      && w < |pos| && l < |pos[w]| && Thread(w, l) < |scatter.pend|
      && pos[w][l] == elems && scatter.pend[Thread(w, l)] == Idle
    }

    predicate CanSteal(w: nat)
      reads this`myTile, this`stolen, this`pos, scatter`pend
    {
      Working(w) && w < |stolen| && stolen[w] == NotYet && LaneDone(w, 0)
    }

    predicate CanBroadcast(w: nat)
      reads this`myTile, this`stolen, this`pos, scatter`pend
    {
      Working(w) && w < |stolen| && stolen[w].Tile? && forall l :: 0 <= l < lanes ==> LaneDone(w, l)
    }

    predicate AnyWorks()
      reads this`myTile
    {
      exists w :: 0 <= w < warps && Working(w)
    }

    predicate AnyOwes()
      reads scatter`pend
    {
      exists t :: 0 <= t < |scatter.pend| && scatter.pend[t] != Idle
    }

    predicate AnyClaims()
      reads this`myTile, this`pos, scatter`pend
    {
      exists w, l :: 0 <= w < warps && 0 <= l < lanes && CanClaim(w, l)
    }

    predicate AnySteals()
      reads this`myTile, this`stolen, this`pos, scatter`pend
    {
      exists w :: 0 <= w < warps && CanSteal(w)
    }

    predicate AnyBroadcasts()
      reads this`myTile, this`stolen, this`pos, scatter`pend
    {
      exists w :: 0 <= w < warps && CanBroadcast(w)
    }

    /** The element that lane `l` of warp `w` looks at next. */
    function Ahead(w: nat, l: nat): nat
      reads this`myTile, this`pos
      requires w < |myTile| && w < |pos| && l < |pos[w]|
    {
      Start(myTile[w], tileSize) + Start(l, elems) + pos[w][l]
    }

    method ClaimStep(w: nat, l: nat)
      requires Valid() && CanClaim(w, l)
      modifies this`pos, scatter
      ensures Valid() && old(pos)[w][l] < pos[w][l] <= elems && pos == Moved(old(pos), w, l, pos[w][l])
      ensures scatter.done == old(scatter.done) + if old(Ahead(w, l)) < length then {old(Ahead(w, l))} else {}
      ensures old(scatter.done) == scatter.done ==> pos[w][l] == elems
      ensures old(scatter.eqLog) <= scatter.eqLog
    {
      hide ScatterState.Valid;
      hide TilesOwned, Visited, InOrder;
      var g := Ahead(w, l);
      var to := if g >= length then elems else pos[w][l] + 1;
      VisitStep(w, l, g, to);
      if g < length {
        ClaimedInOrder(w, l, g);
        scatter.Claim(Thread(w, l), g, row[g]);
      }
      pos := Moved(pos, w, l, to);
      assert Sizes();
      assert DoneValid();
    }

    /** All elements of its lane and tile that were logged before are lower. */
    lemma {:induction false} ClaimedInOrder(w: nat, l: nat, g: nat)
      requires Valid() && w < warps && l < lanes && pos[w][l] < elems
      requires At(g, Place(myTile[w], l, pos[w][l]))
      ensures InOrder(scatter.eqLog + [g], LaneOrder())
    {
      scatter.TiesLogged();
      hide ScatterState.Valid, InOrder;
      OnePlace(g, Place(myTile[w], l, pos[w][l]), PlaceOf(g), lanes, elems, tileSize);
      DoneInRange();
      OrderAppend(scatter.eqLog, g, LaneOrder());
    }

    lemma {:induction false} VisitStep(w: nat, l: nat, g0: nat, to: nat)
      requires Valid() && w < warps && l < lanes && pos[w][l] < elems
      requires At(g0, Place(myTile[w], l, pos[w][l]))
      requires to == if g0 >= length then elems else pos[w][l] + 1
      ensures g0 < length ==> g0 !in scatter.done
      ensures forall g :: g in Indices(row) ==>
                (g in scatter.done + (if g0 < length then {g0} else {})
                 <==> Visited(PlaceOf(g), claimed, myTile, Moved(pos, w, l, to)))
    {
      var here := Place(myTile[w], l, pos[w][l]);
      OnePlace(g0, here, PlaceOf(g0), lanes, elems, tileSize);
      forall g | g in Indices(row)
        ensures g in scatter.done + (if g0 < length then {g0} else {})
            <==> Visited(PlaceOf(g), claimed, myTile, Moved(pos, w, l, to))
      {
        ClaimVisits(PlaceOf(g), claimed, myTile, stolen, pos, w, l, to);
      }
    }

    method StoreStep(t: nat)
      requires Valid() && t < |scatter.pend| && scatter.pend[t] != Idle
      modifies scatter`pend, scatter`gtOwner, scatter`eqOwner, scatter.sTopK, scatter.tieBuffer
      ensures Valid() && scatter.pend == old(scatter.pend)[t := Idle]
    {
      scatter.Store(t);
    }

    /** Lane 0 takes the next tile number from the shared counter. */
    method StealStep(w: nat)
      requires Valid() && CanSteal(w)
      modifies this`next, this`stolen, this`claimed
      ensures Valid() && next == old(next) + 1 && stolen == old(stolen)[w := Tile(old(next))]
    {
      hide ScatterState.Valid;
      hide Visited;
      forall g | g in Indices(row)
        ensures Visited(PlaceOf(g), claimed + [w], myTile, pos) <==> Visited(PlaceOf(g), claimed, myTile, pos)
      {
        StealKeepsVisits(PlaceOf(g), claimed, myTile, stolen, pos, w);
      }
      stolen := stolen[w := Tile(next)];
      claimed := claimed + [w];
      next := next + 1;
    }

    /** All lanes meet in the shuffle that hands them the tile lane 0 took. */
    method BroadcastStep(w: nat)
      requires Valid() && CanBroadcast(w)
      modifies this`myTile, this`stolen, this`pos
      ensures Valid()
      ensures myTile == old(myTile)[w := old(stolen)[w].tile] && stolen == old(stolen)[w := NotYet]
    {
      var zeros: seq<nat> := seq(lanes, _ => 0);
      LanesAtEnd(w);
      var tile := stolen[w].tile;
      hide ScatterState.Valid;
      hide Visited, CanBroadcast, LaneDone, Shape, Indices, PlaceOf, TilesOwned;
      VisitsKept(w, zeros);
      BroadcastKeepsTiles(claimed, myTile, stolen, w);
      myTile := myTile[w := tile];
      stolen := stolen[w := NotYet];
      pos := pos[w := zeros];
      assert Sizes();
      assert DoneValid();
    }

    lemma {:induction false} LanesAtEnd(w: nat)
      requires Sizes() && CanBroadcast(w)
      ensures w < warps && stolen[w].Tile? && |pos[w]| == lanes && forall l :: 0 <= l < lanes ==> pos[w][l] == elems
    {
      hide Shape, LaneDone;
      forall l | 0 <= l < lanes
        ensures pos[w][l] == elems
      {
        AtEnd(w, l);
      }
    }

    lemma {:induction false} AtEnd(w: nat, l: nat)
      requires w < |pos| && l < |pos[w]| && LaneDone(w, l)
      ensures pos[w][l] == elems
    {
    }

    lemma {:induction false} VisitsKept(w: nat, zeros: seq<nat>)
      requires Sizes() && TilesOwned(claimed, myTile, stolen) && w < warps && stolen[w].Tile? && |zeros| == lanes
      requires forall l :: 0 <= l < lanes ==> pos[w][l] == elems && zeros[l] == 0
      ensures forall g :: g in Indices(row) ==>
                (Visited(PlaceOf(g), claimed, myTile[w := stolen[w].tile], pos[w := zeros]) <==>
                  Visited(PlaceOf(g), claimed, myTile, pos))
    {
      hide Visited, Indices, TilesOwned;
      forall g | g in Indices(row)
        ensures Visited(PlaceOf(g), claimed, myTile[w := stolen[w].tile], pos[w := zeros]) <==>
                  Visited(PlaceOf(g), claimed, myTile, pos)
      {
        BroadcastKeepsVisits(PlaceOf(g), claimed, myTile, stolen, pos, w, lanes, elems, zeros);
      }
    }

    // ------------------------------------------------------------ every schedule ends

    ghost function Hunting(): set<nat>
      reads this`myTile, this`stolen
      requires |stolen| == |myTile|
    {
      HuntingWarps(myTile, stolen, numTiles)
    }

    ghost function Holding(): set<nat>
      reads this`stolen
    {
      HoldingWarps(stolen)
    }

    /** Lanes that have not reached the end of their tile. */
    ghost function Open(): set<(nat, nat)>
      reads this`pos
    {
      set w, l | w in Upto(warps) && l in Upto(lanes) && w < |pos| && l < |pos[w]| && pos[w][l] < elems :: (w, l)
    }

    ghost function Owing(): set<nat>
      reads scatter`pend
    {
      OwingThreads(scatter.pend)
    }

    ghost function TilesLeft(): nat
      reads this`next
    {
      if next < numTiles then numTiles - next else 0
    }

    method ClaimTurn()
      requires Valid() && AnyClaims()
      modifies this`pos, scatter
      ensures Valid() && old(scatter.done) <= scatter.done <= Indices(row) && old(scatter.eqLog) <= scatter.eqLog
      ensures TilesLeft() == old(TilesLeft()) && Hunting() == old(Hunting()) && Holding() == old(Holding())
      ensures old(scatter.done) == scatter.done ==> Open() < old(Open())
    {
      var w, l :| 0 <= w < warps && 0 <= l < lanes && CanClaim(w, l);
      ClaimBy(w, l);
    }

    method ClaimBy(w: nat, l: nat)
      requires Valid() && CanClaim(w, l)
      modifies this`pos, scatter
      ensures Valid() && old(scatter.done) <= scatter.done <= Indices(row) && old(scatter.eqLog) <= scatter.eqLog
      ensures scatter.done == old(scatter.done) + if old(Ahead(w, l)) < length then {old(Ahead(w, l))} else {}
      ensures TilesLeft() == old(TilesLeft()) && Hunting() == old(Hunting()) && Holding() == old(Holding())
      ensures old(scatter.done) == scatter.done ==> Open() < old(Open())
    {
      hide ScatterState.Valid, Sizes, DoneValid, TilesOwned, Visited, InOrder, Shape, Indices, Hunting, Holding;
      hide TilesLeft;
      InRange(w, l);
      ClaimStep(w, l);
      if old(scatter.done) == scatter.done {
        assert (w, l) in old(Open()) && (w, l) !in Open();
      }
      DoneInRange();
    }

    lemma {:induction false} InRange(w: nat, l: nat)
      requires Valid() && CanClaim(w, l)
      ensures w < warps == |pos| && l < lanes == |pos[w]| && |myTile| == |stolen|
    {
    }

    lemma {:induction false} DoneInRange()
      requires Valid()
      ensures scatter.done <= Indices(row)
    {
    }

    method StoreTurn()
      requires Valid() && AnyOwes()
      modifies scatter`pend, scatter`gtOwner, scatter`eqOwner, scatter.sTopK, scatter.tieBuffer
      ensures Valid() && Owing() < old(Owing())
      ensures TilesLeft() == old(TilesLeft()) && Hunting() == old(Hunting()) && Holding() == old(Holding())
      ensures scatter.done == old(scatter.done) && Open() == old(Open())
    {
      hide Valid, Open, TilesLeft, Hunting, Holding, OwingThreads;
      var t :| 0 <= t < |scatter.pend| && scatter.pend[t] != Idle;
      ghost var owed := scatter.pend;
      StoreStep(t);
      StoreOwesLess(owed, t);
    }

    method StealTurn()
      requires Valid() && AnySteals()
      modifies this`next, this`stolen, this`claimed
      ensures Valid() && TilesLeft() <= old(TilesLeft())
      ensures TilesLeft() == old(TilesLeft()) ==> Hunting() < old(Hunting())
    {
      var w :| 0 <= w < warps && CanSteal(w);
      StealBy(w);
    }

    method StealBy(w: nat)
      requires Valid() && CanSteal(w)
      modifies this`next, this`stolen, this`claimed
      ensures Valid() && TilesLeft() <= old(TilesLeft())
      ensures TilesLeft() == old(TilesLeft()) ==> Hunting() < old(Hunting())
      ensures stolen == old(stolen)[w := Tile(old(next))]
    {
      if next >= numTiles {
        StealHuntsLess(myTile, stolen, numTiles, w, next);
      }
      StealStep(w);
    }

    method BroadcastTurn()
      requires Valid() && AnyBroadcasts()
      modifies this`myTile, this`stolen, this`pos
      ensures Valid() && TilesLeft() == old(TilesLeft()) && Hunting() == old(Hunting()) && Holding() < old(Holding())
      ensures exists w :: 0 <= w < |old(stolen)| == |old(myTile)| && old(stolen)[w].Tile?
                          && myTile == old(myTile)[w := old(stolen)[w].tile] && stolen == old(stolen)[w := NotYet]
    {
      var w :| 0 <= w < warps && CanBroadcast(w);
      BroadcastHoldsLess(myTile, stolen, numTiles, w);
      BroadcastStep(w);
    }

    /** As long as a warp works or a thread owes a store, some step is possible. */
    lemma {:induction false} Progress()
      requires Valid() && (AnyWorks() || AnyOwes())
      ensures AnyOwes() || AnyClaims() || AnySteals() || AnyBroadcasts()
    {
      if forall t :: 0 <= t < |scatter.pend| ==> scatter.pend[t] == Idle {
        var w :| 0 <= w < warps && Working(w);
        if l :| 0 <= l < lanes && pos[w][l] < elems {
          ThreadRange(w, l);
          assert CanClaim(w, l);
        } else {
          forall l | 0 <= l < lanes
            ensures LaneDone(w, l)
          {
            ThreadRange(w, l);
          }
          assert CanSteal(w) || CanBroadcast(w);
        }
      }
    }

    /** When no warp works any more, every tile of the row has been visited. */
    lemma {:induction false} AllDone()
      requires Valid() && !AnyWorks()
      ensures scatter.done == Indices(row)
    {
      forall g | g in Indices(row)
        ensures Visited(PlaceOf(g), claimed, myTile, pos)
      {
        TileInRange(g, length, lanes, elems, tileSize);
        var s := PlaceOf(g);
        assert !Working(0);
        assert s.tile < |claimed|;
        assert !Working(claimed[s.tile]);
      }
      DoneInRange();
    }

    /** The scheduler lets some thread or warp take a step that it can take. */
    method Turn()
      requires Valid() && (AnyWorks() || AnyOwes())
      modifies this, scatter, scatter.sTopK, scatter.tieBuffer
      ensures Valid() && old(scatter.eqLog) <= scatter.eqLog
      ensures (old(TilesLeft()), old(Hunting()), old(Holding()), old(Indices(row) - scatter.done), old(Open()),
                old(Owing())
               decreases to TilesLeft(), Hunting(), Holding(), Indices(row) - scatter.done, Open(), Owing())
    {
      Progress();
      hide Valid, Hunting, Holding, Open, Owing, TilesLeft, AnyOwes, AnyClaims, AnySteals, AnyBroadcasts;
      if {
        case AnyOwes() => StoreTurn();
        case AnyClaims() => ClaimTurn();
        case AnySteals() => StealTurn();
        case AnyBroadcasts() => BroadcastTurn();
      }
    }

    /** The scatter of a whole row: any order of claims, stores, steals and broadcasts ends with every element
        scattered and every store made. */
    method Run()
      requires Valid()
      modifies this, scatter, scatter.sTopK, scatter.tieBuffer
      ensures scatter.Valid() && scatter.Finished()
      ensures InOrder(scatter.eqLog, LaneOrder()) && old(scatter.eqLog) <= scatter.eqLog
    {
      while AnyWorks() || AnyOwes()
        invariant Valid() && old(scatter.eqLog) <= scatter.eqLog
        decreases TilesLeft(), Hunting(), Holding(), Indices(row) - scatter.done, Open(), Owing()
      {
        Turn();
      }
      AllDone();
    }
  }
}
