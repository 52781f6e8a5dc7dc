/** Schedules of the work-stealing scatter that keep one lane waiting in front of an element until nothing else is left
    to do. */
module WithheldLane {
  import opened Rows
  import opened Tiling
  import opened Scatter
  import opened WorkSteal

  /** The element at place `p` has not been claimed, and the warp that works on its tile has not taken another one. */
  ghost predicate Waiting(s: Stealer, g0: nat, p: Place)
    reads s`myTile, s`stolen, s.scatter`done
  {
    && g0 !in s.scatter.done
    && forall w :: 0 <= w < |s.myTile| && w < |s.stolen| && s.myTile[w] == p.tile ==> s.stolen[w] == NotYet
  }

  /** Lane `l` of warp `w` can claim an element other than the one at `p`. */
  predicate MayClaim(s: Stealer, w: nat, l: nat, p: Place)
    reads s`myTile, s`pos, s.scatter`pend
  {
    s.CanClaim(w, l) && !(s.myTile[w] == p.tile && l == p.lane && s.pos[w][l] == p.elem)
  }

  predicate MaySteal(s: Stealer, w: nat, p: Place)
    reads s`myTile, s`stolen, s`pos, s.scatter`pend
  {
    s.CanSteal(w) && s.myTile[w] != p.tile
  }

  predicate AnyMayClaim(s: Stealer, p: Place)
    reads s`myTile, s`pos, s.scatter`pend
  {
    exists w, l :: 0 <= w < s.warps && 0 <= l < s.lanes && MayClaim(s, w, l, p)
  }

  predicate AnyMaySteal(s: Stealer, p: Place)
    reads s`myTile, s`stolen, s`pos, s.scatter`pend
  {
    exists w :: 0 <= w < s.warps && MaySteal(s, w, p)
  }

  method ClaimElsewhere(s: Stealer, ghost g0: nat, p: Place)
    requires s.Valid() && s.At(g0, p) && Waiting(s, g0, p) && AnyMayClaim(s, p)
    modifies s`pos, s.scatter
    ensures s.Valid() && Waiting(s, g0, p)
    ensures old(s.scatter.done) <= s.scatter.done <= Indices(s.row) && old(s.scatter.eqLog) <= s.scatter.eqLog
    ensures s.TilesLeft() == old(s.TilesLeft()) && s.Hunting() == old(s.Hunting()) && s.Holding() == old(s.Holding())
    ensures old(s.scatter.done) == s.scatter.done ==> s.Open() < old(s.Open())
  {
    hide Stealer.Valid, Stealer.TilesLeft, Stealer.Hunting, Stealer.Holding, Stealer.Open, Stealer.Ahead;
    Sized(s);
    var w, l :| 0 <= w < s.warps && 0 <= l < s.lanes && MayClaim(s, w, l, p);
    AnotherElement(s, w, l, g0, p);
    s.ClaimBy(w, l);
  }

  lemma {:induction false} AnotherElement(s: Stealer, w: nat, l: nat, g0: nat, p: Place)
    requires s.Valid() && s.At(g0, p) && w < s.warps && l < s.lanes && MayClaim(s, w, l, p)
    ensures s.Ahead(w, l) != g0
  {
    hide ScatterState.Valid;
    if s.Ahead(w, l) == g0 {
      OnePlace(g0, p, Place(s.myTile[w], l, s.pos[w][l]), s.lanes, s.elems, s.tileSize);
    }
  }

  method StealElsewhere(s: Stealer, ghost g0: nat, p: Place)
    requires s.Valid() && Waiting(s, g0, p) && AnyMaySteal(s, p)
    modifies s`next, s`stolen, s`claimed
    ensures s.Valid() && Waiting(s, g0, p) && s.TilesLeft() <= old(s.TilesLeft())
    ensures s.TilesLeft() == old(s.TilesLeft()) ==> s.Hunting() < old(s.Hunting())
  {
    hide Stealer.Valid, Stealer.TilesLeft, Stealer.Hunting;
    var w :| 0 <= w < s.warps && MaySteal(s, w, p);
    s.StealBy(w);
  }

  method BroadcastElsewhere(s: Stealer, ghost g0: nat, p: Place)
    requires s.Valid() && Waiting(s, g0, p) && s.AnyBroadcasts()
    modifies s`myTile, s`stolen, s`pos
    ensures s.Valid() && Waiting(s, g0, p)
    ensures s.TilesLeft() == old(s.TilesLeft()) && s.Hunting() == old(s.Hunting()) && s.Holding() < old(s.Holding())
  {
    hide Stealer.Valid, Stealer.TilesLeft, Stealer.Hunting, Stealer.Holding, Stealer.AnyBroadcasts;
    s.BroadcastTurn();
  }

  /** Any order of all steps but those that the waiting lane holds up. */
  method RunElsewhere(s: Stealer, ghost g0: nat, p: Place)
    requires s.Valid() && s.warps >= 2 && g0 < |s.row| && s.At(g0, p) && Waiting(s, g0, p)
    modifies s, s.scatter, s.scatter.sTopK, s.scatter.tieBuffer
    ensures s.Valid() && s.scatter.Valid() && old(s.scatter.eqLog) <= s.scatter.eqLog && g0 !in s.scatter.done
    ensures forall g :: g in Indices(s.row) && !(s.LaneOrder().Together(g0, g) && g0 <= g) ==> g in s.scatter.done
  {
    hide Stealer.Valid, Stealer.Hunting, Stealer.Holding, Stealer.Open, Stealer.Owing, Stealer.TilesLeft;
    hide ScatterState.Valid, Stealer.AnyOwes, AnyMayClaim, AnyMaySteal, Stealer.AnyBroadcasts;
    Sized(s);
    while s.AnyOwes() || AnyMayClaim(s, p) || AnyMaySteal(s, p) || s.AnyBroadcasts()
      invariant s.Valid() && Waiting(s, g0, p) && old(s.scatter.eqLog) <= s.scatter.eqLog && |s.stolen| == |s.myTile|
      invariant s.scatter.Valid()
      decreases s.TilesLeft(), s.Hunting(), s.Holding(), Indices(s.row) - s.scatter.done, s.Open(), s.Owing()
    {
      if {
        case s.AnyOwes() => s.StoreTurn();
        case AnyMayClaim(s, p) => ClaimElsewhere(s, g0, p);
        case AnyMaySteal(s, p) => StealElsewhere(s, g0, p);
        case s.AnyBroadcasts() => BroadcastElsewhere(s, g0, p);
      }
      Sized(s);
    }
    NothingElse(s, g0, p);
  }

  lemma {:induction false} Sized(s: Stealer)
    requires s.Valid()
    ensures |s.stolen| == |s.myTile| && s.scatter.Valid()
  {
  }

  // ---------------------------------------------------------------- what is left then

  /** No step is possible but the claim of the waiting lane. */
  ghost predicate Stuck(s: Stealer, p: Place)
    reads s, s.scatter
  {
    !s.AnyOwes() && !AnyMayClaim(s, p) && !AnyMaySteal(s, p) && !s.AnyBroadcasts()
  }

  lemma {:induction false} SomeStep(s: Stealer, p: Place, w: nat)
    requires s.Valid() && !s.AnyOwes() && w < s.warps && s.Working(w) && s.myTile[w] != p.tile
    ensures AnyMayClaim(s, p) || AnyMaySteal(s, p) || s.AnyBroadcasts()
  {
    hide ScatterState.Valid;
    if l :| 0 <= l < s.lanes && s.pos[w][l] < s.elems {
      s.ThreadRange(w, l);
      assert MayClaim(s, w, l, p);
    } else {
      forall l | 0 <= l < s.lanes
        ensures s.LaneDone(w, l)
      {
        s.ThreadRange(w, l);
      }
      assert MaySteal(s, w, p) || s.CanBroadcast(w);
    }
  }

  /** A warp that still works works on the tile of the waiting lane. */
  lemma {:induction false} OnlyThatTile(s: Stealer, p: Place, w: nat)
    requires s.Valid() && Stuck(s, p) && w < s.warps && s.Working(w)
    ensures s.myTile[w] == p.tile
  {
    if s.myTile[w] != p.tile {
      SomeStep(s, p, w);
    }
  }

  /** The warp that has the tile of the waiting lane works on it; all tiles of the row have been handed out. */
  lemma {:induction false} HolderOf(s: Stealer, g0: nat, p: Place) returns (w: nat)
    requires s.Valid() && s.warps >= 2 && g0 < |s.row| && s.At(g0, p) && Waiting(s, g0, p) && Stuck(s, p)
    ensures w < s.warps && s.myTile[w] == p.tile && s.stolen[w] == NotYet && s.Working(w)
    ensures forall v :: 0 <= v < s.warps && v != w ==> s.myTile[v] >= s.numTiles
    ensures s.numTiles <= |s.claimed|
  {
    hide ScatterState.Valid, Stuck;
    TileInRange(g0, s.length, s.lanes, s.elems, s.tileSize);
    OnePlace(g0, p, s.PlaceOf(g0), s.lanes, s.elems, s.tileSize);
    assert g0 in Indices(s.row);
    if s.Working(0) {
      OnlyThatTile(s, p, 0);
    }
    assert p.tile < |s.claimed|;
    w := s.claimed[p.tile];
    if s.Working(w) {
      OnlyThatTile(s, p, w);
    }
    forall v | 0 <= v < s.warps && v != w
      ensures s.myTile[v] >= s.numTiles
    {
      if s.Working(v) {
        OnlyThatTile(s, p, v);
      }
    }
    var v := if w == 0 then 1 else 0;
    assert s.myTile[v] >= s.numTiles;
  }

  lemma {:induction false} NothingElse(s: Stealer, g0: nat, p: Place)
    requires s.Valid() && s.warps >= 2 && g0 < |s.row| && s.At(g0, p) && Waiting(s, g0, p) && Stuck(s, p)
    ensures forall g :: g in Indices(s.row) && !(s.LaneOrder().Together(g0, g) && g0 <= g) ==> g in s.scatter.done
  {
    var w := HolderOf(s, g0, p);
    forall g | g in Indices(s.row) && !(s.LaneOrder().Together(g0, g) && g0 <= g)
      ensures g in s.scatter.done
    {
      PassedElsewhere(s, g0, p, w, g);
    }
  }

  lemma {:induction false} PassedElsewhere(s: Stealer, g0: nat, p: Place, w: nat, g: nat)
    requires s.Valid() && g0 < |s.row| && s.At(g0, p) && Waiting(s, g0, p) && Stuck(s, p)
    requires w < s.warps && s.myTile[w] == p.tile && s.stolen[w] == NotYet && s.Working(w)
    requires forall v :: 0 <= v < s.warps && v != w ==> s.myTile[v] >= s.numTiles
    requires s.numTiles <= |s.claimed|
    requires g in Indices(s.row) && !(s.LaneOrder().Together(g0, g) && g0 <= g)
    ensures g in s.scatter.done
  {
    hide ScatterState.Valid;
    var q := s.PlaceOf(g);
    OnePlace(g0, p, s.PlaceOf(g0), s.lanes, s.elems, s.tileSize);
    TileInRange(g, s.length, s.lanes, s.elems, s.tileSize);
    if q.tile == p.tile {
      s.ThreadRange(w, q.lane);
      assert !MayClaim(s, w, q.lane, p);
      assert g0 in Indices(s.row);
    }
    assert Visited(q, s.claimed, s.myTile, s.pos);
  }
}
