/** How the kernels lay a row out over a block: tiles of `lanes` threads, `elems` consecutive elements per thread. */
module Tiling {
  import opened Sums

  datatype Place = Place(tile: nat, lane: nat, elem: nat)

  ghost predicate Tiled(lanes: nat, elems: nat, size: nat)
  {
    lanes > 0 && elems > 0 && size > 0 && size == Start(lanes, elems)
  }

  /** Index `g` is the element at place `p`. */
  ghost predicate IsAt(g: nat, p: Place, lanes: nat, elems: nat, size: nat)
  {
    p.lane < lanes && p.elem < elems && g == Start(p.tile, size) + Start(p.lane, elems) + p.elem
  }

  lemma {:induction false} SizePositive(lanes: nat, elems: nat)
    requires lanes > 0 && elems > 0
    ensures Tiled(lanes, elems, Start(lanes, elems))
  {
    StartMonotone(1, lanes, elems);
  }

  lemma {:induction false} PlaceExists(g: nat, lanes: nat, elems: nat, size: nat)
    requires Tiled(lanes, elems, size)
    ensures exists p :: IsAt(g, p, lanes, elems, size)
  {
    var s, r := Split(g, size);
    var t, e := Split(r, elems);
    StartIsProduct(s, size);
    StartIsProduct(t, elems);
    if t >= lanes {
      StartMonotone(lanes, t, elems);
    }
    assert IsAt(g, Place(s, t, e), lanes, elems, size);
  }

  /** The place of an index, computed. */
  method FindPlace(g: nat, lanes: nat, elems: nat, size: nat) returns (p: Place)
    requires Tiled(lanes, elems, size)
    ensures IsAt(g, p, lanes, elems, size)
  {
    ghost var s, r := Split(g, size);
    ghost var t, e := Split(r, elems);
    StartIsProduct(s, size);
    StartIsProduct(t, elems);
    if t >= lanes {
      StartMonotone(lanes, t, elems);
    }
    p := Place(g / size, g % size / elems, g % size % elems);
  }

  ghost function Locate(g: nat, lanes: nat, elems: nat, size: nat): (p: Place)
    requires Tiled(lanes, elems, size)
    ensures IsAt(g, p, lanes, elems, size)
  {
    PlaceExists(g, lanes, elems, size);
    var p :| IsAt(g, p, lanes, elems, size);
    p
  }

  /** No index has two places. */
  lemma {:induction false} OnePlace(g: nat, p: Place, q: Place, lanes: nat, elems: nat, size: nat)
    requires Tiled(lanes, elems, size) && IsAt(g, p, lanes, elems, size) && IsAt(g, q, lanes, elems, size)
    ensures p == q
  {
    Span(p.lane, p.elem, lanes, elems, size);
    Span(q.lane, q.elem, lanes, elems, size);
    if p.tile < q.tile {
      StartMonotone(p.tile + 1, q.tile, size);
    } else if q.tile < p.tile {
      StartMonotone(q.tile + 1, p.tile, size);
    }
    if p.lane < q.lane {
      StartMonotone(p.lane + 1, q.lane, elems);
    } else if q.lane < p.lane {
      StartMonotone(q.lane + 1, p.lane, elems);
    }
  }

  lemma {:induction false} Span(t: nat, e: nat, lanes: nat, elems: nat, size: nat)
    requires Tiled(lanes, elems, size) && t < lanes && e < elems
    ensures Start(t, elems) + e < size
  {
    StartMonotone(t + 1, lanes, elems);
  }

  /** Indices below `n * size` lie in the first `n` tiles. */
  lemma {:induction false} TileBelow(g: nat, n: nat, lanes: nat, elems: nat, size: nat)
    requires Tiled(lanes, elems, size) && g < Start(n, size)
    ensures Locate(g, lanes, elems, size).tile < n
  {
    if Locate(g, lanes, elems, size).tile >= n {
      StartMonotone(n, Locate(g, lanes, elems, size).tile, size);
    }
  }

  /** `ceil(length / size)` tiles hold a row. */
  lemma {:induction false} TileInRange(g: nat, length: nat, lanes: nat, elems: nat, size: nat)
    requires Tiled(lanes, elems, size) && g < length
    ensures Locate(g, lanes, elems, size).tile < CeilDiv(length, size)
  {
    CeilDivBounds(length, size);
    StartIsProduct(CeilDiv(length, size), size);
    TileBelow(g, CeilDiv(length, size), lanes, elems, size);
  }
}
