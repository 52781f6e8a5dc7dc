/** The INT8 indexer cache: every page holds the 128 value bytes of its tokens, then their 4 scale bytes. One program
    per row stores into the cache in place. */
module IndexerCache {
  import opened Sums

  type Byte = b: nat | b < 256

  /** `blockSize` tokens per page, pages `stride` bytes apart. */
  datatype Pages = Pages(blockSize: nat, stride: nat, numBlocks: nat)
  {
    /** What the caller asserts of the cache tensor. */
    predicate Valid(length: nat)
    {
      && blockSize > 0 && stride >= 132 * blockSize && stride % 4 == 0
      && (numBlocks > 0 ==> Start(numBlocks - 1, stride) + 132 * blockSize <= length)
    }

    function Slots(): nat
    {
      Start(numBlocks, blockSize)
    }

    function Page(slot: nat): nat
      requires blockSize > 0
    {
      slot / blockSize
    }

    function Token(slot: nat): nat
      requires blockSize > 0
    {
      slot % blockSize
    }

    /** Address of value byte `head` and of scale byte `b` of a slot. */
    function ValueAt(slot: nat, head: nat): nat
      requires blockSize > 0
    {
      Start(Page(slot), stride) + Token(slot) * 128 + head
    }

    function ScaleAt(slot: nat, b: nat): nat
      requires blockSize > 0
    {
      Start(Page(slot), stride) + blockSize * 128 + Token(slot) * 4 + b
    }

    /** The bytes of a slot, in both planes. */
    predicate Owns(slot: nat, a: nat)
      requires blockSize > 0
    {
      ValueAt(slot, 0) <= a < ValueAt(slot, 0) + 128 || ScaleAt(slot, 0) <= a < ScaleAt(slot, 0) + 4
    }
  }

  /** That is: whole aligned pages, every one of which lies in the cache. */
  lemma {:induction false} PagesFit(p: Pages, length: nat)
    ensures p.Valid(length) <==>
              && p.blockSize > 0 && p.stride >= p.blockSize * 132 && p.stride % 4 == 0
              && forall page: nat :: page < p.numBlocks ==> Start(page, p.stride) + p.blockSize * 132 <= length
  {
    forall page: nat | page < p.numBlocks
      ensures Start(page, p.stride) <= Start(p.numBlocks - 1, p.stride)
    {
      StartMonotone(page, p.numBlocks - 1, p.stride);
    }
    if p.numBlocks > 0 {
      var last: nat := p.numBlocks - 1;
      assert Start(last, p.stride) == Start(p.numBlocks - 1, p.stride);
    }
  }

  lemma {:induction false} SlotParts(p: Pages, slot: nat)
    requires p.blockSize > 0 && slot < p.Slots()
    ensures p.Page(slot) < p.numBlocks && p.Token(slot) < p.blockSize
    ensures slot == Start(p.Page(slot), p.blockSize) + p.Token(slot)
  {
    StartIsProduct(p.numBlocks, p.blockSize);
    DivBelow(slot, p.numBlocks, p.blockSize);
    StartIsProduct(p.Page(slot), p.blockSize);
  }

  /** Both planes of a page lie in it and in the cache, and do not overlap. */
  lemma {:induction false} InPage(p: Pages, slot: nat, length: nat)
    requires p.Valid(length) && slot < p.Slots()
    ensures Start(p.Page(slot), p.stride) <= p.ValueAt(slot, 0)
    ensures p.ValueAt(slot, 0) + 128 <= Start(p.Page(slot), p.stride) + p.blockSize * 128 <= p.ScaleAt(slot, 0)
    ensures p.ScaleAt(slot, 0) + 4 <= Start(p.Page(slot), p.stride) + 132 * p.blockSize <= length
    ensures p.ScaleAt(slot, 0) + 4 <= Start(p.Page(slot) + 1, p.stride)
  {
    SlotParts(p, slot);
    StartMonotone(p.Page(slot), p.numBlocks - 1, p.stride);
  }

  /** No byte belongs to two slots. */
  lemma {:induction false} OneOwner(p: Pages, length: nat, s: nat, t: nat, a: nat)
    requires p.Valid(length) && s < p.Slots() && t < p.Slots() && p.Owns(s, a) && p.Owns(t, a)
    ensures s == t
  {
    SlotParts(p, s);
    SlotParts(p, t);
    InPage(p, s, length);
    InPage(p, t, length);
    if p.Page(s) < p.Page(t) {
      StartMonotone(p.Page(s) + 1, p.Page(t), p.stride);
    } else if p.Page(t) < p.Page(s) {
      StartMonotone(p.Page(t) + 1, p.Page(s), p.stride);
    }
    hide Pages.Page, Pages.Token;
  }

  /** Scales are stored as aligned 32-bit numbers. */
  lemma {:induction false} ScaleAligned(p: Pages, length: nat, slot: nat)
    requires p.Valid(length) && slot < p.Slots()
    ensures p.ScaleAt(slot, 0) % 4 == 0
  {
    hide Pages.Page, Pages.Token;
    StartIsProduct(p.Page(slot), p.stride);
    Multiple(p.Page(slot), p.stride, p.blockSize, p.Token(slot));
  }

  lemma {:induction false} Multiple(n: nat, stride: nat, block: nat, token: nat)
    requires stride % 4 == 0
    ensures (n * stride + block * 128 + token * 4) % 4 == 0
  {
    var m, r := Split(stride, 4);
    Quadruple(n, m);
    Joined(n * stride + block * 128 + token * 4, n * m + block * 32 + token, 0, 4);
  }

  lemma {:induction false} Quadruple(n: nat, m: nat)
    ensures n * (m * 4) == (n * m) * 4
  {
  }

  /** A row to store: the bytes of its quantised values and of its scale. */
  datatype RowBytes = RowBytes(values: seq<Byte>, scale: seq<Byte>)
  {
    predicate Valid()
    {
      |values| == 128 && |scale| == 4
    }
  }

  /** A slot that the kernel stores to; others are skipped. */
  predicate Stores(p: Pages, slot: int)
  {
    0 <= slot < p.Slots()
  }

  /** The bytes of row `r` are in the cache. */
  ghost predicate Holds(p: Pages, cache: seq<Byte>, slot: int, r: RowBytes)
    requires p.Valid(|cache|) && r.Valid() && Stores(p, slot)
  {
    InPage(p, slot, |cache|);
    cache[p.ValueAt(slot, 0)..p.ValueAt(slot, 0) + 128] == r.values
      && cache[p.ScaleAt(slot, 0)..p.ScaleAt(slot, 0) + 4] == r.scale
  }

  /** `tl.store` of a range of bytes. */
  method StoreBytes(cache: array<Byte>, first: nat, bytes: seq<Byte>)
    requires first + |bytes| <= cache.Length
    modifies cache
    ensures cache[first..first + |bytes|] == bytes
    ensures forall a :: 0 <= a < cache.Length && !(first <= a < first + |bytes|) ==> cache[a] == old(cache[a])
  {
    for i := 0 to |bytes|
      invariant cache[first..first + i] == bytes[..i]
      invariant forall a :: 0 <= a < cache.Length && !(first <= a < first + i) ==> cache[a] == old(cache[a])
    {
      cache[first + i] := bytes[i];
    }
  }

  /** One program. */
  method StoreRow(p: Pages, r: RowBytes, slot: int, cache: array<Byte>)
    requires p.Valid(cache.Length) && r.Valid()
    modifies cache
    ensures Stores(p, slot) ==> Holds(p, cache[..], slot, r)
    ensures forall a :: 0 <= a < cache.Length && !(Stores(p, slot) && p.Owns(slot, a)) ==> cache[a] == old(cache[a])
  {
    if slot >= 0 {
      if slot < p.Slots() {
        InPage(p, slot, cache.Length);
        var values, scales := p.ValueAt(slot, 0), p.ScaleAt(slot, 0);
        hide Pages.ValueAt, Pages.ScaleAt, Pages.Page, Pages.Token;
        StoreBytes(cache, values, r.values);
        ghost var stored := cache[..];
        StoreBytes(cache, scales, r.scale);
        assert cache[values..values + 128] == stored[values..values + 128];
      }
    }
  }

  /** Storing another row leaves the bytes of this one. */
  lemma {:induction false} OthersKeep(p: Pages, cache: seq<Byte>, cache': seq<Byte>, slot: int, other: int, r: RowBytes)
    requires p.Valid(|cache|) && |cache'| == |cache| && r.Valid() && Stores(p, slot) && slot != other
    requires Holds(p, cache, slot, r)
    requires forall a :: 0 <= a < |cache| && !(Stores(p, other) && p.Owns(other, a)) ==> cache'[a] == cache[a]
    ensures Holds(p, cache', slot, r)
  {
    InPage(p, slot, |cache|);
    forall a: nat | a < |cache| && p.Owns(slot, a)
      ensures cache'[a] == cache[a]
    {
      if Stores(p, other) && p.Owns(other, a) {
        OneOwner(p, |cache|, slot, other, a);
      }
    }
    var values, scales := p.ValueAt(slot, 0), p.ScaleAt(slot, 0);
    assert forall i :: values <= i < values + 128 ==> p.Owns(slot, i);
    assert forall i :: scales <= i < scales + 4 ==> p.Owns(slot, i);
    hide Pages.ValueAt, Pages.ScaleAt, Pages.Owns;
    assert cache'[values..values + 128] == cache[values..values + 128];
    assert cache'[scales..scales + 4] == cache[scales..scales + 4];
  }

  /** The bytes of row `r`, token `token` of page `page`: its values among those of the page, token by token, and its
      scale behind all of them. */
  ghost predicate RowStored(p: Pages, cache: seq<Byte>, page: nat, token: nat, r: RowBytes)
  {
    var values, scale := page * p.stride + token * 128, page * p.stride + p.blockSize * 128 + token * 4;
    && values + 128 <= |cache| && cache[values..values + 128] == r.values
    && scale + 4 <= |cache| && cache[scale..scale + 4] == r.scale
  }

  /** Neither the values nor the scale of that token are at `a`. */
  ghost predicate Elsewhere(p: Pages, page: nat, token: nat, a: nat)
  {
    && !(page * p.stride + token * 128 <= a < page * p.stride + token * 128 + 128)
    && !(page * p.stride + p.blockSize * 128 + token * 4 <= a < page * p.stride + p.blockSize * 128 + token * 4 + 4)
  }

  /** Slot `token + page * blockSize` is that token of that page. */
  ghost predicate IsSlot(p: Pages, slot: int, page: nat, token: nat)
  {
    page < p.numBlocks && token < p.blockSize && slot == page * p.blockSize + token
  }

  lemma {:induction false} SlotPlaces(p: Pages, slot: int, page: nat, token: nat)
    requires IsSlot(p, slot, page, token)
    ensures Stores(p, slot)
    ensures p.ValueAt(slot, 0) == page * p.stride + token * 128
    ensures p.ScaleAt(slot, 0) == page * p.stride + p.blockSize * 128 + token * 4
  {
    Joined(slot, page, token, p.blockSize);
    StartIsProduct(page, p.blockSize);
    StartIsProduct(page, p.stride);
    StartMonotone(page + 1, p.numBlocks, p.blockSize);
  }

  lemma {:induction false} HoldsIsStored(p: Pages, cache: seq<Byte>, slot: int, page: nat, token: nat, r: RowBytes)
    requires p.Valid(|cache|) && r.Valid() && IsSlot(p, slot, page, token) && Stores(p, slot)
    requires Holds(p, cache, slot, r)
    ensures RowStored(p, cache, page, token, r)
  {
    SlotPlaces(p, slot, page, token);
    InPage(p, slot, |cache|);
  }

  /** An address is free when no row is stored there. */
  ghost predicate Free(p: Pages, slots: seq<int>, a: nat)
  {
    forall i, page, token :: 0 <= i < |slots| && IsSlot(p, slots[i], page, token) ==> Elsewhere(p, page, token, a)
  }

  lemma {:induction false} FreeIsUnowned(p: Pages, slots: seq<int>, a: nat)
    requires p.blockSize > 0 && Free(p, slots, a)
    ensures Unowned(p, slots, a)
  {
    forall i | 0 <= i < |slots| && Stores(p, slots[i])
      ensures !p.Owns(slots[i], a)
    {
      var page, token := p.Page(slots[i]), p.Token(slots[i]);
      SlotParts(p, slots[i]);
      StartIsProduct(page, p.blockSize);
      assert IsSlot(p, slots[i], page, token);
      SlotPlaces(p, slots[i], page, token);
      assert Elsewhere(p, page, token, a);
    }
  }

  /** An address that belongs to no slot stored to. */
  predicate Unowned(p: Pages, slots: seq<int>, a: nat)
    requires p.blockSize > 0
  {
    forall i :: 0 <= i < |slots| && Stores(p, slots[i]) ==> !p.Owns(slots[i], a)
  }

  /** _scatter_indexer_int8_cache: programs run in any order. When no two rows store to the same slot, every row can be
      read back and no byte outside the slots of the rows changes. */
  method ScatterCache(p: Pages, rows: seq<RowBytes>, slots: seq<int>, cache: array<Byte>)
    requires p.Valid(cache.Length) && |slots| == |rows| && forall i :: 0 <= i < |rows| ==> rows[i].Valid()
    requires forall i, j :: 0 <= i < j < |slots| && Stores(p, slots[i]) ==> slots[i] != slots[j]
    modifies cache
    ensures forall i :: 0 <= i < |rows| && Stores(p, slots[i]) ==> Holds(p, cache[..], slots[i], rows[i])
    ensures forall a :: 0 <= a < cache.Length && Unowned(p, slots, a) ==> cache[a] == old(cache[a])
    ensures forall i, page, token :: 0 <= i < |rows| && IsSlot(p, slots[i], page, token) ==>
              RowStored(p, cache[..], page, token, rows[i])
    ensures forall a :: 0 <= a < cache.Length && Free(p, slots, a) ==> cache[a] == old(cache[a])
  {
    var todo: set<nat> := Upto(|rows|);
    while todo != {}
      invariant forall i :: i in todo ==> i < |rows|
      invariant forall i :: 0 <= i < |rows| && i !in todo && Stores(p, slots[i]) ==>
                  Holds(p, cache[..], slots[i], rows[i])
      invariant forall a :: 0 <= a < cache.Length && Unowned(p, slots, a) ==> cache[a] == old(cache[a])
    {
      var row :| row in todo;
      ghost var before := cache[..];
      StoreRow(p, rows[row], slots[row], cache);
      forall i | 0 <= i < |rows| && i !in todo - {row} && Stores(p, slots[i])
        ensures Holds(p, cache[..], slots[i], rows[i])
      {
        if i != row {
          OthersKeep(p, before, cache[..], slots[i], slots[row], rows[i]);
        }
      }
      todo := todo - {row};
    }
    forall i, page, token | 0 <= i < |rows| && IsSlot(p, slots[i], page, token)
      ensures RowStored(p, cache[..], page, token, rows[i])
    {
      SlotPlaces(p, slots[i], page, token);
      HoldsIsStored(p, cache[..], slots[i], page, token, rows[i]);
    }
    forall a | 0 <= a < cache.Length && Free(p, slots, a)
      ensures cache[a] == old(cache[a])
    {
      FreeIsUnowned(p, slots, a);
    }
  }
}
