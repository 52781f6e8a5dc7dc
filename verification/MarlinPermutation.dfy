/** The order in which the Marlin layout lists the 1024 codes of a group of tiles. */
module MarlinPermutation {
  import opened Wrappers
  import opened Sums
  import opened MixedRadix

  // ---------------------------------------------------------------- the layout, digit by digit

  /** Consecutive rows of a thread, and tiles in a group of 1024 codes. */
  function Width(a8: bool): nat { if a8 then 4 else 2 }

  function Offsets(a8: bool): nat { if a8 then 2 else 4 }

  /** Radices of a place in the list: a thread's column and quarter, tile, column half, row half, row. */
  function ListRadices(a8: bool): (r: seq<nat>)
  {
    [8, 4, Offsets(a8), 2, 2, Width(a8)]
  }

  /** Radices of a position in the group: tile, row half, quarter, row, column half, column. */
  function GroupRadices(a8: bool): (r: seq<nat>)
  {
    [Offsets(a8), 2, 4, Width(a8), 2, 8]
  }

  /** From the digits of a place in the list to those of the position it lists, and back. */
  function ToGroup(d: seq<nat>): seq<nat>
    requires |d| == 6
  {
    [d[2], d[4], d[1], d[5], d[3], d[0]]
  }

  function ToList(d: seq<nat>): seq<nat>
    requires |d| == 6
  {
    [d[5], d[2], d[0], d[4], d[1], d[3]]
  }

  lemma {:induction false} Sizes(a8: bool)
    ensures Radices(ListRadices(a8)) && Product(ListRadices(a8)) == 1024
    ensures Radices(GroupRadices(a8)) && Product(GroupRadices(a8)) == 1024
  {
    ProductSix(ListRadices(a8));
    ProductSix(GroupRadices(a8));
  }

  lemma {:induction false} ProductSix(r: seq<nat>)
    requires |r| == 6
    ensures Product(r) == r[0] * r[1] * r[2] * r[3] * r[4] * r[5]
  {
    assert r[..5][..4] == r[..4] && r[..4][..3] == r[..3] && r[..3][..2] == r[..2] && r[..2][..1] == r[..1]
           && r[..1][..0] == [];
    assert Product(r[..1]) == r[0];
    assert Product(r[..2]) == r[0] * r[1];
    assert Product(r[..3]) == r[0] * r[1] * r[2];
    assert Product(r[..4]) == r[0] * r[1] * r[2] * r[3];
    assert Product(r[..5]) == r[0] * r[1] * r[2] * r[3] * r[4];
  }

  /** Entry `j` of the list before interleaving. */
  function Raw(j: nat, a8: bool): nat
  {
    Sizes(a8);
    Encode(ToGroup(Decode(j, ListRadices(a8))), GroupRadices(a8))
  }

  /** Where that list has position `p`. */
  function RawSlot(p: nat, a8: bool): nat
  {
    Sizes(a8);
    Encode(ToList(Decode(p, GroupRadices(a8))), ListRadices(a8))
  }

  lemma {:induction false} RawInverse(x: nat, a8: bool)
    requires x < 1024
    ensures Raw(x, a8) < 1024 && RawSlot(Raw(x, a8), a8) == x
    ensures RawSlot(x, a8) < 1024 && Raw(RawSlot(x, a8), a8) == x
  {
    Sizes(a8);
    EncodeDecode(x, ListRadices(a8));
    DecodeEncode(ToGroup(Decode(x, ListRadices(a8))), GroupRadices(a8));
    EncodeDecode(x, GroupRadices(a8));
    DecodeEncode(ToList(Decode(x, GroupRadices(a8))), ListRadices(a8));
    assert ToList(ToGroup(Decode(x, ListRadices(a8)))) == Decode(x, ListRadices(a8));
    assert ToGroup(ToList(Decode(x, GroupRadices(a8)))) == Decode(x, GroupRadices(a8));
  }

  // ---------------------------------------------------------------- interleaving

  function Interleave(bits: nat, a8: bool): (s: seq<nat>)
    ensures |s| == if bits == 4 then 8 else 4
    ensures forall i :: 0 <= i < |s| ==> s[i] < |s|
  {
    if bits == 4 then if a8 then [0, 4, 1, 5, 2, 6, 3, 7] else [0, 2, 4, 6, 1, 3, 5, 7]
    else if a8 then [0, 1, 2, 3] else [0, 2, 1, 3]
  }

  /** The inverse of `Interleave`. */
  function Deinterleave(bits: nat, a8: bool): (s: seq<nat>)
    ensures |s| == |Interleave(bits, a8)|
    ensures forall i :: 0 <= i < |s| ==>
              s[i] < |s| && Interleave(bits, a8)[s[i]] == i && s[Interleave(bits, a8)[i]] == i
  {
    if bits == 4 then if a8 then [0, 2, 4, 6, 1, 3, 5, 7] else [0, 4, 1, 5, 2, 6, 3, 7]
    else if a8 then [0, 1, 2, 3] else [0, 2, 1, 3]
  }

  /** Rearranges within groups of 8 or 4. */
  function Regroup(j: nat, s: seq<nat>): nat
    requires |s| == 8 || |s| == 4
  {
    j - j % |s| + s[j % |s|]
  }

  lemma {:induction false} RegroupInverse(j: nat, s: seq<nat>, t: seq<nat>)
    requires (|s| == 8 || |s| == 4) && |t| == |s|
    requires forall i :: 0 <= i < |s| ==> s[i] < |s| && t[s[i]] == i
    requires j < 1024
    ensures Regroup(j, s) < 1024 && Regroup(Regroup(j, s), t) == j
  {
    var m := |s|;
    var q, c := Split(j, m);
    Joined(q * m + s[c], q, s[c], m);
    assert Regroup(j, s) == q * m + s[c];
    assert m == 8 ==> q < 128;
    assert m == 4 ==> q < 256;
  }

  // ---------------------------------------------------------------- the permutation

  /** Entry `j` of the permutation. */
  function Entry(j: nat, bits: nat, a8: bool): nat
  {
    Raw(Regroup(j, Interleave(bits, a8)), a8)
  }

  /** Where the permutation has position `p`. */
  function Slot(p: nat, bits: nat, a8: bool): nat
  {
    Regroup(RawSlot(p, a8), Deinterleave(bits, a8))
  }

  /** It is a permutation of `0 .. 1024`: `Slot` is its inverse on both sides. */
  lemma {:induction false} EntrySlotInverse(x: nat, bits: nat, a8: bool)
    requires x < 1024
    ensures Entry(x, bits, a8) < 1024 && Slot(Entry(x, bits, a8), bits, a8) == x
    ensures Slot(x, bits, a8) < 1024 && Entry(Slot(x, bits, a8), bits, a8) == x
  {
    var there, back := Interleave(bits, a8), Deinterleave(bits, a8);
    hide Raw, RawSlot, Regroup, Interleave, Deinterleave;
    RegroupInverse(x, there, back);
    RawInverse(Regroup(x, there), a8);
    RawInverse(x, a8);
    RegroupInverse(RawSlot(x, a8), back, there);
  }

  // ---------------------------------------------------------------- the loops that build it

  const UNSUPPORTED_WIDTH := "Marlin repacking supports 4 or 8 bits"

  /** Row `i` of the rows that a thread holds. */
  function RowOf(thread: nat, i: nat, a8: bool): nat
  {
    if a8 then if i < 4 then 4 * (thread % 4) + i else 4 * (thread % 4 + 4) + (i - 4)
    else if i < 2 then 2 * (thread % 4) + i else 2 * (thread % 4 + 4) + (i - 2)
  }

  /** The place of row `i`, column half `block` and tile `offset` of a thread, and the position it lists. */
  lemma {:induction false} PlaceOfRow(thread: nat, offset: nat, block: nat, i: nat, a8: bool)
    requires thread < 32 && offset < Offsets(a8) && block < 2 && i < 2 * Width(a8)
    ensures Raw(32 * thread + 4 * Width(a8) * offset + 2 * Width(a8) * block + i, a8)
         == 16 * RowOf(thread, i, a8) + thread / 4 + 8 * block + (if a8 then 512 else 256) * offset
  {
    var half, k := if i < Width(a8) then 0 else 1, if i < Width(a8) then i else i - Width(a8);
    var col, quarter := Split(thread, 4);
    DigitsListed(col, quarter, offset, block, half, k, a8);
  }

  lemma {:induction false} DigitsListed(col: nat, quarter: nat, offset: nat, block: nat, half: nat, k: nat, a8: bool)
    requires col < 8 && quarter < 4 && offset < Offsets(a8) && block < 2 && half < 2 && k < Width(a8)
    ensures Raw(32 * (col * 4 + quarter) + 4 * Width(a8) * offset + 2 * Width(a8) * block + (Width(a8) * half + k), a8)
         == 16 * (Width(a8) * (quarter + 4 * half) + k) + col + 8 * block + (if a8 then 512 else 256) * offset
  {
    var d := [col, quarter, offset, block, half, k];
    Sizes(a8);
    if a8 {
      EncodeSix(col, quarter, offset, block, half, k, 8, 4, 2, 2, 2, 4);
      EncodeSix(offset, half, quarter, k, block, col, 2, 2, 4, 4, 2, 8);
    } else {
      EncodeSix(col, quarter, offset, block, half, k, 8, 4, 4, 2, 2, 2);
      EncodeSix(offset, half, quarter, k, block, col, 4, 2, 4, 2, 2, 8);
    }
    DecodeEncode(d, ListRadices(a8));
    assert ToGroup(d) == [offset, half, quarter, k, block, col];
  }

  /** The rows a thread holds. */
  method ThreadRows(thread: nat, a8: bool) returns (rows: seq<nat>)
    ensures |rows| == 2 * Width(a8) && forall i :: 0 <= i < |rows| ==> rows[i] == RowOf(thread, i, a8)
  {
    if a8 {
      var low := seq(4, i requires 0 <= i => 4 * (thread % 4) + i);
      var high := seq(4, i requires 0 <= i => 4 * (thread % 4 + 4) + i);
      rows := low + high;
    } else {
      rows := [2 * (thread % 4), 2 * (thread % 4) + 1, 2 * (thread % 4 + 4), 2 * (thread % 4 + 4) + 1];
    }
  }

  /** The positions of one thread in the first tile: both column halves, row by row. */
  method ThreadTile(thread: nat, a8: bool) returns (tile: seq<nat>)
    ensures |tile| == 4 * Width(a8) && forall m :: 0 <= m < |tile| ==> tile[m] == TileEntry(thread, m, a8)
  {
    var rows := ThreadRows(thread, a8);
    var col := thread / 4;
    tile := [];
    for block := 0 to 2
      invariant |tile| == 2 * Width(a8) * block
      invariant forall m :: 0 <= m < |tile| ==> tile[m] == TileEntry(thread, m, a8)
    {
      tile := tile + seq(|rows|, i requires 0 <= i < |rows| => 16 * rows[i] + col + 8 * block);
    }
  }

  function TileEntry(thread: nat, m: nat, a8: bool): nat
  {
    if m < 2 * Width(a8) then 16 * RowOf(thread, m, a8) + thread / 4
    else 16 * RowOf(thread, m - 2 * Width(a8), a8) + thread / 4 + 8
  }

  /** The list holds the entries of its places so far. */
  ghost predicate Listed(permutation: seq<nat>, n: nat, a8: bool)
  {
    |permutation| == n && forall j :: 0 <= j < n ==> permutation[j] == Raw(j, a8)
  }

  lemma {:induction false} ExtendList(permutation: seq<nat>, shifted: seq<nat>, thread: nat, offset: nat, a8: bool)
    requires thread < 32 && offset < Offsets(a8)
    requires Listed(permutation, 32 * thread + 4 * Width(a8) * offset, a8)
    requires |shifted| == 4 * Width(a8)
    requires forall m :: 0 <= m < |shifted| ==>
               shifted[m] == TileEntry(thread, m, a8) + (if a8 then 512 else 256) * offset
    ensures Listed(permutation + shifted, 32 * thread + 4 * Width(a8) * (offset + 1), a8)
  {
    var n := |permutation|;
    forall j | n <= j < n + |shifted|
      ensures (permutation + shifted)[j] == Raw(j, a8)
    {
      var m := j - n;
      PlaceOfRow(thread, offset, if m < 2 * Width(a8) then 0 else 1, if m < 2 * Width(a8) then m
        else m - 2 * Width(a8), a8);
    }
  }

  /** The nested loops of the source, and the interleaving. */
  method WeightPermutation(bits: nat, a8: bool) returns (r: Result<seq<nat>>)
    ensures r.Ok? <==> bits == 4 || bits == 8
    ensures r.Err? ==> r.error == ValueError(UNSUPPORTED_WIDTH)
    ensures r.Ok? ==> |r.value| == 1024 && forall j :: 0 <= j < 1024 ==> r.value[j] == Entry(j, bits, a8)
  {
    if bits != 4 && bits != 8 {
      return Err(ValueError(UNSUPPORTED_WIDTH));
    }
    var permutation: seq<nat> := [];
    for thread := 0 to 32
      invariant Listed(permutation, 32 * thread, a8)
    {
      var tile := ThreadTile(thread, a8);
      for offset := 0 to Offsets(a8)
        invariant Listed(permutation, 32 * thread + 4 * Width(a8) * offset, a8)
      {
        var shifted: seq<nat> := seq(|tile|,
          m requires 0 <= m < |tile| => tile[m] + (if a8 then 512 else 256) * offset);
        ExtendList(permutation, shifted, thread, offset, a8);
        permutation := permutation + shifted;
      }
    }
    var interleave := Interleave(bits, a8);
    forall j | 0 <= j < 1024
      ensures Regroup(j, interleave) < 1024
    {
      RegroupInverse(j, interleave, Deinterleave(bits, a8));
    }
    r := Ok(seq(1024, j requires 0 <= j < 1024 => permutation[Regroup(j, interleave)]));
  }

  /** The place of a code among the 32 of its thread, in terms of its tile, column half, row half and row: fields of a
      word are neighbours. */
  function InThread(offset: nat, block: nat, half: nat, k: nat, bits: nat, a8: bool): nat
  {
    if bits == 4 then
      if a8 then 16 * offset + 8 * block + 2 * k + half else 8 * offset + 4 * k + 2 * block + half
    else
      if a8 then 16 * offset + 8 * block + 4 * half + k else 8 * offset + 4 * block + 2 * k + half
  }

  /** Where a position of the group goes: threads follow one another, column by column. */
  lemma {:induction false} SlotFromDigits(col: nat, quarter: nat, offset: nat, block: nat, half: nat, k: nat,
                                          bits: nat, a8: bool)
    requires col < 8 && quarter < 4 && offset < Offsets(a8) && block < 2 && half < 2 && k < Width(a8)
    requires bits == 4 || bits == 8
    ensures Slot(16 * (Width(a8) * (quarter + 4 * half) + k) + col + 8 * block + (if a8 then 512 else 256) * offset,
                 bits, a8)
         == 32 * (4 * col + quarter) + InThread(offset, block, half, k, bits, a8)
  {
    hide Raw, Slot, Regroup, Deinterleave, InThread;
    DigitsListed(col, quarter, offset, block, half, k, a8);
    SmallList(col, quarter, offset, block, half, k, a8);
    SlotOfEntry(32 * (col * 4 + quarter) + 4 * Width(a8) * offset + 2 * Width(a8) * block + (Width(a8) * half + k),
      bits, a8);
    Deinterleaved(4 * col + quarter, offset, block, half, k, bits, a8);
  }

  lemma {:induction false} SlotOfEntry(j: nat, bits: nat, a8: bool)
    requires j < 1024
    ensures Slot(Raw(j, a8), bits, a8) == Regroup(j, Deinterleave(bits, a8))
  {
    RawInverse(j, a8);
    hide Raw, RawSlot, Regroup, Deinterleave;
  }

  lemma {:induction false} SmallList(col: nat, quarter: nat, offset: nat, block: nat, half: nat, k: nat, a8: bool)
    requires col < 8 && quarter < 4 && offset < Offsets(a8) && block < 2 && half < 2 && k < Width(a8)
    ensures 32 * (col * 4 + quarter) + 4 * Width(a8) * offset + 2 * Width(a8) * block + (Width(a8) * half + k) < 1024
  {
  }

  lemma {:induction false} RegroupAt(j: nat, q: nat, c: nat, s: seq<nat>)
    requires (|s| == 8 || |s| == 4) && c < |s| && j == q * |s| + c
    ensures Regroup(j, s) == q * |s| + s[c]
  {
  }

  lemma {:induction false} Deinterleaved(thread: nat, offset: nat, block: nat, half: nat, k: nat, bits: nat, a8: bool)
    requires offset < Offsets(a8) && block < 2 && half < 2 && k < Width(a8)
    requires bits == 4 || bits == 8
    ensures var j := 32 * thread + 4 * Width(a8) * offset + 2 * Width(a8) * block + (Width(a8) * half + k);
            Regroup(j, Deinterleave(bits, a8)) == 32 * thread + InThread(offset, block, half, k, bits, a8)
  {
    var j := 32 * thread + 4 * Width(a8) * offset + 2 * Width(a8) * block + (Width(a8) * half + k);
    var s := Deinterleave(bits, a8);
    hide Regroup, Interleave;
    if bits == 4 {
      if a8 {
        RegroupAt(j, 4 * thread + 2 * offset + block, 4 * half + k, s);
      } else {
        RegroupAt(j, 4 * thread + offset, 4 * block + 2 * half + k, s);
      }
    } else if a8 {
      RegroupAt(j, 8 * thread + 4 * offset + 2 * block + half, k, s);
    } else {
      RegroupAt(j, 8 * thread + 2 * offset + block, 2 * half + k, s);
    }
  }
}
