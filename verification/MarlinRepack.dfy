/** gptq_marlin_repack: GPTQ weight words, repacked in the Marlin order. Tensors are given by their elements in row-
    major order, so reshaping leaves the sequence as it is, and permuting dimensions permutes the digits of an index. */
module MarlinRepack {
  import opened Wrappers
  import opened Sums
  import opened MixedRadix
  import opened Words
  import opened MarlinPermutation

  /** A K by N weight matrix of `bits`-bit codes; `kTiles` by `nTiles` tiles of `TileK` by 16. */
  datatype Shape = Shape(kTiles: nat, nTiles: nat, bits: nat, a8: bool)
  {
    predicate Valid()
    {
      kTiles > 0 && nTiles > 0 && nTiles % 4 == 0 && (bits == 4 || bits == 8)
    }

    function TileK(): nat { if a8 then 32 else 16 }
    function K(): nat { Start(kTiles, TileK()) }
    function N(): nat { Start(nTiles, 16) }
    function Pack(): nat { if bits == 4 then 8 else 4 }
    function Size(): nat { Start(K(), N()) }

    /** The word of a row of words that holds code `x`, and the field of that word. */
    function WordOf(x: nat): nat { x / Pack() }
    function FieldOf(x: nat): nat { x % Pack() }

    /** `unpacked.reshape(K / tileK, tileK, N / 16, 16)`, and that with its middle dimensions exchanged. */
    function Radices4(): seq<nat> { [kTiles, TileK(), nTiles, 16] }
    function Tiled4(): seq<nat> { [kTiles, nTiles, TileK(), 16] }
  }

  function Swap(d: seq<nat>): seq<nat>
    requires |d| == 4
  {
    [d[0], d[2], d[1], d[3]]
  }

  lemma {:induction false} ProductFour(r: seq<nat>)
    requires |r| == 4
    ensures Product(r) == r[0] * r[1] * r[2] * r[3]
  {
    assert r[..3][..2] == r[..2] && r[..2][..1] == r[..1] && r[..1][..0] == [];
    assert Product(r[..1]) == r[0];
    assert Product(r[..2]) == r[0] * r[1];
    assert Product(r[..3]) == r[0] * r[1] * r[2];
  }

  lemma {:induction false} ShapeFacts(s: Shape)
    requires s.Valid()
    ensures Radices(s.Radices4()) && Radices(s.Tiled4())
    ensures Product(s.Radices4()) == Product(s.Tiled4()) == s.Size()
    ensures s.N() > 0 && s.K() > 0
    ensures s.Size() % 1024 == 0
  {
    ProductFour(s.Radices4());
    ProductFour(s.Tiled4());
    StartIsProduct(s.kTiles, s.TileK());
    StartIsProduct(s.nTiles, 16);
    StartIsProduct(s.K(), s.N());
    Reorder(s.kTiles, s.TileK(), s.nTiles);
    StartMonotone(1, s.kTiles, s.TileK());
  }

  lemma {:induction false} Reorder(k: nat, t: nat, n: nat)
    requires (t == 16 || t == 32) && n % 4 == 0
    ensures k * t * n * 16 == k * n * t * 16 == (k * t) * (n * 16)
    ensures (k * t * n * 16) % 1024 == 0
  {
    var m := n / 4;
    assert n == 4 * m;
    if t == 16 {
      assert k * 16 * n * 16 == (k * m) * 1024;
      Joined((k * m) * 1024, k * m, 0, 1024);
    } else {
      assert k * 32 * n * 16 == (k * m * 2) * 1024;
      Joined((k * m * 2) * 1024, k * m * 2, 0, 1024);
    }
  }

  // ---------------------------------------------------------------- where every code goes

  /** Index of a code after `permute(0, 2, 1, 3)`, and back. */
  function TileOf(x: nat, s: Shape): nat
    requires s.Valid()
  {
    ShapeFacts(s);
    Encode(Swap(Decode(x, s.Radices4())), s.Tiled4())
  }

  function UnTile(x: nat, s: Shape): nat
    requires s.Valid()
  {
    ShapeFacts(s);
    Encode(Swap(Decode(x, s.Tiled4())), s.Radices4())
  }

  lemma {:induction false} TileInverse(x: nat, s: Shape)
    requires s.Valid() && x < s.Size()
    ensures TileOf(x, s) < s.Size() && UnTile(TileOf(x, s), s) == x
    ensures UnTile(x, s) < s.Size() && TileOf(UnTile(x, s), s) == x
  {
    ShapeFacts(s);
    EncodeDecode(x, s.Radices4());
    DecodeEncode(Swap(Decode(x, s.Radices4())), s.Tiled4());
    EncodeDecode(x, s.Tiled4());
    DecodeEncode(Swap(Decode(x, s.Tiled4())), s.Radices4());
    assert Swap(Swap(Decode(x, s.Radices4()))) == Decode(x, s.Radices4());
    assert Swap(Swap(Decode(x, s.Tiled4()))) == Decode(x, s.Tiled4());
  }

  /** `index_select` within every group of 1024. */
  function Selects(x: nat, s: Shape): nat
  {
    x / 1024 * 1024 + Entry(x % 1024, s.bits, s.a8)
  }

  function Selected(x: nat, s: Shape): nat
  {
    x / 1024 * 1024 + Slot(x % 1024, s.bits, s.a8)
  }

  lemma {:induction false} SelectInverse(x: nat, s: Shape)
    requires s.Valid() && x < s.Size()
    ensures Selects(x, s) < s.Size() && Selected(Selects(x, s), s) == x
    ensures Selected(x, s) < s.Size() && Selects(Selected(x, s), s) == x
  {
    ShapeFacts(s);
    SelectThenBack(x, s);
    BackThenSelect(x, s);
  }

  lemma {:induction false} SelectThenBack(x: nat, s: Shape)
    requires s.Size() % 1024 == 0 && x < s.Size()
    ensures Selects(x, s) < s.Size() && Selected(Selects(x, s), s) == x
  {
    hide Entry, Slot, Shape.Size;
    EntrySlotInverse(x % 1024, s.bits, s.a8);
    GroupMove(x, Entry(x % 1024, s.bits, s.a8), s.Size());
  }

  lemma {:induction false} BackThenSelect(x: nat, s: Shape)
    requires s.Size() % 1024 == 0 && x < s.Size()
    ensures Selected(x, s) < s.Size() && Selects(Selected(x, s), s) == x
  {
    hide Entry, Slot, Shape.Size;
    EntrySlotInverse(x % 1024, s.bits, s.a8);
    GroupMove(x, Slot(x % 1024, s.bits, s.a8), s.Size());
  }

  /** Moving within a group of 1024 stays in the group. */
  lemma {:induction false} GroupMove(x: nat, e: nat, size: nat)
    requires x < size && size % 1024 == 0 && e < 1024
    ensures x / 1024 * 1024 + e < size
    ensures (x / 1024 * 1024 + e) / 1024 == x / 1024 && (x / 1024 * 1024 + e) % 1024 == e
    ensures x == x / 1024 * 1024 + x % 1024
  {
    Joined(x / 1024 * 1024 + e, x / 1024, e, 1024);
  }

  /** The position in the output of code `x` of the source, and back. */
  function Where(x: nat, s: Shape): nat
    requires s.Valid()
  {
    Selected(TileOf(x, s), s)
  }

  function Source(q: nat, s: Shape): nat
    requires s.Valid()
  {
    UnTile(Selects(q, s), s)
  }

  /** Every code of the source has exactly one position in the output, and every position of the output one code. */
  lemma {:induction false} WhereIsBijection(x: nat, s: Shape)
    requires s.Valid() && x < s.Size()
    ensures Where(x, s) < s.Size() && Source(Where(x, s), s) == x
    ensures Source(x, s) < s.Size() && Where(Source(x, s), s) == x
  {
    TileInverse(x, s);
    SelectInverse(TileOf(x, s), s);
    SelectInverse(x, s);
    TileInverse(Selects(x, s), s);
  }

  // ---------------------------------------------------------------- the place of every code, as arithmetic

  /** The group of 1024 codes with code `(k, n)`: four tiles of 16 by 16, or two of 32 by 16, next to each other. */
  function GroupFor(k: nat, n: nat, sizeN: nat, a8: bool): nat
  {
    if a8 then k / 32 * (sizeN / 32) + n / 32 else k / 16 * (sizeN / 64) + n / 64
  }

  /** Its thread: the column modulo 8, then the pair or quadruple of rows. */
  function ThreadFor(k: nat, n: nat, a8: bool): nat
  {
    4 * (n % 8) + if a8 then k % 16 / 4 else k % 8 / 2
  }

  /** The word of the output that holds the code, and the field of that word. */
  function WordFor(k: nat, n: nat, sizeN: nat, bits: nat, a8: bool): nat
  {
    if bits == 4 then
      128 * GroupFor(k, n, sizeN, a8) + 4 * ThreadFor(k, n, a8)
      + if a8 then 2 * (n / 16 % 2) + n / 8 % 2 else n / 16 % 4
    else
      256 * GroupFor(k, n, sizeN, a8) + 8 * ThreadFor(k, n, a8)
      + if a8 then 4 * (n / 16 % 2) + 2 * (n / 8 % 2) + k / 16 % 2 else 2 * (n / 16 % 4) + n / 8 % 2
  }

  function FieldFor(k: nat, n: nat, bits: nat, a8: bool): nat
  {
    if bits == 4 then
      if a8 then 2 * (k % 4) + k / 16 % 2 else 4 * (k % 2) + 2 * (n / 8 % 2) + k / 8 % 2
    else
      if a8 then k % 4 else 2 * (k % 2) + k / 8 % 2
  }

  /** The position of that field in the output. */
  function PositionFor(k: nat, n: nat, sizeN: nat, bits: nat, a8: bool): nat
  {
    (if bits == 4 then 8 * WordFor(k, n, sizeN, bits, a8) else 4 * WordFor(k, n, sizeN, bits, a8))
    + FieldFor(k, n, bits, a8)
  }

  lemma {:induction false} EncodeFour(a: nat, b: nat, c: nat, d: nat, w: nat, x: nat, y: nat, z: nat)
    ensures Encode([a, b, c, d], [w, x, y, z]) == ((a * x + b) * y + c) * z + d
  {
    var r, all := [w, x, y, z], [a, b, c, d];
    assert all[..3] == [a, b, c] && r[..3][2] == r[2];
    assert [a, b, c][..2] == [a, b] && r[..3][..2] == r[..2];
    assert [a, b][..1] == [a] && r[..2][..1] == r[..1];
    assert [a][..0] == [] && r[..1][..0] == [];
    assert Encode([a], r[..1]) == a;
    assert Encode([a, b], r[..2]) == a * x + b;
    assert Encode([a, b, c], r[..3]) == (a * x + b) * y + c;
  }

  /** The index of a code among the tiles. */
  lemma {:induction false} TileOfDigits(x: nat, kt: nat, r: nat, nt: nat, c: nat, s: Shape)
    requires s.Valid() && kt < s.kTiles && r < s.TileK() && nt < s.nTiles && c < 16
    requires x == ((kt * s.TileK() + r) * s.nTiles + nt) * 16 + c
    ensures TileOf(x, s) == ((kt * s.nTiles + nt) * s.TileK() + r) * 16 + c
  {
    ShapeFacts(s);
    EncodeFour(kt, r, nt, c, s.kTiles, s.TileK(), s.nTiles, 16);
    EncodeFour(kt, nt, r, c, s.kTiles, s.nTiles, s.TileK(), 16);
    DecodeEncode([kt, r, nt, c], s.Radices4());
  }

  lemma {:induction false} RowMajor(k: nat, n: nat, kt: nat, r: nat, nt: nat, c: nat, t: nat, nTiles: nat)
    requires k == kt * t + r && n == nt * 16 + c
    ensures k * (nTiles * 16) + n == ((kt * t + r) * nTiles + nt) * 16 + c
  {
    assert k * (nTiles * 16) == (k * nTiles) * 16;
  }

  /** Tiles next to each other form a group. */
  lemma {:induction false} TilesOfGroup(kt: nat, nt: nat, nTiles: nat, span: nat, m: nat)
    requires span > 0 && nTiles == m * span
    ensures kt * nTiles + nt == (kt * m + nt / span) * span + nt % span
  {
    assert kt * (m * span) == (kt * m) * span;
  }

  /** The position of a code within its group, before the permutation. */
  function InGroup(k: nat, n: nat, a8: bool): nat
  {
    16 * (if a8 then k % 32 else k % 16) + n % 16 + (if a8 then 512 * (n / 16 % 2) else 256 * (n / 16 % 4))
  }

  /** And after it: threads follow one another. */
  function AfterPermutation(k: nat, n: nat, bits: nat, a8: bool): nat
  {
    32 * ThreadFor(k, n, a8)
    + if a8 then InThread(n / 16 % 2, n / 8 % 2, k / 16 % 2, k % 4, bits, a8)
      else InThread(n / 16 % 4, n / 8 % 2, k / 8 % 2, k % 2, bits, a8)
  }

  lemma {:induction false} TileOfCode(k: nat, n: nat, s: Shape)
    requires s.Valid() && k < s.K() && n < s.N()
    ensures TileOf(Start(k, s.N()) + n, s) == 1024 * GroupFor(k, n, s.N(), s.a8) + InGroup(k, n, s.a8)
  {
    var t := s.TileK();
    StartIsProduct(k, s.N());
    StartIsProduct(s.nTiles, 16);
    StartIsProduct(s.kTiles, t);
    DivBelow(k, s.kTiles, t);
    hide TileOf, Start;
    RowMajor(k, n, k / t, k % t, n / 16, n % 16, t, s.nTiles);
    TileOfDigits(k * (s.nTiles * 16) + n, k / t, k % t, n / 16, n % 16, s);
    if s.a8 {
      WideGroup(k / 32, n, s.nTiles);
    } else {
      NarrowGroup(k / 16, n, s.nTiles);
    }
  }

  lemma {:induction false} WideGroup(kt: nat, n: nat, nTiles: nat)
    requires nTiles % 4 == 0
    ensures kt * nTiles + n / 16 == (kt * (nTiles * 16 / 32) + n / 32) * 2 + n / 16 % 2
  {
    TilesOfGroup(kt, n / 16, nTiles, 2, nTiles * 16 / 32);
  }

  lemma {:induction false} NarrowGroup(kt: nat, n: nat, nTiles: nat)
    requires nTiles % 4 == 0
    ensures kt * nTiles + n / 16 == (kt * (nTiles * 16 / 64) + n / 64) * 4 + n / 16 % 4
  {
    TilesOfGroup(kt, n / 16, nTiles, 4, nTiles * 16 / 64);
  }

  lemma {:induction false} ColumnDigits(n: nat)
    ensures n % 16 == n % 8 + 8 * (n / 8 % 2)
  {
  }

  lemma {:induction false} NarrowRows(k: nat)
    ensures k % 16 == 2 * (k % 8 / 2 + 4 * (k / 8 % 2)) + k % 2
  {
    ColumnDigits(k);
    LowDigit(k, k / 8, k % 8);
  }

  lemma {:induction false} LowDigit(k: nat, q: nat, r: nat)
    requires k == 8 * q + r
    ensures r % 2 == k % 2
  {
  }

  lemma {:induction false} WideRows(k: nat)
    ensures k % 32 == 4 * (k % 16 / 4 + 4 * (k / 16 % 2)) + k % 4
  {
    HighDigit(k);
    LowDigits(k, k / 16, k % 16);
  }

  lemma {:induction false} HighDigit(k: nat)
    ensures k % 32 == k % 16 + 16 * (k / 16 % 2)
  {
  }

  lemma {:induction false} LowDigits(k: nat, q: nat, r: nat)
    requires k == 16 * q + r
    ensures r % 4 == k % 4
  {
  }

  lemma {:induction false} SlotOfCode(k: nat, n: nat, bits: nat, a8: bool)
    requires bits == 4 || bits == 8
    ensures InGroup(k, n, a8) < 1024
    ensures Slot(InGroup(k, n, a8), bits, a8)
         == AfterPermutation(k, n, bits, a8)
  {
    hide Slot, InThread;
    ColumnDigits(n);
    if a8 {
      WideRows(k);
      SlotAt(InGroup(k, n, a8), n % 8, k % 16 / 4, n / 16 % 2, n / 8 % 2, k / 16 % 2, k % 4, bits, a8);
    } else {
      NarrowRows(k);
      SlotAt(InGroup(k, n, a8), n % 8, k % 8 / 2, n / 16 % 4, n / 8 % 2, k / 8 % 2, k % 2, bits, a8);
    }
  }

  lemma {:induction false} SlotAt(p: nat, col: nat, quarter: nat, offset: nat, block: nat, half: nat, row: nat,
                                  bits: nat, a8: bool)
    requires col < 8 && quarter < 4 && offset < Offsets(a8) && block < 2 && half < 2 && row < Width(a8)
    requires bits == 4 || bits == 8
    requires p == 16 * (Width(a8) * (quarter + 4 * half) + row) + (col + 8 * block)
                  + if a8 then 512 * offset else 256 * offset
    ensures p < 1024
    ensures Slot(p, bits, a8) == 32 * (4 * col + quarter) + InThread(offset, block, half, row, bits, a8)
  {
    hide Slot, InThread;
    SlotFromDigits(col, quarter, offset, block, half, row, bits, a8);
  }

  lemma {:induction false} SelectedAt(group: nat, p: nat, s: Shape)
    requires p < 1024
    ensures Selected(1024 * group + p, s) == 1024 * group + Slot(p, s.bits, s.a8)
  {
    hide Slot;
  }

  lemma {:induction false} InWord(group: nat, thread: nat, offset: nat, block: nat, half: nat, row: nat, bits: nat)
    requires bits == 4 || bits == 8
    ensures 1024 * group + (32 * thread + InThread(offset, block, half, row, bits, true))
         == if bits == 4 then 8 * (128 * group + 4 * thread + (2 * offset + block)) + (2 * row + half)
            else 4 * (256 * group + 8 * thread + (4 * offset + 2 * block + half)) + row
    ensures 1024 * group + (32 * thread + InThread(offset, block, half, row, bits, false))
         == if bits == 4 then 8 * (128 * group + 4 * thread + offset) + (4 * row + 2 * block + half)
            else 4 * (256 * group + 8 * thread + (2 * offset + block)) + (2 * row + half)
  {
  }

  /** Group, thread and place in the thread make up word and field. */
  lemma {:induction false} WordAndField(k: nat, n: nat, s: Shape)
    requires s.bits == 4 || s.bits == 8
    ensures FieldFor(k, n, s.bits, s.a8) < s.Pack()
    ensures PositionFor(k, n, s.N(), s.bits, s.a8)
         == 1024 * GroupFor(k, n, s.N(), s.a8) + AfterPermutation(k, n, s.bits, s.a8)
  {
    hide GroupFor, ThreadFor, InThread, Shape.N;
    var group, thread := GroupFor(k, n, s.N(), s.a8), ThreadFor(k, n, s.a8);
    if s.a8 {
      InWord(group, thread, n / 16 % 2, n / 8 % 2, k / 16 % 2, k % 4, s.bits);
    } else {
      InWord(group, thread, n / 16 % 4, n / 8 % 2, k / 8 % 2, k % 2, s.bits);
    }
  }

  lemma {:induction false} WhereFrom(x: nat, s: Shape)
    requires s.Valid()
    ensures s.bits == 4 || s.bits == 8
    ensures Where(x, s) == Selected(TileOf(x, s), s)
  {
  }

  /** Code `(k, n)` goes to field `FieldFor` of word `WordFor`. */
  lemma {:induction false} PlaceOfCode(k: nat, n: nat, s: Shape)
    requires s.Valid() && k < s.K() && n < s.N()
    ensures FieldFor(k, n, s.bits, s.a8) < s.Pack()
    ensures Where(Start(k, s.N()) + n, s) == PositionFor(k, n, s.N(), s.bits, s.a8)
  {
    hide *;
    WhereFrom(Start(k, s.N()) + n, s);
    WordAndField(k, n, s);
    TileOfCode(k, n, s);
    SlotOfCode(k, n, s.bits, s.a8);
    SelectedAt(GroupFor(k, n, s.N(), s.a8), InGroup(k, n, s.a8), s);
  }

  // ---------------------------------------------------------------- codes

  /** Words of the GPTQ tensor `[K / pack, N]`. */
  ghost predicate IsWeight(w: seq<int>, s: Shape)
  {
    && |w| == Start(s.WordOf(s.K()), s.N())
    && forall i :: 0 <= i < |w| ==> IsInt32(w[i])
  }

  /** Code `(k, n)` of the source: field `k % pack` of word `(k / pack, n)`. */
  function Code(w: seq<int>, k: nat, n: nat, s: Shape): nat
    requires Start(s.WordOf(k), s.N()) + n < |w|
  {
    Field(w[Start(s.WordOf(k), s.N()) + n], Start(s.FieldOf(k), s.bits), s.bits)
  }

  lemma {:induction false} CodeExists(k: nat, n: nat, s: Shape)
    requires s.Valid() && k < s.K() && n < s.N()
    ensures Start(s.WordOf(k), s.N()) + n < Start(s.WordOf(s.K()), s.N())
    ensures Start(k, s.N()) + n < s.Size()
  {
    PackDivides(s);
    var q, r := Split(k, s.Pack());
    DivBelow(k, s.WordOf(s.K()), s.Pack());
    StartMonotone(s.WordOf(k) + 1, s.WordOf(s.K()), s.N());
    StartMonotone(k + 1, s.K(), s.N());
  }

  lemma {:induction false} PackDivides(s: Shape)
    requires s.Valid()
    ensures s.K() == (s.WordOf(s.K())) * s.Pack()
  {
    StartIsProduct(s.kTiles, s.TileK());
    var m := s.TileK() / s.Pack();
    assert s.TileK() == m * s.Pack();
    assert s.kTiles * (m * s.Pack()) == (s.kTiles * m) * s.Pack();
    Joined(s.K(), s.kTiles * m, 0, s.Pack());
  }

  /** Field `q % pack` of word `q / pack` of the output. */
  function OutCode(out: seq<int>, q: nat, s: Shape): nat
    requires s.WordOf(q) < |out|
  {
    Field(out[s.WordOf(q)], Start(s.FieldOf(q), s.bits), s.bits)
  }

  /** The output holds every code of the source at its position. */
  ghost predicate Repacked(out: seq<int>, w: seq<int>, s: Shape)
    requires s.Valid() && IsWeight(w, s)
  {
    && (forall x :: 0 <= x < |out| ==> IsInt32(out[x]))
    && (forall q :: 0 <= q < s.Size() ==> s.WordOf(q) < |out|)
    && forall k, n :: 0 <= k < s.K() && 0 <= n < s.N() ==> CodeKept(out, w, k, n, s)
  }

  ghost predicate CodeKept(out: seq<int>, w: seq<int>, k: nat, n: nat, s: Shape)
    requires s.Valid() && IsWeight(w, s) && k < s.K() && n < s.N()
  {
    CodeExists(k, n, s);
    var q := Where(Start(k, s.N()) + n, s);
    s.WordOf(q) < |out| && OutCode(out, q, s) == Code(w, k, n, s)
  }

  // ---------------------------------------------------------------- the repacking

  /** `(w[:, None, :] >> shifts) & mask`, reshaped to `[K, N]`. */
  function Unpacked(w: seq<int>, s: Shape): (u: seq<nat>)
    requires s.Valid() && IsWeight(w, s)
    ensures |u| == s.Size()
    ensures forall x :: 0 <= x < |u| ==> u[x] < Pow2(s.bits)
  {
    seq(s.Size(), x requires 0 <= x < s.Size() => UnpackedCode(w, x, s))
  }

  function UnpackedCode(w: seq<int>, x: nat, s: Shape): (c: nat)
    requires s.Valid() && IsWeight(w, s) && x < s.Size()
    ensures c < Pow2(s.bits)
  {
    RowCol(x, s);
    CodeExists(x / s.N(), x % s.N(), s);
    Code(w, x / s.N(), x % s.N(), s)
  }

  lemma {:induction false} RowCol(x: nat, s: Shape)
    requires s.Valid() && x < s.Size()
    ensures s.N() > 0 && x / s.N() < s.K() && x % s.N() < s.N()
  {
    ShapeFacts(s);
    StartIsProduct(s.K(), s.N());
    DivBelow(x, s.K(), s.N());
  }

  lemma {:induction false} UnpackedAt(w: seq<int>, s: Shape, k: nat, n: nat)
    requires s.Valid() && IsWeight(w, s) && k < s.K() && n < s.N()
    ensures Start(k, s.N()) + n < s.Size() && Start(s.WordOf(k), s.N()) + n < |w|
    ensures Unpacked(w, s)[Start(k, s.N()) + n] == Code(w, k, n, s)
  {
    CodeExists(k, n, s);
    StartIsProduct(k, s.N());
    Joined(Start(k, s.N()) + n, k, n, s.N());
  }

  /** The reordered codes, before packing. */
  function Reordered(u: seq<nat>, s: Shape): (t: seq<nat>)
    requires s.Valid() && |u| == s.Size()
    ensures |t| == |u|
    ensures forall q :: 0 <= q < |t| ==> Source(q, s) < |u| && t[q] == u[Source(q, s)]
  {
    assert forall q :: 0 <= q < s.Size() ==> Source(q, s) < s.Size() by {
      forall q | 0 <= q < s.Size()
        ensures Source(q, s) < s.Size()
      {
        WhereIsBijection(q, s);
      }
    }
    seq(s.Size(), q requires 0 <= q < s.Size() => u[Source(q, s)])
  }

  /** Word `x` holds the codes of its first `n` fields. */
  ghost predicate WordHolds(word: int, t: seq<nat>, x: nat, n: nat, s: Shape)
  {
    && IsInt32(word) && Start(x, s.Pack()) + n <= |t|
    && Pattern(word) == Words.Packed(t[Start(x, s.Pack())..Start(x, s.Pack()) + n], s.bits)
  }

  lemma {:induction false} OrField(word: int, t: seq<nat>, x: nat, n: nat, s: Shape)
    requires s.Valid() && WordHolds(word, t, x, n, s) && n < s.Pack() && Start(x, s.Pack()) + n < |t|
    requires Fields(t, s.bits)
    ensures var v := Shl(t[Start(x, s.Pack()) + n], Start(n, s.bits));
            v < WORD && Or(Pattern(word), v) < WORD && WordHolds(Or32(word, Signed(v)), t, x, n + 1, s)
  {
    hide *;
    HeldFields(word, t, x, n, s);
    var first := Start(x, s.Pack());
    var f, g := t[first..first + n], t[first..first + n + 1];
    Slices(t, first, n, s.bits);
    PackedBelow(f, s.bits);
    PackedBelow(g, s.bits);
    OrAbove(Pattern(word), g[n], Start(n, s.bits));
    FieldsFit(s, n + 1);
    PackedLast(g, s.bits);
    MoreFields(word, Shl(g[n], Start(n, s.bits)), t, x, n, s);
  }

  lemma {:induction false} HeldFields(word: int, t: seq<nat>, x: nat, n: nat, s: Shape)
    requires WordHolds(word, t, x, n, s)
    ensures IsInt32(word) && Start(x, s.Pack()) + n <= |t|
    ensures Pattern(word) == Words.Packed(t[Start(x, s.Pack())..Start(x, s.Pack()) + n], s.bits)
  {
  }

  lemma {:induction false} MoreFields(word: int, v: nat, t: seq<nat>, x: nat, n: nat, s: Shape)
    requires IsInt32(word) && Start(x, s.Pack()) + n < |t|
    requires Or(Pattern(word), v) == Pattern(word) + v < WORD
    requires Pattern(word) + v == Words.Packed(t[Start(x, s.Pack())..Start(x, s.Pack()) + n + 1], s.bits)
    ensures v < WORD && WordHolds(Or32(word, Signed(v)), t, x, n + 1, s)
  {
    hide Or, Words.Packed, Start, Shape.Pack;
  }

  lemma {:induction false} Slices(t: seq<nat>, first: nat, n: nat, bits: nat)
    requires first + n < |t| && Fields(t, bits)
    ensures t[first..first + n + 1][..n] == t[first..first + n] && t[first..first + n + 1][n] == t[first + n]
    ensures Fields(t[first..first + n], bits) && Fields(t[first..first + n + 1], bits)
  {
  }

  lemma {:induction false} PackedLast(g: seq<nat>, bits: nat)
    requires |g| > 0
    ensures Words.Packed(g, bits) == Words.Packed(g[..|g| - 1], bits) + Shl(g[|g| - 1], Start(|g| - 1, bits))
  {
  }

  /** The fields of a word lie within it. */
  lemma {:induction false} FieldsFit(s: Shape, n: nat)
    requires s.Valid() && n <= s.Pack()
    ensures Pow2(Start(n, s.bits)) <= WORD
  {
    Pow2Of32();
    StartMonotone(n, s.Pack(), s.bits);
    StartIsProduct(s.Pack(), s.bits);
    Pow2Monotone(Start(n, s.bits), 32);
  }

  /** The in-place packing: field after field is or-ed into all words. */
  method PackWords(t: seq<nat>, words: nat, s: Shape) returns (packed: array<int>)
    requires s.Valid() && |t| == Start(words, s.Pack()) && Fields(t, s.bits)
    ensures fresh(packed) && packed.Length == words
    ensures forall x :: 0 <= x < words ==> WordHolds(packed[x], t, x, s.Pack(), s)
  {
    packed := new int[words](_ => 0);
    WordsInRange(words, s);
    for i := 0 to s.Pack()
      invariant forall x :: 0 <= x < words ==> WordHolds(packed[x], t, x, i, s)
    {
      for x := 0 to words
        invariant forall y :: 0 <= y < x ==> WordHolds(packed[y], t, y, i + 1, s)
        invariant forall y :: x <= y < words ==> WordHolds(packed[y], t, y, i, s)
      {
        OrField(packed[x], t, x, i, s);
        packed[x] := Or32(packed[x], Signed(Shl(t[Start(x, s.Pack()) + i], Start(i, s.bits))));
      }
    }
  }

  lemma {:induction false} WordsInRange(words: nat, s: Shape)
    ensures forall x :: 0 <= x < words ==> Start(x, s.Pack()) + s.Pack() <= Start(words, s.Pack())
  {
    forall x | 0 <= x < words
      ensures Start(x, s.Pack()) + s.Pack() <= Start(words, s.Pack())
    {
      StartMonotone(x + 1, words, s.Pack());
    }
  }

  lemma {:induction false} WordField(word: int, t: seq<nat>, x: nat, i: nat, s: Shape)
    requires s.Valid() && WordHolds(word, t, x, s.Pack(), s) && i < s.Pack() && Fields(t, s.bits)
    ensures Field(word, Start(i, s.bits), s.bits) == t[Start(x, s.Pack()) + i]
  {
    var f := t[Start(x, s.Pack())..Start(x, s.Pack()) + s.Pack()];
    PackedField(f, s.bits, i);
    StartMonotone(i + 1, s.Pack(), s.bits);
    StartIsProduct(s.Pack(), s.bits);
    SignedField(Pattern(word), Start(i, s.bits), s.bits);
    assert Signed(Pattern(word)) == word;
  }

  lemma {:induction false} WordIndex(q: nat, words: nat, s: Shape)
    requires s.Valid() && q < Start(words, s.Pack())
    ensures s.WordOf(q) < words && q == Start(s.WordOf(q), s.Pack()) + s.FieldOf(q)
  {
    StartIsProduct(words, s.Pack());
    StartIsProduct(s.WordOf(q), s.Pack());
    DivBelow(q, words, s.Pack());
  }

  lemma {:induction false} PackedHolds(out: seq<int>, w: seq<int>, s: Shape)
    requires s.Valid() && IsWeight(w, s) && s.Size() == Start(|out|, s.Pack())
    requires forall x :: 0 <= x < |out| ==> WordHolds(out[x], Reordered(Unpacked(w, s), s), x, s.Pack(), s)
    ensures Repacked(out, w, s)
  {
    forall q | 0 <= q < s.Size()
      ensures s.WordOf(q) < |out|
    {
      WordIndex(q, |out|, s);
    }
    forall k, n | 0 <= k < s.K() && 0 <= n < s.N()
      ensures CodeKept(out, w, k, n, s)
    {
      CodeHolds(out, w, k, n, s);
    }
  }

  lemma {:induction false} CodeHolds(out: seq<int>, w: seq<int>, k: nat, n: nat, s: Shape)
    requires s.Valid() && IsWeight(w, s) && s.Size() == Start(|out|, s.Pack()) && k < s.K() && n < s.N()
    requires forall x :: 0 <= x < |out| ==> WordHolds(out[x], Reordered(Unpacked(w, s), s), x, s.Pack(), s)
    ensures CodeKept(out, w, k, n, s)
  {
    UnpackedAt(w, s, k, n);
    WhereIsBijection(Start(k, s.N()) + n, s);
    OutCodeIs(out, Reordered(Unpacked(w, s), s), Where(Start(k, s.N()) + n, s), s);
    hide Where, Source, OutCode, Code, Unpacked, WordHolds;
  }

  lemma {:induction false} OutCodeIs(out: seq<int>, t: seq<nat>, q: nat, s: Shape)
    requires s.Valid() && |t| == Start(|out|, s.Pack()) && q < |t| && Fields(t, s.bits)
    requires forall x :: 0 <= x < |out| ==> WordHolds(out[x], t, x, s.Pack(), s)
    ensures s.WordOf(q) < |out| && OutCode(out, q, s) == t[q]
  {
    hide WordHolds, Field;
    WordIndex(q, |out|, s);
    WordField(out[s.WordOf(q)], t, s.WordOf(q), s.FieldOf(q), s);
  }

  lemma {:induction false} SizeInWords(s: Shape)
    requires s.Valid()
    ensures s.Size() == Start(s.WordOf(s.Size()), s.Pack())
  {
    ShapeFacts(s);
    StartIsProduct(s.WordOf(s.Size()), s.Pack());
    WholeWords(s.Size(), s.Pack());
  }

  lemma {:induction false} WholeWords(x: nat, pack: nat)
    requires x % 1024 == 0 && (pack == 4 || pack == 8)
    ensures x == x / pack * pack
  {
    Joined(x, x / 1024 * if pack == 4 then 256 else 128, 0, pack);
  }

  /** The code in row `k` and column `n` of the weights, in the source field `k` modulo the fields of a word, is in its
      field and word of the output. */
  ghost predicate CodeMoved(out: seq<int>, w: seq<int>, k: nat, n: nat, sizeN: nat, bits: nat, a8: bool)
    requires bits == 4 || bits == 8
  {
    var pack := 32 / bits;
    var from, to := k / pack * sizeN + n, WordFor(k, n, sizeN, bits, a8);
    && from < |w| && to < |out|
    && Field(out[to], FieldFor(k, n, bits, a8) * bits, bits) == Field(w[from], k % pack * bits, bits)
  }

  lemma {:induction false} KeptIsMoved(out: seq<int>, w: seq<int>, k: nat, n: nat, s: Shape)
    requires s.Valid() && IsWeight(w, s) && Repacked(out, w, s) && k < s.K() && n < s.N()
    ensures CodeMoved(out, w, k, n, s.N(), s.bits, s.a8)
  {
    hide Where, WordFor, FieldFor, Start, Field, Shape.K, Shape.N, Shape.Size;
    assert CodeKept(out, w, k, n, s);
    CodeExists(k, n, s);
    PlaceOfCode(k, n, s);
    var word, field := WordFor(k, n, s.N(), s.bits, s.a8), FieldFor(k, n, s.bits, s.a8);
    Joined(Where(Start(k, s.N()) + n, s), word, field, s.Pack());
    StartIsProduct(s.WordOf(k), s.N());
    StartIsProduct(field, s.bits);
    StartIsProduct(s.FieldOf(k), s.bits);
  }

  lemma {:induction false} AllMoved(out: seq<int>, w: seq<int>, s: Shape)
    requires s.Valid() && IsWeight(w, s) && Repacked(out, w, s)
    ensures forall k, n :: 0 <= k < s.K() && 0 <= n < s.N() ==> CodeMoved(out, w, k, n, s.N(), s.bits, s.a8)
  {
    hide Repacked, CodeMoved, Shape.K, Shape.N;
    forall k, n | 0 <= k < s.K() && 0 <= n < s.N()
      ensures CodeMoved(out, w, k, n, s.N(), s.bits, s.a8)
    {
      KeptIsMoved(out, w, k, n, s);
    }
  }

  lemma {:induction false} WordsOfOutput(out: seq<int>, s: Shape)
    requires s.Valid() && |out| == s.WordOf(s.Size())
    ensures |out| * s.Pack() == s.K() * s.N()
  {
    SizeInWords(s);
    StartIsProduct(|out|, s.Pack());
    StartIsProduct(s.K(), s.N());
  }

  /** The shape of accepted arguments. */
  function ShapeOf(sizeK: nat, sizeN: nat, bits: nat, a8: bool): Shape
  {
    Shape(sizeK / (if a8 then 32 else 16), sizeN / 16, bits, a8)
  }

  const UNALIGNED := "Marlin repacking requires aligned K tiles and N divisible by 64"
  const WRONG_SHAPE := "Expected GPTQ int32 weights of shape [K / pack_factor, N]"

  /** Fields of `bits` bits in a word. */
  function PackFactor(bits: nat): (p: nat)
    requires bits == 4 || bits == 8
    ensures p == if bits == 4 then 8 else 4
  {
    32 / bits
  }

  predicate Accepted(rows: nat, cols: nat, sizeK: nat, sizeN: nat, bits: nat, a8: bool)
  {
    && (bits == 4 || bits == 8)
    && sizeK % (if a8 then 32 else 16) == 0 && sizeN % 64 == 0
    && rows == sizeK / PackFactor(bits) && cols == sizeN
  }

  lemma {:induction false} AcceptedShape(rows: nat, cols: nat, sizeK: nat, sizeN: nat, bits: nat, a8: bool)
    requires Accepted(rows, cols, sizeK, sizeN, bits, a8) && sizeK > 0 && sizeN > 0
    ensures var s := ShapeOf(sizeK, sizeN, bits, a8);
            s.Valid() && s.K() == sizeK && s.N() == sizeN && rows == s.WordOf(s.K()) && cols == s.N()
  {
    var s := ShapeOf(sizeK, sizeN, bits, a8);
    StartIsProduct(s.kTiles, s.TileK());
    StartIsProduct(s.nTiles, 16);
  }

  /** The checks of the arguments, in order. */
  method Refusal(rows: nat, cols: nat, sizeK: nat, sizeN: nat, bits: nat, a8: bool) returns (error: Option<string>)
    ensures error == None <==> Accepted(rows, cols, sizeK, sizeN, bits, a8)
    ensures error.Some? ==> error.value == if bits != 4 && bits != 8 then UNSUPPORTED_WIDTH
                                           else if sizeK % (if a8 then 32 else 16) != 0 || sizeN % 64 != 0
                                             then UNALIGNED else WRONG_SHAPE
  {
    if bits != 4 && bits != 8 {
      return Some(UNSUPPORTED_WIDTH);
    }
    if sizeK % (if a8 then 32 else 16) != 0 || sizeN % 64 != 0 {
      return Some(UNALIGNED);
    }
    if rows != sizeK / PackFactor(bits) || cols != sizeN {
      return Some(WRONG_SHAPE);
    }
    error := None;
  }

  /** The repacked words of a tensor of `rows` by `cols` words, or an error for arguments that do not fit. */
  method GptqMarlinRepack(w: seq<int>, rows: nat, cols: nat, sizeK: nat, sizeN: nat, bits: nat, a8: bool)
      returns (r: Result<seq<int>>)
    requires |w| == Start(rows, cols) && sizeK > 0 && sizeN > 0
    requires forall i :: 0 <= i < |w| ==> IsInt32(w[i])
    ensures r.Ok? <==> Accepted(rows, cols, sizeK, sizeN, bits, a8)
    ensures r.Ok? ==> var s := ShapeOf(sizeK, sizeN, bits, a8);
                      s.Valid() && IsWeight(w, s) && |r.value| == s.WordOf(s.Size()) && Repacked(r.value, w, s)
    ensures r.Ok? ==> |r.value| * PackFactor(bits) == sizeK * sizeN
    ensures r.Ok? ==> forall k, n :: 0 <= k < sizeK && 0 <= n < sizeN ==> CodeMoved(r.value, w, k, n, sizeN, bits, a8)
    ensures r.Err? ==> r.error == ValueError(
                         if bits != 4 && bits != 8 then UNSUPPORTED_WIDTH
                         else if sizeK % (if a8 then 32 else 16) != 0 || sizeN % 64 != 0 then UNALIGNED
                         else WRONG_SHAPE)
  {
    var error := Refusal(rows, cols, sizeK, sizeN, bits, a8);
    if error.Some? {
      return Err(ValueError(error.value));
    }
    var s := ShapeOf(sizeK, sizeN, bits, a8);
    AcceptedShape(rows, cols, sizeK, sizeN, bits, a8);
    hide Unpacked, Reordered, Repacked, Fields, Shape.WordOf, CodeMoved;
    var out := RepackWords(w, s);
    r := Ok(out);
    AllMoved(out, w, s);
    WordsOfOutput(out, s);
  }

  /** Unpacking, reordering and packing of an accepted tensor. */
  method RepackWords(w: seq<int>, s: Shape) returns (out: seq<int>)
    requires s.Valid() && IsWeight(w, s)
    ensures |out| == s.WordOf(s.Size()) && Repacked(out, w, s)
  {
    hide Unpacked, Reordered, Repacked, Fields, Shape.WordOf;
    var order := WeightPermutation(s.bits, s.a8);
    var t := Reorder1024(Unpacked(w, s), order.value, s);
    SizeInWords(s);
    var packed := PackWords(t, s.WordOf(s.Size()), s);
    PackedHolds(packed[..], w, s);
    out := packed[..];
  }

  /** Tiling and `index_select` with the computed order. */
  method Reorder1024(u: seq<nat>, order: seq<nat>, s: Shape) returns (t: seq<nat>)
    requires s.Valid() && |u| == s.Size() && |order| == 1024
    requires forall j :: 0 <= j < 1024 ==> order[j] == Entry(j, s.bits, s.a8)
    ensures t == Reordered(u, s)
  {
    var tiled := Tiles(u, s);
    forall q | 0 <= q < |u|
      ensures q / 1024 * 1024 + order[q % 1024] == Selects(q, s) < |u|
    {
      SelectInverse(q, s);
    }
    hide Selects, UnTile, Entry;
    t := seq(|u|, q requires 0 <= q < |u| => tiled[q / 1024 * 1024 + order[q % 1024]]);
  }

  /** The codes tile by tile. */
  function Tiles(u: seq<nat>, s: Shape): (t: seq<nat>)
    requires s.Valid() && |u| == s.Size()
    ensures |t| == |u|
    ensures forall p :: 0 <= p < |t| ==> UnTile(p, s) < |u| && t[p] == u[UnTile(p, s)]
  {
    TilesInRange(s);
    seq(|u|, p requires 0 <= p < |u| => u[UnTile(p, s)])
  }

  lemma {:induction false} TilesInRange(s: Shape)
    requires s.Valid()
    ensures forall p :: 0 <= p < s.Size() ==> UnTile(p, s) < s.Size()
  {
    forall p | 0 <= p < s.Size()
      ensures UnTile(p, s) < s.Size()
    {
      TileInverse(p, s);
    }
  }

  // ---------------------------------------------------------------- nothing is lost

  /** Word `(row, n)` of the source, put together from the repacked words. */
  function Restored(out: seq<int>, row: nat, n: nat, s: Shape): (f: seq<nat>)
    requires s.Valid() && n < s.N() && row < s.WordOf(s.K())
    requires forall q :: 0 <= q < s.Size() ==> s.WordOf(q) < |out|
    ensures |f| == s.Pack() && forall i :: 0 <= i < s.Pack() ==> f[i] == RestoredCode(out, row, n, i, s)
  {
    seq(s.Pack(), i requires 0 <= i < s.Pack() => RestoredCode(out, row, n, i, s))
  }

  function RestoredCode(out: seq<int>, row: nat, n: nat, i: nat, s: Shape): nat
    requires s.Valid() && n < s.N() && row < s.WordOf(s.K()) && i < s.Pack()
    requires forall q :: 0 <= q < s.Size() ==> s.WordOf(q) < |out|
  {
    RowOfWord(row, i, s);
    CodeExists(Start(row, s.Pack()) + i, n, s);
    WhereIsBijection(Start(Start(row, s.Pack()) + i, s.N()) + n, s);
    OutCode(out, Where(Start(Start(row, s.Pack()) + i, s.N()) + n, s), s)
  }

  lemma {:induction false} RowOfWord(row: nat, i: nat, s: Shape)
    requires s.Valid() && row < s.WordOf(s.K()) && i < s.Pack()
    ensures Start(row, s.Pack()) + i < s.K()
    ensures s.WordOf(Start(row, s.Pack()) + i) == row && s.FieldOf(Start(row, s.Pack()) + i) == i
  {
    PackDivides(s);
    StartIsProduct(row, s.Pack());
    StartIsProduct(s.WordOf(s.K()), s.Pack());
    StartMonotone(row + 1, s.WordOf(s.K()), s.Pack());
    Joined(Start(row, s.Pack()) + i, row, i, s.Pack());
  }

  /** The 32-bit word with given fields. */
  function Assembled(f: seq<nat>, bits: nat): int
  {
    Signed(Words.Packed(f, bits) % WORD)
  }

  /** Reading the codes back by the inverse permutation gives every word of the source, negative ones included. */
  lemma {:induction false} Lossless(out: seq<int>, w: seq<int>, s: Shape, row: nat, n: nat)
    requires s.Valid() && IsWeight(w, s) && Repacked(out, w, s) && row < s.WordOf(s.K()) && n < s.N()
    ensures Start(row, s.N()) + n < |w|
    ensures Assembled(Restored(out, row, n, s), s.bits) == w[Start(row, s.N()) + n]
  {
    WordExists(out, w, s, row, n);
    hide *;
    RestoredFields(out, w, s, row, n, w[Start(row, s.N()) + n]);
    WordOfFields(w[Start(row, s.N()) + n], Restored(out, row, n, s), s);
  }

  lemma {:induction false} RestoredFields(out: seq<int>, w: seq<int>, s: Shape, row: nat, n: nat, word: int)
    requires s.Valid() && IsWeight(w, s) && Repacked(out, w, s) && row < s.WordOf(s.K()) && n < s.N()
    requires Start(row, s.N()) + n < |w| && word == w[Start(row, s.N()) + n]
    ensures forall q :: 0 <= q < s.Size() ==> s.WordOf(q) < |out|
    ensures forall i :: 0 <= i < s.Pack() ==> Restored(out, row, n, s)[i] == Field(word, Start(i, s.bits), s.bits)
  {
    WordExists(out, w, s, row, n);
    hide *;
    forall i | 0 <= i < s.Pack()
      ensures Restored(out, row, n, s)[i] == Field(word, Start(i, s.bits), s.bits)
    {
      RestoredField(out, w, s, row, n, i);
    }
  }

  lemma {:induction false} WordExists(out: seq<int>, w: seq<int>, s: Shape, row: nat, n: nat)
    requires s.Valid() && IsWeight(w, s) && Repacked(out, w, s) && row < s.WordOf(s.K()) && n < s.N()
    ensures Start(row, s.N()) + n < |w| && IsInt32(w[Start(row, s.N()) + n])
    ensures forall q :: 0 <= q < s.Size() ==> s.WordOf(q) < |out|
  {
    RowOfWord(row, 0, s);
    CodeExists(Start(row, s.Pack()), n, s);
  }

  lemma {:induction false} WordOfFields(word: int, f: seq<nat>, s: Shape)
    requires s.Valid() && IsInt32(word) && |f| == s.Pack()
    requires forall i :: 0 <= i < |f| ==> f[i] == Field(word, Start(i, s.bits), s.bits)
    ensures Assembled(f, s.bits) == word
  {
    hide Field;
    assert f == FieldsOf(word, s.Pack(), s.bits);
    StartIsProduct(s.Pack(), s.bits);
    FieldsDetermine(word, s.Pack(), s.bits);
    Joined(Pattern(word), 0, Pattern(word), WORD);
  }

  lemma {:induction false} RestoredField(out: seq<int>, w: seq<int>, s: Shape, row: nat, n: nat, i: nat)
    requires s.Valid() && IsWeight(w, s) && Repacked(out, w, s) && row < s.WordOf(s.K()) && n < s.N() && i < s.Pack()
    ensures Start(row, s.N()) + n < |w|
    ensures RestoredCode(out, row, n, i, s) == Field(w[Start(row, s.N()) + n], Start(i, s.bits), s.bits)
  {
    hide Start, OutCode, CodeKept, RestoredCode, Where, Shape.WordOf, Shape.FieldOf, Shape.K, Shape.N, Shape.Pack,
      Shape.Size, Shape.Valid;
    RowOfWord(row, i, s);
    var k := Start(row, s.Pack()) + i;
    assert CodeKept(out, w, k, n, s);
    RestoredIs(out, row, n, i, s);
    hide *;
    KeptCode(out, w, k, n, s);
  }

  lemma {:induction false} RestoredIs(out: seq<int>, row: nat, n: nat, i: nat, s: Shape)
    requires s.Valid() && n < s.N() && row < s.WordOf(s.K()) && i < s.Pack()
    requires forall q :: 0 <= q < s.Size() ==> s.WordOf(q) < |out|
    ensures s.WordOf(Where(Start(Start(row, s.Pack()) + i, s.N()) + n, s)) < |out|
    ensures RestoredCode(out, row, n, i, s) == OutCode(out, Where(Start(Start(row, s.Pack()) + i, s.N()) + n, s), s)
  {
    hide Where, OutCode, Start, Shape.WordOf, Shape.FieldOf, Shape.K, Shape.N, Shape.Pack, Shape.Size, Shape.Valid;
    RowOfWord(row, i, s);
    CodeExists(Start(row, s.Pack()) + i, n, s);
    WhereIsBijection(Start(Start(row, s.Pack()) + i, s.N()) + n, s);
  }

  lemma {:induction false} KeptCode(out: seq<int>, w: seq<int>, k: nat, n: nat, s: Shape)
    requires s.Valid() && IsWeight(w, s) && k < s.K() && n < s.N() && CodeKept(out, w, k, n, s)
    ensures Start(s.WordOf(k), s.N()) + n < |w| && Start(k, s.N()) + n < s.Size()
    ensures Where(Start(k, s.N()) + n, s) / s.Pack() < |out|
    ensures OutCode(out, Where(Start(k, s.N()) + n, s), s)
              == Field(w[Start(s.WordOf(k), s.N()) + n], Start(s.FieldOf(k), s.bits), s.bits)
  {
    CodeExists(k, n, s);
  }

  /** So different weights are never repacked to the same words. */
  lemma {:induction false} RepackIsInjective(out: seq<int>, w: seq<int>, v: seq<int>, s: Shape)
    requires s.Valid() && IsWeight(w, s) && IsWeight(v, s) && Repacked(out, w, s) && Repacked(out, v, s)
    ensures w == v
  {
    forall i | 0 <= i < |w|
      ensures w[i] == v[i]
    {
      ShapeFacts(s);
      var row, n := Split(i, s.N());
      StartIsProduct(row, s.N());
      StartIsProduct(s.WordOf(s.K()), s.N());
      DivBelow(i, s.WordOf(s.K()), s.N());
      Lossless(out, w, s, row, n);
      Lossless(out, v, s, row, n);
    }
  }
}
