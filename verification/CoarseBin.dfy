/** extractCoarseBinBF16: the bin of a score is the top 12 bits of an order-preserving key of its half-precision
    rounding. The rounding itself is a parameter: any that keeps signs and never reverses an order. */
module CoarseBin {
  import opened Rows

  /** A finite score: its value, and its sign bit, which tells the two zeros apart. */
  datatype Score = Score(value: int, negative: bool)
  {
    predicate Valid()
    {
      (value < 0 ==> negative) && (value > 0 ==> !negative)
    }
  }

  /** The 16 bits of a half-precision number, as the number they spell. */
  type Half = bits: nat | bits < 0x1_0000

  predicate SignSet(h: Half)
  {
    h >= 0x8000
  }

  /** Exponent and mantissa: `h & 0x7FFF`. */
  function Magnitude(h: Half): nat
  {
    if SignSet(h) then h - 0x8000 else h
  }

  /** `~h` when the sign bit is set and `h | 0x8000` otherwise. */
  function Key(h: Half): Half
  {
    if SignSet(h) then 0xFFFF - h else h + 0x8000
  }

  /** The key shifted right by 16 - 12 bits. */
  function Bin(h: Half): nat
  {
    Key(h) / 16
  }

  /** The order of half-precision numbers; both zeros are equal. */
  predicate HalfLess(a: Half, b: Half)
  {
    if !SignSet(a) then !SignSet(b) && Magnitude(a) < Magnitude(b)
    else if SignSet(b) then Magnitude(b) < Magnitude(a)
    else Magnitude(a) != 0 || Magnitude(b) != 0
  }

  /** The key turns the order into that of unsigned integers, with the negative zero just below the positive one. */
  lemma {:induction false} KeyMonotone(a: Half, b: Half)
    ensures Key(a) < Key(b) <==> HalfLess(a, b) || (a == 0x8000 && b == 0)
    ensures Key(a) == Key(b) <==> a == b
  {
  }

  lemma {:induction false} BinMonotone(a: Half, b: Half)
    requires Key(a) <= Key(b)
    ensures Bin(a) <= Bin(b) < 4096
  {
  }

  /** Numbers that differ only in the four lowest bits of their mantissa. */
  ghost predicate Near(a: Half, b: Half)
  {
    (SignSet(a) <==> SignSet(b)) && Magnitude(a) / 16 == Magnitude(b) / 16
  }

  /** A bin is the twelve highest bits of the key: numbers share one exactly when they are near. */
  lemma {:induction false} BinExactly(a: Half, b: Half)
    ensures Bin(a) == Bin(b) <==> Near(a, b)
  {
    HighBits(a);
    HighBits(b);
  }

  lemma {:induction false} HighBits(h: Half)
    ensures Bin(h) == if SignSet(h) then 2047 - Magnitude(h) / 16 else 2048 + Magnitude(h) / 16
  {
  }

  /** And every bin is that of some number. */
  lemma {:induction false} BinOnto(bin: nat) returns (h: Half)
    requires bin < 4096
    ensures Bin(h) == bin
  {
    h := if bin >= 2048 then bin * 16 - 0x8000 else 0xFFFF - bin * 16;
  }

  ghost predicate Rounding(half: Score -> Half)
  {
    && (forall x: Score :: x.Valid() ==> (SignSet(half(x)) <==> x.negative))
    && (forall x: Score, y: Score :: x.Valid() && y.Valid() && x.value < y.value ==> !HalfLess(half(y), half(x)))
  }

  function RowOfScores(scores: seq<Score>, half: Score -> Half): (row: seq<Elem>)
    ensures |row| == |scores|
  {
    seq(|scores|, i requires 0 <= i < |scores| => Elem(scores[i].value, Bin(half(scores[i]))))
  }

  /** Every row of finite scores meets what the kernels assume about bins. */
  lemma {:induction false} RowsAreValid(scores: seq<Score>, half: Score -> Half)
    requires Rounding(half) && forall i :: 0 <= i < |scores| ==> scores[i].Valid()
    ensures var row := RowOfScores(scores, half);
            && ValidRow(row, 4096)
            && (forall i :: 0 <= i < |scores| ==> row[i].score == scores[i].value)
            && forall i, j :: 0 <= i < |scores| && 0 <= j < |scores| ==>
                 (row[i].bin == row[j].bin <==> Near(half(scores[i]), half(scores[j])))
  {
    var row := RowOfScores(scores, half);
    forall g | 0 <= g < |row|
      ensures row[g].bin < 4096
    {
      BinMonotone(half(scores[g]), half(scores[g]));
    }
    forall a, b | 0 <= a < |row| && 0 <= b < |row| && row[a].score < row[b].score
      ensures row[a].bin <= row[b].bin
    {
      var x, y := scores[a], scores[b];
      KeyMonotone(half(y), half(x));
      BinMonotone(half(x), half(y));
    }
    forall i, j | 0 <= i < |scores| && 0 <= j < |scores|
      ensures row[i].bin == row[j].bin <==> Near(half(scores[i]), half(scores[j]))
    {
      BinExactly(half(scores[i]), half(scores[j]));
    }
  }

  /** Equal scores need not share a bin: the two zeros never do. */
  lemma {:induction false} ZerosDiffer(half: Score -> Half)
    requires half(Score(0, true)) == 0x8000 && half(Score(0, false)) == 0
    ensures Bin(half(Score(0, true))) < Bin(half(Score(0, false)))
  {
  }
}
