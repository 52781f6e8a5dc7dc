/** 32-bit words as torch sees them: signed numbers whose bits are shifted, masked and or-ed. */
module Words {
  import opened Sums

  function Pow2(n: nat): (p: nat)
    ensures p > 0
  {
    if n == 0 then 1 else 2 * Pow2(n - 1)
  }

  lemma {:induction false} Pow2Add(a: nat, b: nat)
    ensures Pow2(a + b) == Pow2(a) * Pow2(b)
    decreases b
  {
    if b > 0 {
      Pow2Add(a, b - 1);
      assert Pow2(a) * (2 * Pow2(b - 1)) == 2 * (Pow2(a) * Pow2(b - 1));
    }
  }

  lemma {:induction false} Pow2Monotone(a: nat, b: nat)
    requires a <= b
    ensures Pow2(a) <= Pow2(b)
    decreases b
  {
    if a < b {
      Pow2Monotone(a, b - 1);
    }
  }

  lemma {:induction false} Pow2Of32()
    ensures Pow2(32) == 0x1_0000_0000
  {
    assert Pow2(8) == 256;
    Pow2Add(8, 8);
    Pow2Add(16, 16);
  }

  const WORD := 0x1_0000_0000

  predicate IsInt32(w: int)
  {
    -0x8000_0000 <= w < 0x8000_0000
  }

  /** The bits of a word as an unsigned number. */
  function Pattern(w: int): (u: nat)
    requires IsInt32(w)
    ensures u < WORD
  {
    if w < 0 then w + WORD else w
  }

  function Signed(u: nat): (w: int)
    requires u < WORD
    ensures IsInt32(w) && Pattern(w) == u
  {
    if u >= 0x8000_0000 then u - WORD else u
  }

  /** Arithmetic right shift: halving, rounded down, `s` times. */
  function Shr(w: int, s: nat): int
    decreases s
  {
    if s == 0 then w else Shr(w / 2, s - 1)
  }

  /** Left shift, before the result is cut to a word. */
  function Shl(v: int, s: nat): (w: int)
    ensures v >= 0 ==> w >= 0
  {
    v * Pow2(s)
  }

  /** `(w >> s) & ((1 << bits) - 1)`. */
  function Field(w: int, s: nat, bits: nat): (f: nat)
    ensures f < Pow2(bits)
  {
    Shr(w, s) % Pow2(bits)
  }

  /** Bitwise or. */
  function Or(a: nat, b: nat): nat
  {
    if a == 0 then b
    else 2 * Or(a / 2, b / 2) + if a % 2 == 1 || b % 2 == 1 then 1 else 0
  }

  function Or32(a: int, b: int): (w: int)
    requires IsInt32(a) && IsInt32(b) && Or(Pattern(a), Pattern(b)) < WORD
    ensures IsInt32(w)
  {
    Signed(Or(Pattern(a), Pattern(b)))
  }

  /** A bit of the result is set exactly when it is set in one of the two. */
  lemma {:induction false} OrBits(a: nat, b: nat, i: nat)
    ensures Shr(Or(a, b), i) % 2 == 1 <==> Shr(a, i) % 2 == 1 || Shr(b, i) % 2 == 1
    decreases i
  {
    if i == 0 {
      assert a == 0 ==> a % 2 == 0;
    } else if a == 0 {
      ZeroBits(i);
    } else {
      assert Or(a, b) / 2 == Or(a / 2, b / 2);
      OrBits(a / 2, b / 2, i - 1);
    }
  }

  lemma {:induction false} ZeroBits(i: nat)
    ensures Shr(0, i) == 0
  {
    if i > 0 {
      ZeroBits(i - 1);
    }
  }

  /** Or-ing in bits above all set ones adds. */
  lemma {:induction false} OrAbove(a: nat, v: nat, s: nat)
    requires a < Pow2(s)
    ensures Or(a, Shl(v, s)) == a + Shl(v, s)
    decreases s
  {
    if a > 0 {
      HalfAbove(0, v, s);
      assert Shl(v, s) == 2 * Shl(v, s - 1) && Shl(v, s) / 2 == Shl(v, s - 1);
      OrAbove(a / 2, v, s - 1);
    }
  }

  // ---------------------------------------------------------------- fields

  lemma {:induction false} Associate(a: int, b: int, c: int)
    ensures (a * b) * c == a * (b * c)
  {
  }

  lemma {:induction false} ModShift(w: int, c: int, m: nat)
    requires m > 0
    ensures (w + c * m) % m == w % m && (w + c * m) / m == w / m + c
  {
    assert (w / m + c) * m == (w / m) * m + c * m;
    IntDivMod(w + c * m, w / m + c, w % m, m);
  }

  /** Bits at or above `s` do not reach a field below `s`. */
  lemma {:induction false} FieldBelow(w: int, c: int, s: nat, t: nat, bits: nat)
    requires t + bits <= s
    ensures Field(w + Shl(c, s), t, bits) == Field(w, t, bits)
    decreases t
  {
    if t == 0 {
      Pow2Add(s - bits, bits);
      Associate(c, Pow2(s - bits), Pow2(bits));
      ModShift(w, c * Pow2(s - bits), Pow2(bits));
    } else {
      HalfAbove(w, c, s);
      FieldBelow(w / 2, c, s - 1, t - 1, bits);
    }
  }

  lemma {:induction false} HalfAbove(w: int, c: int, s: nat)
    requires s > 0
    ensures Shl(c, s) == 2 * Shl(c, s - 1)
    ensures (w + Shl(c, s)) / 2 == w / 2 + Shl(c, s - 1)
  {
    assert c * Pow2(s) == 2 * (c * Pow2(s - 1));
  }

  /** Shifting bits below `s` out leaves what was above them. */
  lemma {:induction false} ShrAbove(a: nat, v: int, s: nat)
    requires a < Pow2(s)
    ensures Shr(a + Shl(v, s), s) == v
    decreases s
  {
    if s > 0 {
      HalfAbove(a, v, s);
      ShrAbove(a / 2, v, s - 1);
    }
  }

  /** The number with fields `f`, the lowest first, of `bits` bits each. */
  function Packed(f: seq<nat>, bits: nat): nat
  {
    if |f| == 0 then 0 else Packed(f[..|f| - 1], bits) + Shl(f[|f| - 1], Start(|f| - 1, bits))
  }

  ghost predicate Fields(f: seq<nat>, bits: nat)
  {
    forall i :: 0 <= i < |f| ==> f[i] < Pow2(bits)
  }

  lemma {:induction false} PackedBelow(f: seq<nat>, bits: nat)
    requires Fields(f, bits)
    ensures Packed(f, bits) < Pow2(Start(|f|, bits))
  {
    if |f| > 0 {
      var n := |f| - 1;
      PackedBelow(f[..n], bits);
      TopField(Packed(f[..n], bits), f[n], Start(n, bits), bits);
    }
  }

  lemma {:induction false} TopField(low: nat, f: nat, s: nat, bits: nat)
    requires low < Pow2(s) && f < Pow2(bits)
    ensures low + Shl(f, s) < Pow2(s + bits)
  {
    Pow2Add(s, bits);
    var p := Pow2(s);
    MulMono(f + 1, Pow2(bits), p);
    assert (f + 1) * p == f * p + p;
  }

  /** Every field can be read back. */
  lemma {:induction false} PackedField(f: seq<nat>, bits: nat, i: nat)
    requires Fields(f, bits) && i < |f|
    ensures Field(Packed(f, bits), Start(i, bits), bits) == f[i]
    decreases |f|
  {
    var n := |f| - 1;
    PackedBelow(f[..n], bits);
    if i < n {
      PackedField(f[..n], bits, i);
      StartMonotone(i + 1, n, bits);
      FieldBelow(Packed(f[..n], bits), f[n], Start(n, bits), Start(i, bits), bits);
    } else {
      ShrAbove(Packed(f[..n], bits), f[n], Start(n, bits));
      Joined(f[n], 0, f[n], Pow2(bits));
    }
  }

  /** The sign of a word does not change its fields. */
  lemma {:induction false} SignedField(u: nat, s: nat, bits: nat)
    requires u < WORD && s + bits <= 32
    ensures Field(Signed(u), s, bits) == Field(u, s, bits)
  {
    Pow2Of32();
    if u >= 0x8000_0000 {
      FieldBelow(u, -1, 32, s, bits);
    }
  }

  function FieldsOf(w: int, n: nat, bits: nat): (f: seq<nat>)
    ensures |f| == n && forall i :: 0 <= i < n ==> f[i] == Field(w, Start(i, bits), bits)
  {
    seq(n, i requires 0 <= i < n => Field(w, Start(i, bits), bits))
  }

  lemma {:induction false} ShrIsDiv(w: int, s: nat)
    ensures Shr(w, s) == w / Pow2(s)
    decreases s
  {
    if s > 0 {
      ShrIsDiv(w / 2, s - 1);
      DivTwice(w, Pow2(s - 1));
    }
  }

  lemma {:induction false} DivTwice(w: int, m: nat)
    requires m > 0
    ensures (w / 2) / m == w / (2 * m)
  {
    var h, b := w / 2, w % 2;
    var q, r := h / m, h % m;
    assert w == 2 * h + b && h == q * m + r;
    assert w == (2 * r + b) + q * (2 * m);
    ModShift(2 * r + b, q, 2 * m);
    Joined(2 * r + b, 0, 2 * r + b, 2 * m);
  }

  lemma {:induction false} ShrTwice(w: int, s: nat, t: nat)
    ensures Shr(Shr(w, s), t) == Shr(w, s + t)
    decreases s
  {
    if s > 0 {
      ShrTwice(w / 2, s - 1, t);
    }
  }

  /** The fields hold the lowest bits of a word, and a shift what is above them. */
  ghost predicate Held(w: int, low: nat, s: nat)
  {
    w == low + Shl(Shr(w, s), s)
  }

  lemma {:induction false} FieldsHold(w: int, n: nat, bits: nat)
    ensures Held(w, Packed(FieldsOf(w, n, bits), bits), Start(n, bits))
    decreases n
  {
    hide *;
    if n == 0 {
      NothingHeld(w, bits);
    } else {
      PackedStep(w, n, bits);
      FieldsHold(w, n - 1, bits);
      HoldStep(w, Packed(FieldsOf(w, n - 1, bits), bits), Start(n - 1, bits), bits, Start(n, bits));
    }
  }

  lemma {:induction false} NothingHeld(w: int, bits: nat)
    ensures Held(w, Packed(FieldsOf(w, 0, bits), bits), Start(0, bits))
  {
    assert Shl(w, 0) == w;
  }

  lemma {:induction false} PackedStep(w: int, n: nat, bits: nat)
    requires n > 0
    ensures Start(n, bits) == Start(n - 1, bits) + bits
    ensures Packed(FieldsOf(w, n, bits), bits)
         == Packed(FieldsOf(w, n - 1, bits), bits) + Shl(Field(w, Start(n - 1, bits), bits), Start(n - 1, bits))
  {
    hide Field, Shl;
    assert FieldsOf(w, n, bits)[..n - 1] == FieldsOf(w, n - 1, bits);
  }

  lemma {:induction false} HoldStep(w: int, low: nat, s: nat, bits: nat, t: nat)
    requires Held(w, low, s) && t == s + bits
    ensures Held(w, low + Shl(Field(w, s, bits), s), t)
  {
    FieldOfShr(w, s, bits);
    SplitShl(Shr(w, s), s, bits);
    ShrTwice(w, s, bits);
  }

  lemma {:induction false} FieldOfShr(w: int, s: nat, bits: nat)
    ensures Field(Shr(w, s), 0, bits) == Field(w, s, bits)
  {
  }

  lemma {:induction false} SplitShl(h: int, s: nat, bits: nat)
    ensures Shl(h, s) == Shl(Shr(h, bits), s + bits) + Shl(Field(h, 0, bits), s)
  {
    ShrIsDiv(h, bits);
    Pow2Add(s, bits);
    SplitScaled(h, Pow2(bits), Pow2(s));
  }

  lemma {:induction false} SplitScaled(h: int, b: nat, p: nat)
    requires b > 0
    ensures h * p == (h / b) * (p * b) + (h % b) * p
  {
    assert h == (h / b) * b + h % b;
    Associate(h / b, b, p);
    assert h * p == ((h / b) * b) * p + (h % b) * p;
    assert b * p == p * b;
  }

  lemma {:induction false} ShlWord(v: int, s: nat)
    requires s == 32
    ensures Shl(v, s) == v * 0x1_0000_0000 && Pow2(s) == 0x1_0000_0000
  {
    Pow2Of32();
  }

  /** All fields of a word determine it, its sign included. */
  lemma {:induction false} FieldsDetermine(w: int, n: nat, bits: nat)
    requires IsInt32(w) && Start(n, bits) == 32
    ensures Packed(FieldsOf(w, n, bits), bits) == Pattern(w)
  {
    FieldsHold(w, n, bits);
    PackedBelow(FieldsOf(w, n, bits), bits);
    LowBits(w, Packed(FieldsOf(w, n, bits), bits), Shr(w, Start(n, bits)), Start(n, bits));
  }

  lemma {:induction false} LowBits(w: int, low: nat, high: int, s: nat)
    requires IsInt32(w) && s == 32 && w == low + Shl(high, s) && low < Pow2(s)
    ensures low == Pattern(w)
  {
    ShlWord(high, s);
  }
}
