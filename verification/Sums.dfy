/** Finite sums, counting and the few facts about `/` and `%` that the models share. */
module Sums {

  /** The numbers `0 .. n`. */
  function Upto(n: nat): (s: set<nat>)
    ensures forall x: nat :: x in s <==> x < n
    ensures |s| == n
  {
    if n == 0 then {} else Upto(n - 1) + {n - 1}
  }

  /** Sum of all entries, last entry peeled first so that loops extend it on the right. */
  function Sum(s: seq<nat>): nat
  {
    if |s| == 0 then 0 else Sum(s[..|s| - 1]) + s[|s| - 1]
  }

  lemma {:induction false} SumPrefixStep(s: seq<nat>, i: nat)
    requires i < |s|
    ensures Sum(s[..i + 1]) == Sum(s[..i]) + s[i]
  {
    assert s[..i + 1][..i] == s[..i];
  }

  lemma {:induction false} SumConcat(a: seq<nat>, b: seq<nat>)
    ensures Sum(a + b) == Sum(a) + Sum(b)
    decreases |b|
  {
    if |b| == 0 {
      assert a + b == a;
    } else {
      SumConcat(a, b[..|b| - 1]);
      assert (a + b)[..|a + b| - 1] == a + b[..|b| - 1];
    }
  }

  /** Splitting a window of `s` in two. */
  lemma {:induction false} SumWindow(s: seq<nat>, lo: nat, mid: nat, hi: nat)
    requires lo <= mid <= hi <= |s|
    ensures Sum(s[lo..hi]) == Sum(s[lo..mid]) + Sum(s[mid..hi])
  {
    assert s[lo..hi] == s[lo..mid] + s[mid..hi];
    SumConcat(s[lo..mid], s[mid..hi]);
  }

  lemma {:induction false} SumUpdate(s: seq<nat>, i: nat, v: nat)
    requires i < |s|
    ensures Sum(s[i := v]) + s[i] == Sum(s) + v
    decreases |s|
  {
    var n := |s| - 1;
    if i < n {
      SumUpdate(s[..n], i, v);
      assert s[i := v][..n] == s[..n][i := v];
    } else {
      assert s[i := v][..n] == s[..n];
    }
  }

  /** The quotient and the remainder are the only pair with `x == q * m + r` and `0 <= r < m`. */
  lemma {:induction false} DivModUnique(q: nat, r: nat, m: nat)
    requires r < m
    ensures (q * m + r) / m == q && (q * m + r) % m == r
  {
    var x := q * m + r;
    var q', r' := x / m, x % m;
    assert q' * m + r' == q * m + r;
    if q' < q {
      MulStep(q', q, m);
    } else if q < q' {
      MulStep(q, q', m);
    }
  }

  lemma {:induction false} MulSign(d: int, m: nat)
    ensures d >= 1 ==> d * m >= m
    ensures d <= -1 ==> d * m <= -(m as int)
  {
  }

  /** Quotient and remainder are unique for negative numbers, too. */
  lemma {:induction false} IntDivMod(w: int, q: int, r: int, m: nat)
    requires 0 <= r < m && w == q * m + r
    ensures w / m == q && w % m == r
  {
    var d := w / m - q;
    assert d * m == (w / m) * m - q * m;
    MulSign(d, m);
  }

  /** Quotient and remainder of `x`. */
  lemma {:induction false} Split(x: nat, m: nat) returns (q: nat, r: nat)
    requires m > 0
    ensures x == q * m + r && r < m && q <= x
    ensures x / m == q && x % m == r
  {
    DivModFacts(x, m);
    q, r := x / m, x % m;
  }

  lemma {:induction false} Joined(x: nat, q: nat, r: nat, m: nat)
    requires r < m && x == q * m + r
    ensures x / m == q && x % m == r
  {
    DivModUnique(q, r, m);
  }

  /** The position of `s` in a ring of `n`: `s % n`. */
  function Ring(s: nat, n: nat): (b: nat)
    requires n > 0
    ensures b < n
  {
    if s < n then s else Ring(s - n, n)
  }

  lemma {:induction false} RingIsMod(s: nat, n: nat)
    requires n > 0
    ensures Ring(s, n) == s % n
  {
    if s >= n {
      RingIsMod(s - n, n);
      var q, r := Split(s - n, n);
      assert (q + 1) * n == q * n + n;
      Joined(s, q + 1, r, n);
    } else {
      Joined(s, 0, s, n);
    }
  }

  /** Numbers of one window of `n` have different positions. */
  lemma {:induction false} RingDistinct(a: nat, b: nat, n: nat)
    requires a < b < a + n
    ensures Ring(a, n) != Ring(b, n)
  {
    if a >= n {
      RingDistinct(a - n, b - n, n);
    }
  }

  lemma {:induction false} MulStep(a: nat, b: nat, m: nat)
    requires a < b
    ensures b * m >= a * m + m
  {
    assert b * m - a * m == (b - a) * m;
    MulMono(1, b - a, m);
  }

  lemma {:induction false} MulMono(a: nat, b: nat, m: nat)
    requires a <= b
    ensures a * m <= b * m
  {
  }

  lemma {:induction false} DivModFacts(x: nat, m: nat)
    requires m > 0
    ensures x == (x / m) * m + x % m && x % m < m
    ensures x / m <= x
  {
    var q := x / m;
    assert x == q * m + x % m;
    MulMono(1, m, q);
  }

  /** A quotient stays below `n` exactly when the number stays below `n * m`. */
  lemma {:induction false} DivBelow(x: nat, n: nat, m: nat)
    requires m > 0 && x < n * m
    ensures x / m < n
  {
    DivModFacts(x, m);
    if x / m >= n {
      MulMono(n, x / m, m);
    }
  }

  // ---------------------------------------------------------------- equal chunks

  /** First position of chunk `t` when every chunk holds `size` positions: `t * size`. */
  function Start(t: nat, size: nat): nat
  {
    if t == 0 then 0 else Start(t - 1, size) + size
  }

  lemma {:induction false} StartIsProduct(t: nat, size: nat)
    ensures Start(t, size) == t * size
  {
    if t > 0 {
      StartIsProduct(t - 1, size);
      assert t * size == (t - 1) * size + size;
    }
  }

  lemma {:induction false} StartOfZero(t: nat)
    ensures Start(t, 0) == 0
  {
    StartIsProduct(t, 0);
  }

  lemma {:induction false} StartMonotone(a: nat, b: nat, size: nat)
    requires a <= b
    ensures Start(a, size) <= Start(b, size)
    decreases b - a
  {
    if a < b {
      StartMonotone(a, b - 1, size);
    }
  }

  lemma {:induction false} StartAdd(a: nat, b: nat, size: nat)
    ensures Start(a + b, size) == Start(a, size) + Start(b, size)
    decreases b
  {
    if b > 0 {
      StartAdd(a, b - 1, size);
    }
  }

  function CeilDiv(a: nat, b: nat): nat
    requires b > 0
  {
    (a + b - 1) / b
  }

  lemma {:induction false} CeilDivBounds(a: nat, b: nat)
    requires b > 0
    ensures a <= CeilDiv(a, b) * b
    ensures forall q: nat | a <= q * b :: CeilDiv(a, b) <= q
  {
    var c := CeilDiv(a, b);
    DivModFacts(a + b - 1, b);
    forall q: nat | a <= q * b
      ensures c <= q
    {
      if q < c {
        MulStep(q, c, b);
      }
    }
  }

  /** How far the entries together are below `target`: the measure by which scheduling loops end. */
  ghost function Deficit(s: seq<nat>, target: nat): nat
  {
    if |s| == 0 then 0
    else Deficit(s[..|s| - 1], target) + if s[|s| - 1] < target then target - s[|s| - 1] else 0
  }

  lemma {:induction false} DeficitDrops(s: seq<nat>, i: nat, v: nat, target: nat)
    requires i < |s| && s[i] < v <= target
    ensures Deficit(s[i := v], target) < Deficit(s, target)
    decreases |s|
  {
    var n := |s| - 1;
    if i < n {
      DeficitDrops(s[..n], i, v, target);
      assert s[i := v][..n] == s[..n][i := v];
    } else {
      assert s[i := v][..n] == s[..n];
    }
  }

  // ---------------------------------------------------------------- sets

  lemma {:induction false} SubsetCard<T>(a: set<T>, b: set<T>)
    requires a <= b
    ensures |a| <= |b|
    ensures |a| == |b| ==> a == b
  {
    assert b == a + (b - a);
  }

  /** An injective map has as many values as keys. */
  lemma {:induction false} InjectiveValues<K, V>(m: map<K, V>)
    requires forall a, b :: a in m && b in m && m[a] == m[b] ==> a == b
    ensures |m.Values| == |m|
    decreases |m|
  {
    if |m| > 0 {
      var x :| x in m;
      var m' := m - {x};
      InjectiveValues(m');
      assert m.Values == m'.Values + {m[x]} by {
        forall v | v in m.Values
          ensures v in m'.Values + {m[x]}
        {
          var a :| a in m && m[a] == v;
          assert a == x || a in m';
        }
      }
      assert m[x] !in m'.Values;
    }
  }
}
