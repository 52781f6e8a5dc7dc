/** The warp-wide primitives of sampler_bf16.h. A warp register is a sequence with one entry per lane; a shuffle
    reads the registers of all lanes at once. */
module WarpOps {
  import opened Sums

  ghost predicate IsPow2(n: nat)
  {
    n == 1 || (n > 1 && n % 2 == 0 && IsPow2(n / 2))
  }

  /** Log-step inclusive scan with `__shfl_up_sync`. */
  method WarpInclusiveSum(vals: seq<nat>) returns (r: seq<nat>)
    ensures |r| == |vals|
    ensures forall l :: 0 <= l < |vals| ==> r[l] == Sum(vals[..l + 1])
  {
    r := vals;
    var offset: nat := 1;
    forall l | 0 <= l < |vals|
      ensures vals[l] == WindowSum(vals, l, 1)
    {
      assert vals[l..l + 1] == [vals[l]] && Sum([vals[l]]) == vals[l];
    }
    while offset < |vals|
      invariant 1 <= offset
      invariant |r| == |vals|
      invariant forall l :: 0 <= l < |vals| ==> r[l] == WindowSum(vals, l, offset)
    {
      ScanStep(vals, r, offset);
      r := seq(|r|, l requires 0 <= l < |r| => ShflUpAdd(r, l, offset));
      offset := offset * 2;
    }
    forall l | 0 <= l < |vals|
      ensures WindowSum(vals, l, offset) == Sum(vals[..l + 1])
    {
      assert vals[0..l + 1] == vals[..l + 1];
    }
  }

  function ShflUpAdd(r: seq<nat>, l: nat, offset: nat): nat
    requires l < |r|
  {
    if l >= offset then r[l] + r[l - offset] else r[l]
  }

  /** Sum of the `width` entries that end at `l`, cut off at the start of the warp. */
  ghost function WindowSum(vals: seq<nat>, l: nat, width: nat): nat
    requires l < |vals|
  {
    Sum(vals[if l + 1 >= width then l + 1 - width else 0..l + 1])
  }

  lemma {:induction false} ScanStep(vals: seq<nat>, r: seq<nat>, offset: nat)
    requires |r| == |vals| && offset >= 1
    requires forall l :: 0 <= l < |vals| ==> r[l] == WindowSum(vals, l, offset)
    ensures forall l :: 0 <= l < |vals| ==>
              ShflUpAdd(r, l, offset) == WindowSum(vals, l, 2 * offset)
  {
    forall l | 0 <= l < |vals|
      ensures ShflUpAdd(r, l, offset) == WindowSum(vals, l, 2 * offset)
    {
      if l >= offset {
        var lo := if l + 1 >= 2 * offset then l + 1 - 2 * offset else 0;
        SumWindow(vals, lo, l - offset + 1, l + 1);
      }
    }
  }

  /** The lane whose number differs from `l` only in the bit of weight `offset`, a power of two: that bit is set
      exactly when `l % (2 * offset) >= offset`. */
  function XorLane(l: nat, offset: nat, stride: nat): int
    requires stride > 0
  {
    if l % stride < offset then l + offset else l - offset
  }

  /** One butterfly round over the whole warp. */
  function ShflXorAdd(r: seq<nat>, offset: nat, stride: nat): (s: seq<nat>)
    requires stride > 0
    requires forall l :: 0 <= l < |r| ==> 0 <= XorLane(l, offset, stride) < |r|
    ensures |s| == |r|
    ensures forall l :: 0 <= l < |r| ==> s[l] == r[l] + r[XorLane(l, offset, stride)]
  {
    seq(|r|, l requires 0 <= l < |r| => r[l] + r[XorLane(l, offset, stride)])
  }

  /** Butterfly all-reduce with `__shfl_xor_sync`: every lane ends with the sum over the warp. */
  method WarpReduceSum(vals: seq<nat>) returns (r: seq<nat>)
    requires IsPow2(|vals|)
    ensures |r| == |vals|
    ensures forall l :: 0 <= l < |vals| ==> r[l] == Sum(vals)
  {
    r := vals;
    var stride: nat := |vals|;
    var offset: nat := |vals| / 2;
    ghost var groups: nat := 1;
    ReducedStart(vals);
    while offset >= 1
      invariant IsPow2(stride) && offset == stride / 2 && Tiles(groups, stride, |vals|)
      invariant Reduced(vals, r, stride)
    {
      ButterflyStep(vals, r, offset, stride, groups);
      r := ShflXorAdd(r, offset, stride);
      stride, groups := offset, groups * 2;
      offset := offset / 2;
    }
    ReducedEnd(vals, r);
  }

  /** Every lane holds the sum of its residue class modulo `stride`. */
  ghost predicate Reduced(vals: seq<nat>, r: seq<nat>, stride: nat)
    requires stride > 0
  {
    |r| == |vals| && forall l :: 0 <= l < |vals| ==> r[l] == ClassSum(vals, l % stride, stride)
  }

  lemma {:induction false} ReducedStart(vals: seq<nat>)
    requires |vals| > 0
    ensures Reduced(vals, vals, |vals|) && Tiles(1, |vals|, |vals|)
  {
    forall l | 0 <= l < |vals|
      ensures vals[l] == ClassSum(vals, l % |vals|, |vals|)
    {
      Joined(l, 0, l, |vals|);
      ClassSumSingle(vals, l, |vals|);
    }
    assert 1 * |vals| == |vals|;
  }

  lemma {:induction false} ReducedEnd(vals: seq<nat>, r: seq<nat>)
    requires Reduced(vals, r, 1)
    ensures forall l :: 0 <= l < |vals| ==> r[l] == Sum(vals)
  {
    ClassSumAll(vals);
  }

  ghost predicate Tiles(groups: nat, stride: nat, n: nat)
  {
    groups * stride == n
  }

  lemma {:induction false} ButterflyStep(vals: seq<nat>, r: seq<nat>, offset: nat, stride: nat, groups: nat)
    requires offset >= 1 && stride == 2 * offset && Tiles(groups, stride, |vals|)
    requires Reduced(vals, r, stride)
    ensures Tiles(groups * 2, offset, |vals|)
    ensures forall l :: 0 <= l < |vals| ==> 0 <= XorLane(l, offset, stride) < |vals|
    ensures Reduced(vals, ShflXorAdd(r, offset, stride), offset)
  {
    forall l | 0 <= l < |vals|
      ensures 0 <= XorLane(l, offset, stride) < |vals|
      ensures r[l] + r[XorLane(l, offset, stride)] == ClassSum(vals, l % offset, offset)
    {
      XorLaneFacts(l, offset, stride, groups);
      ClassSumHalves(vals, l % offset, offset, stride);
    }
    assert (groups * 2) * offset == groups * stride;
  }

  /** Sum of the entries whose position is `c` modulo `m`. */
  ghost function ClassSum(vals: seq<nat>, c: nat, m: nat): nat
    requires m > 0
  {
    if |vals| == 0 then 0
    else ClassSum(vals[..|vals| - 1], c, m) + if (|vals| - 1) % m == c then vals[|vals| - 1] else 0
  }

  lemma {:induction false} ClassSumSingle(vals: seq<nat>, l: nat, m: nat)
    requires |vals| <= m && l < m
    ensures ClassSum(vals, l, m) == if l < |vals| then vals[l] else 0
  {
    if |vals| > 0 {
      var n := |vals| - 1;
      ClassSumSingle(vals[..n], l, m);
      Joined(n, 0, n, m);
    }
  }

  lemma {:induction false} ClassSumAll(vals: seq<nat>)
    ensures ClassSum(vals, 0, 1) == Sum(vals)
  {
    if |vals| > 0 {
      ClassSumAll(vals[..|vals| - 1]);
    }
  }

  /** A residue class modulo `o` is the union of two classes modulo `2 * o`. */
  lemma {:induction false} ClassSumHalves(vals: seq<nat>, c: nat, o: nat, m: nat)
    requires c < o && m == 2 * o
    ensures ClassSum(vals, c, m) + ClassSum(vals, c + o, m) == ClassSum(vals, c, o)
  {
    if |vals| > 0 {
      ClassSumHalves(vals[..|vals| - 1], c, o, m);
      ModHalf(|vals| - 1, o, m);
    }
  }

  lemma {:induction false} ModHalf(j: nat, o: nat, m: nat)
    requires o > 0 && m == 2 * o
    ensures j % m < m
    ensures j % o == if j % m < o then j % m else j % m - o
  {
    var q, r := Split(j, m);
    assert q * m == (2 * q) * o;
    if r < o {
      Joined(j, 2 * q, r, o);
    } else {
      assert (2 * q + 1) * o == (2 * q) * o + o;
      Joined(j, 2 * q + 1, r - o, o);
    }
  }

  lemma {:induction false} XorLaneFacts(l: nat, o: nat, m: nat, groups: nat)
    requires o > 0 && m == 2 * o && l < groups * m
    ensures 0 <= XorLane(l, o, m) < groups * m
    ensures l % m < o ==> l % o == l % m && XorLane(l, o, m) % m == l % o + o
    ensures l % m >= o ==> l % m == l % o + o && XorLane(l, o, m) % m == l % o
  {
    var q, r := Split(l, m);
    if q >= groups {
      MulMono(groups, q, m);
    }
    MulStep(q, groups, m);
    ModHalf(l, o, m);
    Joined(XorLane(l, o, m), q, if r < o then r + o else r - o, m);
  }
}
