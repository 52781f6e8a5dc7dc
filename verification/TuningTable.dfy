/** The tuned-configuration table: the best pair of configurations for every batch size, and the pruning of runs of
    equal configurations, which leaves every nearest-key lookup as it was. */
module TuningTable {
  import opened Wrappers
  import opened Sums

  /** A row of the table: the batch size and its configuration. */
  datatype Row = Row(key: int, config: string)

  /** Rows come sorted by batch size, each once. */
  predicate Increasing(t: seq<Row>)
  {
    forall i, j :: 0 <= i < j < |t| ==> t[i].key < t[j].key
  }

  // ---------------------------------------------------------------- runs of equal configurations

  /** `(hash != hash.shift()).cumsum()`: the number of the run that row `i` is in. */
  function Group(t: seq<Row>, i: nat): nat
    requires i < |t|
  {
    if i == 0 then 1 else Group(t, i - 1) + if t[i].config != t[i - 1].config then 1 else 0
  }

  /** Members of run `g` among the first `n` rows. */
  function Members(t: seq<Row>, g: nat, n: nat): set<nat>
    requires n <= |t|
  {
    set i: nat | i < n && Group(t, i) == g
  }

  /** `_group_size` and `_pos_in_group`. */
  function GroupSize(t: seq<Row>, i: nat): nat
    requires i < |t|
  {
    |Members(t, Group(t, i), |t|)|
  }

  function PosInGroup(t: seq<Row>, i: nat): nat
    requires i < |t|
  {
    |Members(t, Group(t, i), i)|
  }

  predicate Keeps(t: seq<Row>, minConsecutive: nat, i: nat)
    requires i < |t|
  {
    GroupSize(t, i) < minConsecutive || PosInGroup(t, i) == 0 || PosInGroup(t, i) == GroupSize(t, i) - 1
  }

  lemma {:induction false} GroupMonotone(t: seq<Row>, i: nat, j: nat)
    requires i <= j < |t|
    ensures Group(t, i) <= Group(t, j)
    ensures Group(t, i) == Group(t, j) ==> t[i].config == t[j].config
    decreases j - i
  {
    if i < j {
      GroupMonotone(t, i, j - 1);
    }
  }

  /** A row that is dropped lies strictly between two kept rows of its run. */
  lemma {:induction false} DroppedIsInside(t: seq<Row>, minConsecutive: nat, i: nat) returns (a: nat, b: nat)
    requires i < |t| && !Keeps(t, minConsecutive, i)
    ensures a < i < b < |t| && Group(t, a) == Group(t, i) == Group(t, b)
    ensures Keeps(t, minConsecutive, a) && Keeps(t, minConsecutive, b)
  {
    a := RunStart(t, i);
    b := RunEnd(t, i);
  }

  lemma {:induction false} RunStart(t: seq<Row>, i: nat) returns (a: nat)
    requires i < |t| && PosInGroup(t, i) > 0
    ensures a < i && Group(t, a) == Group(t, i) && PosInGroup(t, a) == 0
    ensures forall j :: 0 <= j < a ==> Group(t, j) != Group(t, i)
  {
    var g := Group(t, i);
    var some :| some in Members(t, g, i);
    a := some;
    while Members(t, g, a) != {}
      invariant a < i && Group(t, a) == g
      decreases a
    {
      var c :| c in Members(t, g, a);
      a := c;
    }
    assert forall j :: 0 <= j < a && Group(t, j) == g ==> j in Members(t, g, a);
  }

  /** The members up to the last one are the earlier ones and itself. */
  lemma {:induction false} LastMember(t: seq<Row>, b: nat)
    requires b < |t| && forall j :: b < j < |t| ==> Group(t, j) != Group(t, b)
    ensures PosInGroup(t, b) == GroupSize(t, b) - 1
  {
    var g := Group(t, b);
    assert Members(t, g, |t|) == Members(t, g, b) + {b};
    assert b !in Members(t, g, b);
  }

  lemma {:induction false} RunEnd(t: seq<Row>, i: nat) returns (b: nat)
    requires i < |t| && PosInGroup(t, i) != GroupSize(t, i) - 1
    ensures i < b < |t| && Group(t, b) == Group(t, i) && PosInGroup(t, b) == GroupSize(t, b) - 1
    ensures forall j :: b < j < |t| ==> Group(t, j) != Group(t, i)
  {
    var g := Group(t, i);
    if forall j :: i < j < |t| ==> Group(t, j) != g {
      LastMember(t, i);
    }
    b :| i < b < |t| && Group(t, b) == g;
    while exists j :: b < j < |t| && Group(t, j) == g
      invariant i < b < |t| && Group(t, b) == g
      decreases |t| - b
    {
      var j :| b < j < |t| && Group(t, j) == g;
      b := j;
    }
    LastMember(t, b);
  }

  /** All rows from `lo` to `hi` have one configuration. */
  ghost predicate SameConfig(t: seq<Row>, lo: nat, hi: nat)
  {
    lo <= hi < |t| && forall j :: lo <= j <= hi ==> t[j].config == t[lo].config
  }

  lemma {:induction false} SameConfigSameGroup(t: seq<Row>, lo: nat, hi: nat)
    requires SameConfig(t, lo, hi)
    ensures forall j :: lo <= j <= hi ==> Group(t, j) == Group(t, lo)
    decreases hi - lo
  {
    if lo < hi {
      SameConfigSameGroup(t, lo, hi - 1);
    }
  }

  lemma {:induction false} StretchSize(s: set<nat>, lo: nat, hi: nat)
    requires lo <= hi && forall j: nat :: lo <= j <= hi ==> j in s
    ensures |s| >= hi - lo + 1
    ensures (forall j :: j in s ==> lo <= j <= hi) ==> |s| == hi - lo + 1
  {
    var stretch := Upto(hi + 1) - Upto(lo);
    assert Upto(hi + 1) == stretch + Upto(lo);
    SubsetCard(stretch, s);
    if forall j :: j in s ==> lo <= j <= hi {
      assert s == stretch;
    }
  }

  /** A row is dropped exactly when it lies strictly inside a stretch of at least `minConsecutive` rows of one
      configuration. */
  lemma {:induction false} DroppedExactly(t: seq<Row>, minConsecutive: nat, i: nat)
    requires i < |t|
    ensures !Keeps(t, minConsecutive, i) <==>
              exists lo: nat, hi: nat :: lo < i < hi && SameConfig(t, lo, hi) && hi - lo + 1 >= minConsecutive
  {
    if !Keeps(t, minConsecutive, i) {
      InsideStretch(t, i);
    }
    forall lo: nat, hi: nat | lo < i < hi && SameConfig(t, lo, hi) && hi - lo + 1 >= minConsecutive
      ensures !Keeps(t, minConsecutive, i)
    {
      StretchDrops(t, lo, i, hi);
    }
  }

  lemma {:induction false} InsideStretch(t: seq<Row>, i: nat)
    requires i < |t| && PosInGroup(t, i) > 0 && PosInGroup(t, i) != GroupSize(t, i) - 1
    ensures exists lo: nat, hi: nat :: lo < i < hi && SameConfig(t, lo, hi) && hi - lo + 1 >= GroupSize(t, i)
  {
    var lo := RunStart(t, i);
    var hi := RunEnd(t, i);
    var g := Group(t, i);
    forall j | lo <= j <= hi
      ensures Group(t, j) == g && t[j].config == t[lo].config
    {
      GroupMonotone(t, lo, j);
      GroupMonotone(t, j, hi);
    }
    assert SameConfig(t, lo, hi);
    forall j | j in Members(t, g, |t|)
      ensures lo <= j <= hi
    {
    }
    StretchSize(Members(t, g, |t|), lo, hi);
  }

  lemma {:induction false} StretchDrops(t: seq<Row>, lo: nat, i: nat, hi: nat)
    requires lo < i < hi && SameConfig(t, lo, hi)
    ensures GroupSize(t, i) >= hi - lo + 1 && 0 < PosInGroup(t, i) < GroupSize(t, i) - 1
  {
    SameConfigSameGroup(t, lo, hi);
    var g := Group(t, i);
    StretchSize(Members(t, g, |t|), lo, hi);
    assert lo in Members(t, g, i);
    var behind := Members(t, g, i) + {i, hi};
    assert |behind| == |Members(t, g, i)| + 2;
    SubsetCard(behind, Members(t, g, |t|));
  }

  // ---------------------------------------------------------------- pruning

  /** The indices of the kept rows among the first `n`. */
  function KeptIndices(t: seq<Row>, minConsecutive: nat, n: nat): (k: seq<nat>)
    requires n <= |t|
    ensures forall i: nat :: i in k <==> i < n && Keeps(t, minConsecutive, i)
    ensures forall i, j :: 0 <= i < j < |k| ==> k[i] < k[j]
  {
    if n == 0 then []
    else
      var k := KeptIndices(t, minConsecutive, n - 1);
      assert forall j :: 0 <= j < |k| ==> k[j] in k;
      if Keeps(t, minConsecutive, n - 1) then k + [n - 1] else k
  }

  /** remove_middle_consecutive_duplicates_configs. */
  function Pruned(t: seq<Row>, minConsecutive: nat): (p: seq<Row>)
    ensures |p| == |KeptIndices(t, minConsecutive, |t|)|
    ensures forall i :: 0 <= i < |p| ==>
              KeptIndices(t, minConsecutive, |t|)[i] < |t| && p[i] == t[KeptIndices(t, minConsecutive, |t|)[i]]
  {
    KeptInRange(t, minConsecutive);
    var k := KeptIndices(t, minConsecutive, |t|);
    seq(|k|, i requires 0 <= i < |k| => t[k[i]])
  }

  lemma {:induction false} KeptInRange(t: seq<Row>, minConsecutive: nat)
    ensures forall j :: 0 <= j < |KeptIndices(t, minConsecutive, |t|)| ==>
              KeptIndices(t, minConsecutive, |t|)[j] < |t|
                && Keeps(t, minConsecutive, KeptIndices(t, minConsecutive, |t|)[j])
  {
    var k := KeptIndices(t, minConsecutive, |t|);
    forall j | 0 <= j < |k|
      ensures k[j] < |t| && Keeps(t, minConsecutive, k[j])
    {
      assert k[j] in k;
    }
  }

  lemma {:induction false} PrunedIncreases(t: seq<Row>, minConsecutive: nat)
    requires Increasing(t)
    ensures Increasing(Pruned(t, minConsecutive))
  {
    hide Keeps;
    KeptInRange(t, minConsecutive);
  }

  /** The pruned table consists of kept rows, in order. */
  lemma {:induction false} PrunedRow(t: seq<Row>, minConsecutive: nat, row: Row) returns (i: nat)
    requires row in Pruned(t, minConsecutive)
    ensures i < |t| && Keeps(t, minConsecutive, i) && t[i] == row
  {
    hide Keeps;
    var k, p := KeptIndices(t, minConsecutive, |t|), Pruned(t, minConsecutive);
    var j :| 0 <= j < |p| && p[j] == row;
    KeptInRange(t, minConsecutive);
    i := k[j];
  }

  /** And every kept row is there. */
  lemma {:induction false} KeptRow(t: seq<Row>, minConsecutive: nat, i: nat)
    requires i < |t| && Keeps(t, minConsecutive, i)
    ensures t[i] in Pruned(t, minConsecutive)
  {
    hide Keeps;
    var k, p := KeptIndices(t, minConsecutive, |t|), Pruned(t, minConsecutive);
    assert i in k;
    var j :| 0 <= j < |k| && k[j] == i;
    assert p[j] == t[i];
  }

  // ---------------------------------------------------------------- lookup

  function Distance(a: int, b: int): nat
  {
    if a >= b then a - b else b - a
  }

  /** The order in which a lookup prefers keys: nearer first, then smaller. */
  predicate Prefers(x: int, a: int, b: int)
  {
    Distance(a, x) < Distance(b, x) || (Distance(a, x) == Distance(b, x) && a <= b)
  }

  /** `min(keys, key=lambda y: abs(y - x))`: the first of the nearest rows. */
  function Nearest(t: seq<Row>, x: int): (r: Row)
    requires |t| > 0
    ensures r in t
  {
    if |t| == 1 then t[0]
    else
      var r := Nearest(t[..|t| - 1], x);
      if Distance(t[|t| - 1].key, x) < Distance(r.key, x) then t[|t| - 1] else r
  }

  lemma {:induction false} NearestPreferred(t: seq<Row>, x: int)
    requires |t| > 0 && Increasing(t)
    ensures forall row :: row in t ==> Prefers(x, Nearest(t, x).key, row.key)
    decreases |t|
  {
    if |t| > 1 {
      var n := |t| - 1;
      NearestPreferred(t[..n], x);
      var r := Nearest(t[..n], x);
      assert r.key < t[n].key by {
        var i :| 0 <= i < n && t[..n][i] == r;
      }
      forall row | row in t
        ensures Prefers(x, Nearest(t, x).key, row.key)
      {
        if row != t[n] {
          var i :| 0 <= i < |t| && t[i] == row;
          assert t[..n][i] == row;
        }
      }
    }
  }

  /** For every query the pruned table yields the same configuration as the full one. */
  lemma {:induction false} PruningKeepsLookups(t: seq<Row>, minConsecutive: nat, x: int)
    requires Increasing(t) && |t| > 0
    ensures |Pruned(t, minConsecutive)| > 0
    ensures Nearest(Pruned(t, minConsecutive), x).config == Nearest(t, x).config
  {
    var p := Pruned(t, minConsecutive);
    PrunedIncreases(t, minConsecutive);
    var full := Nearest(t, x);
    NearestPreferred(t, x);
    var i :| 0 <= i < |t| && t[i] == full;
    hide Keeps, Pruned, Nearest, Group;
    if Keeps(t, minConsecutive, i) {
      KeptRow(t, minConsecutive, i);
      NearestPreferred(p, x);
      var j := PrunedRow(t, minConsecutive, Nearest(p, x));
      SameKey(t, t[j], full);
    } else {
      var a, b := DroppedIsInside(t, minConsecutive, i);
      KeptRow(t, minConsecutive, a);
      KeptRow(t, minConsecutive, b);
      NearestPreferred(p, x);
      var j := PrunedRow(t, minConsecutive, Nearest(p, x));
      BetweenEnds(t, a, i, b, j, x);
    }
  }

  lemma {:induction false} SameKey(t: seq<Row>, r: Row, s: Row)
    requires Increasing(t) && r in t && s in t && r.key == s.key
    ensures r == s
  {
    var i :| 0 <= i < |t| && t[i] == r;
    var j :| 0 <= j < |t| && t[j] == s;
    assert i < j ==> t[i].key < t[j].key;
    assert j < i ==> t[j].key < t[i].key;
  }

  lemma {:induction false} KeysOrdered(t: seq<Row>, i: nat, j: nat)
    requires Increasing(t) && i < |t| && j < |t|
    ensures i < j ==> t[i].key < t[j].key
  {
  }

  /** A query that is nearest to a row inside a run prefers the ends of that run to every row outside it. */
  lemma {:induction false} BetweenEnds(t: seq<Row>, a: nat, i: nat, b: nat, j: nat, x: int)
    requires Increasing(t) && a < i < b < |t| && j < |t| && Group(t, a) == Group(t, i) == Group(t, b)
    requires Prefers(x, t[i].key, t[a].key) && Prefers(x, t[i].key, t[b].key)
    requires Prefers(x, t[j].key, t[a].key) && Prefers(x, t[j].key, t[b].key)
    ensures t[j].config == t[i].config
  {
    assert t[a].key < t[i].key < t[b].key;
    assert t[a].key < x < t[b].key;
    KeysOrdered(t, j, a);
    KeysOrdered(t, b, j);
    GroupMonotone(t, a, j);
    GroupMonotone(t, j, b);
    GroupMonotone(t, a, i);
  }

  // ---------------------------------------------------------------- the best pair per batch size

  /** A measured kernel: batch size, block size, direction, duration, configuration. */
  datatype Sample = Sample(batch: int, block: int, up: bool, duration: nat, config: string)

  predicate InCell(s: Sample, batch: int, block: int, up: bool)
  {
    s.batch == batch && s.block == block && s.up == up
  }

  /** `groupby(...)[duration].idxmin()` for one cell: the first of its fastest samples. */
  function Fastest(samples: seq<Sample>, batch: int, block: int, up: bool): (r: Option<Sample>)
    ensures r.Some? ==> r.value in samples && InCell(r.value, batch, block, up)
    ensures forall s :: s in samples && InCell(s, batch, block, up) ==> r.Some? && r.value.duration <= s.duration
  {
    if |samples| == 0 then None
    else
      var n := |samples| - 1;
      var r := Fastest(samples[..n], batch, block, up);
      assert samples == samples[..n] + [samples[n]];
      if InCell(samples[n], batch, block, up)
        && (r == None || samples[n].duration < r.value.duration) then Some(samples[n]) else r
  }

  /** Sample `i` is in the cell, none of the cell is faster, and none before it as fast. */
  ghost predicate FirstFastest(samples: seq<Sample>, batch: int, block: int, up: bool, i: nat)
  {
    && i < |samples| && samples[i].batch == batch && samples[i].block == block && samples[i].up == up
    && forall j :: 0 <= j < |samples| && samples[j].batch == batch && samples[j].block == block && samples[j].up == up
         ==> samples[i].duration <= samples[j].duration && (j < i ==> samples[i].duration < samples[j].duration)
  }

  lemma {:induction false} FastestIsFirst(samples: seq<Sample>, batch: int, block: int, up: bool) returns (i: nat)
    requires Fastest(samples, batch, block, up).Some?
    ensures FirstFastest(samples, batch, block, up, i) && samples[i] == Fastest(samples, batch, block, up).value
    decreases |samples|
  {
    var n := |samples| - 1;
    var before := Fastest(samples[..n], batch, block, up);
    if InCell(samples[n], batch, block, up) && (before == None || samples[n].duration < before.value.duration) {
      i := n;
      forall j | 0 <= j < n && InCell(samples[j], batch, block, up)
        ensures samples[n].duration < samples[j].duration
      {
        assert samples[..n][j] in samples[..n];
      }
    } else {
      i := FastestIsFirst(samples[..n], batch, block, up);
      assert forall j :: 0 <= j < n ==> samples[..n][j] == samples[j];
    }
  }

  /** The up and down samples that make up a row of the result. */
  datatype Pair = Pair(up: Sample, down: Sample)
  {
    function Total(): nat { up.duration + down.duration }
  }

  /** The inner join of both minima on one block size. */
  function BestOfBlock(samples: seq<Sample>, batch: int, block: int): Option<Pair>
  {
    var u, d := Fastest(samples, batch, block, true), Fastest(samples, batch, block, false);
    if u.Some? && d.Some? then Some(Pair(u.value, d.value)) else None
  }

  /** `idxmin` over the joined rows of a batch size, block sizes in the order given. */
  function BestPair(samples: seq<Sample>, batch: int, blocks: seq<int>): Option<Pair>
  {
    if |blocks| == 0 then None
    else
      var best, here := BestPair(samples, batch, blocks[..|blocks| - 1]),
        BestOfBlock(samples, batch, blocks[|blocks| - 1]);
      if best == None then here
      else if here.Some? && here.value.Total() < best.value.Total() then here
      else best
  }

  /** Samples that can be used together: both directions of one batch and block size. */
  predicate Compatible(samples: seq<Sample>, batch: int, p: Pair)
  {
    p.up in samples && p.down in samples && InCell(p.up, batch, p.up.block, true)
      && InCell(p.down, batch, p.up.block, false)
  }

  /** The pair chosen for a batch size is usable, made of the first fastest samples of its block size, and no usable
      pair is faster in total. */
  lemma {:induction false} BestPairIsMinimal(samples: seq<Sample>, batch: int, blocks: seq<int>)
    ensures var best := BestPair(samples, batch, blocks);
            && (best.Some? ==>
                  && Compatible(samples, batch, best.value) && best.value.up.block in blocks
                  && exists i: nat, j: nat :: && FirstFastest(samples, batch, best.value.up.block, true, i)
                                    && FirstFastest(samples, batch, best.value.up.block, false, j)
                                    && best.value == Pair(samples[i], samples[j]))
            && (forall p :: Compatible(samples, batch, p) && p.up.block in blocks ==>
               best.Some? && best.value.up.duration + best.value.down.duration <= p.up.duration + p.down.duration)
    decreases |blocks|
  {
    if |blocks| > 0 {
      var n := |blocks| - 1;
      BestPairIsMinimal(samples, batch, blocks[..n]);
      assert blocks == blocks[..n] + [blocks[n]];
      BlockIsMinimal(samples, batch, blocks[n]);
      hide BestOfBlock, Compatible, FirstFastest;
    }
  }

  /** Among equally fast pairs it is that of the first block size. */
  lemma {:induction false} BestPairIsFirst(samples: seq<Sample>, batch: int, blocks: seq<int>) returns (i: nat)
    requires BestPair(samples, batch, blocks).Some?
    ensures var best := BestPair(samples, batch, blocks).value;
            && i < |blocks| && best.up.block == blocks[i]
            && forall j, p :: 0 <= j < i && Compatible(samples, batch, p) && p.up.block == blocks[j] ==>
                 best.up.duration + best.down.duration < p.up.duration + p.down.duration
    decreases |blocks|
  {
    var n := |blocks| - 1;
    var before, here := BestPair(samples, batch, blocks[..n]), BestOfBlock(samples, batch, blocks[n]);
    BestPairIsMinimal(samples, batch, blocks[..n]);
    BlockIsMinimal(samples, batch, blocks[n]);
    hide BestOfBlock, Compatible, FirstFastest;
    if before == None || (here.Some? && here.value.Total() < before.value.Total()) {
      i := n;
      forall j, p | 0 <= j < n && Compatible(samples, batch, p) && p.up.block == blocks[j]
        ensures here.value.Total() < p.Total()
      {
        assert blocks[..n][j] in blocks[..n];
      }
    } else {
      i := BestPairIsFirst(samples, batch, blocks[..n]);
      assert forall j :: 0 <= j < i ==> blocks[..n][j] == blocks[j];
    }
  }

  lemma {:induction false} BlockIsMinimal(samples: seq<Sample>, batch: int, block: int)
    ensures var best := BestOfBlock(samples, batch, block);
            && (best.Some? ==>
                  && Compatible(samples, batch, best.value) && best.value.up.block == block
                  && exists i: nat, j: nat :: && FirstFastest(samples, batch, block, true, i)
                                    && FirstFastest(samples, batch, block, false, j)
                                    && best.value == Pair(samples[i], samples[j]))
            && (forall p :: Compatible(samples, batch, p) && p.up.block == block ==>
               best.Some? && best.value.up.duration + best.value.down.duration <= p.up.duration + p.down.duration)
  {
    if BestOfBlock(samples, batch, block).Some? {
      var i := FastestIsFirst(samples, batch, block, true);
      var j := FastestIsFirst(samples, batch, block, false);
      hide Fastest, FirstFastest;
    }
  }
}
