/** The FP8 DeepGEMM warmup: the prediction of its iterations and the two cached passes that perform them, each rank a
    share. */
module Warmup {
  import opened Wrappers
  import opened Sums


  /** Size of a weight tensor. */
  type Size = seq<nat>

  /** The expert weights of a grouped layer, with the largest M that its tokens can lead to. */
  datatype Experts = Experts(w13: Size, w2: Size, maxM: nat)

  /** A layer of the model: what each of the two filters extracts from it. */
  datatype Module = Module(dense: Option<Size>, grouped: Option<Experts>)

  /** M values of a dense weight, and the alignment of grouped ones. */
  datatype Plan = Plan(denseValues: Size -> seq<nat>, blockM: nat)
  {
    /** `range(block_m, MAX_M + 1, block_m)`. */
    function GroupedValues(maxM: nat): (m: seq<nat>)
      requires blockM > 0
      ensures |m| == maxM / blockM
      ensures forall i :: 0 <= i < |m| ==> m[i] == blockM + Start(i, blockM)
    {
      seq(maxM / blockM, i requires 0 <= i => blockM + Start(i, blockM))
    }
  }

  /** The M values of one weight, and one kernel call. */
  datatype Job = Job(size: Size, values: seq<nat>)

  datatype Call = Call(size: Size, tokens: nat)

  // ---------------------------------------------------------------- shares

  /** _shard_m_values_chunked. */
  function Shard(m: seq<nat>, rank: nat, world: nat): seq<nat>
    requires world > 1 ==> rank < world
  {
    if world <= 1 || |m| == 0 then m
    else
      var chunk := |m| / world;
      ShardBounds(|m|, rank, world);
      m[Start(rank, chunk)..Start(rank, chunk) + chunk]
  }

  lemma {:induction false} ShardBounds(n: nat, rank: nat, world: nat)
    requires rank < world
    ensures Start(rank, n / world) + n / world <= Start(world, n / world) <= n
    ensures n == Start(world, n / world) + n % world
  {
    var q, r := Split(n, world);
    StartIsProduct(world, q);
    StartMonotone(rank + 1, world, q);
  }

  /** The shares of the first `ranks` ranks, one after the other. */
  function Shares(m: seq<nat>, ranks: nat, world: nat): seq<nat>
    requires world > 1 && ranks <= world
  {
    if ranks == 0 then [] else Shares(m, ranks - 1, world) + Shard(m, ranks - 1, world)
  }

  /** Shares are consecutive, so disjoint, and together lack exactly the last `|m| mod world` values. */
  lemma {:induction false} SharesTile(m: seq<nat>, world: nat)
    requires world > 1
    ensures Shares(m, world, world) == m[..|m| - |m| % world]
  {
    ShardBounds(|m|, 0, world);
    SharesPrefix(m, world, world, |m| / world);
  }

  lemma {:induction false} SharesPrefix(m: seq<nat>, ranks: nat, world: nat, chunk: nat)
    requires world > 1 && ranks <= world && chunk == |m| / world
    ensures Start(ranks, chunk) <= |m| && Shares(m, ranks, world) == m[..Start(ranks, chunk)]
    decreases ranks
  {
    if ranks > 0 {
      SharesPrefix(m, ranks - 1, world, chunk);
      ShardIs(m, ranks - 1, world, chunk);
      var a, b := Start(ranks - 1, chunk), Start(ranks, chunk);
      hide Shard;
      Halves(m, a, b);
    }
  }

  lemma {:induction false} Halves(m: seq<nat>, a: nat, b: nat)
    requires a <= b <= |m|
    ensures m[..b] == m[..a] + m[a..b]
  {
  }

  lemma {:induction false} ShardIs(m: seq<nat>, rank: nat, world: nat, chunk: nat)
    requires world > 1 && rank < world && chunk == |m| / world
    ensures Start(rank, chunk) + chunk <= |m|
    ensures Shard(m, rank, world) == m[Start(rank, chunk)..Start(rank, chunk) + chunk]
  {
    ShardBounds(|m|, rank, world);
  }

  // ---------------------------------------------------------------- the work there is

  /** The lists of M values of the dense sizes that are new, in order. */
  function DenseWork(modules: seq<Module>, cache: set<Size>, plan: Plan): seq<Job>
    decreases |modules|
  {
    if |modules| == 0 then []
    else if modules[0].dense.Some? && modules[0].dense.value !in cache then
      [Job(modules[0].dense.value, plan.denseValues(modules[0].dense.value))]
      + DenseWork(modules[1..], cache + {modules[0].dense.value}, plan)
    else DenseWork(modules[1..], cache, plan)
  }

  function DenseCache(modules: seq<Module>, cache: set<Size>): set<Size>
  {
    cache + set m | m in modules && m.dense.Some? :: m.dense.value
  }

  /** One layer's new lists: its two weights share one when they have the same size. */
  function ExpertsWork(e: Experts, cache: set<Size>, plan: Plan): seq<Job>
    requires plan.blockM > 0
  {
    (if e.w13 in cache then [] else [Job(e.w13, plan.GroupedValues(e.maxM))])
    + (if e.w2 in cache + {e.w13} then [] else [Job(e.w2, plan.GroupedValues(e.maxM))])
  }

  function GroupedWork(modules: seq<Module>, cache: set<Size>, plan: Plan): seq<Job>
    requires plan.blockM > 0
    decreases |modules|
  {
    if |modules| == 0 then []
    else if modules[0].grouped.Some? then
      var e := modules[0].grouped.value;
      ExpertsWork(e, cache, plan) + GroupedWork(modules[1..], cache + {e.w13, e.w2}, plan)
    else GroupedWork(modules[1..], cache, plan)
  }

  function GroupedCache(modules: seq<Module>, cache: set<Size>): set<Size>
  {
    cache + (set m | m in modules && m.grouped.Some? :: m.grouped.value.w13)
      + (set m | m in modules && m.grouped.Some? :: m.grouped.value.w2)
  }

  /** No size comes up twice. */
  ghost predicate Once(work: seq<Job>)
  {
    forall i, j :: 0 <= i < j < |work| ==> work[i].size != work[j].size
  }

  ghost predicate InWork(work: seq<Job>, size: Size)
  {
    exists i :: 0 <= i < |work| && work[i].size == size
  }

  /** The dense work is each dense size of a layer that is not cached, once, with its M values. */
  lemma {:induction false} DenseWorkExactly(modules: seq<Module>, cache: set<Size>, plan: Plan)
    ensures var work := DenseWork(modules, cache, plan);
            && Once(work)
            && (forall size :: InWork(work, size) <==>
                  size !in cache && exists m :: m in modules && m.dense == Some(size))
            && forall i :: 0 <= i < |work| ==> work[i].values == plan.denseValues(work[i].size)
    decreases |modules|
  {
    if |modules| > 0 {
      var m, rest := modules[0], modules[1..];
      assert forall x :: x in modules <==> x == m || x in rest;
      if m.dense.Some? && m.dense.value !in cache {
        var job := Job(m.dense.value, plan.denseValues(m.dense.value));
        DenseWorkExactly(rest, cache + {job.size}, plan);
        OneMore(job, DenseWork(rest, cache + {job.size}, plan));
      } else {
        DenseWorkExactly(rest, cache, plan);
      }
      hide InWork, Once;
    }
  }

  ghost predicate HasWeight(m: Module, size: Size)
  {
    m.grouped.Some? && (size == m.grouped.value.w13 || size == m.grouped.value.w2)
  }

  /** Layer `k` is the first with an expert weight of that size. */
  ghost predicate FirstWith(modules: seq<Module>, size: Size, k: nat)
  {
    k < |modules| && HasWeight(modules[k], size) && forall l :: 0 <= l < k ==> !HasWeight(modules[l], size)
  }

  /** The grouped work is each size of an expert weight that is not cached, once, with the M values of the first layer
      that has it. */
  lemma {:induction false} GroupedWorkExactly(modules: seq<Module>, cache: set<Size>, plan: Plan)
    requires plan.blockM > 0
    ensures var work := GroupedWork(modules, cache, plan);
            && Once(work)
            && (forall size :: InWork(work, size) <==> size !in cache && exists m :: m in modules && HasWeight(m, size))
            && forall i, k: nat :: 0 <= i < |work| && FirstWith(modules, work[i].size, k) ==>
                 work[i].values == plan.GroupedValues(modules[k].grouped.value.maxM)
    decreases |modules|
  {
    if |modules| > 0 {
      var m, rest, work := modules[0], modules[1..], GroupedWork(modules, cache, plan);
      assert forall x :: x in modules <==> x == m || x in rest;
      if m.grouped == None {
        GroupedWorkExactly(rest, cache, plan);
        forall i, k: nat | 0 <= i < |work| && FirstWith(modules, work[i].size, k)
          ensures work[i].values == plan.GroupedValues(modules[k].grouped.value.maxM)
        {
          assert FirstWith(rest, work[i].size, k - 1);
        }
      } else {
        var e := m.grouped.value;
        var later := GroupedWork(rest, cache + {e.w13, e.w2}, plan);
        GroupedWorkExactly(rest, cache + {e.w13, e.w2}, plan);
        LayerFirst(m, e, later, cache, plan);
        hide InWork, Once, ExpertsWork;
        forall i, k: nat | 0 <= i < |work| && FirstWith(modules, work[i].size, k)
          ensures work[i].values == plan.GroupedValues(modules[k].grouped.value.maxM)
        {
          FirstLayer(modules, work[i].size, k, m, rest);
        }
      }
    }
  }

  lemma {:induction false} FirstLayer(modules: seq<Module>, size: Size, k: nat, m: Module, rest: seq<Module>)
    requires FirstWith(modules, size, k) && modules == [m] + rest
    ensures if HasWeight(m, size) then k == 0 else k > 0 && FirstWith(rest, size, k - 1)
  {
    assert modules[0] == m;
    assert forall l :: 0 <= l < |rest| ==> rest[l] == modules[l + 1];
  }

  /** The new sizes of one layer, in front of those of the layers behind it. */
  lemma {:induction false} LayerFirst(m: Module, e: Experts, later: seq<Job>, cache: set<Size>, plan: Plan)
    requires plan.blockM > 0 && m.grouped == Some(e) && Once(later)
    requires forall size :: InWork(later, size) ==> size !in cache && !HasWeight(m, size)
    ensures var first := ExpertsWork(e, cache, plan);
            && Once(first + later)
            && (forall size :: InWork(first + later, size) <==>
                  (size !in cache && HasWeight(m, size)) || InWork(later, size))
            && (forall i :: 0 <= i < |first| ==>
                  HasWeight(m, first[i].size) && first[i].values == plan.GroupedValues(e.maxM))
            && (forall i :: |first| <= i < |first + later| ==> !HasWeight(m, (first + later)[i].size))
  {
    var first := ExpertsWork(e, cache, plan);
    LayerOnce(e, later, cache, plan);
    hide Once, Plan.GroupedValues;
    forall i | |first| <= i < |first + later|
      ensures !HasWeight(m, (first + later)[i].size)
    {
      assert (first + later)[i] == later[i - |first|];
      assert InWork(later, later[i - |first|].size);
    }
    hide InWork;
  }

  lemma {:induction false} LayerOnce(e: Experts, later: seq<Job>, cache: set<Size>, plan: Plan)
    requires plan.blockM > 0 && Once(later)
    requires forall size :: InWork(later, size) ==> size !in cache && size != e.w13 && size != e.w2
    ensures var work := ExpertsWork(e, cache, plan) + later;
            && Once(work)
            && forall size :: InWork(work, size) <==>
                 (size !in cache && (size == e.w13 || size == e.w2)) || InWork(later, size)
  {
    var values := plan.GroupedValues(e.maxM);
    var first := if e.w13 in cache then [] else [Job(e.w13, values)];
    var second := if e.w2 in cache + {e.w13} then [] else [Job(e.w2, values)];
    assert ExpertsWork(e, cache, plan) + later == first + (second + later);
    hide *;
    OneOrNone(e.w2, values, second, later);
    OneOrNone(e.w13, values, first, second + later);
  }

  lemma {:induction false} OneOrNone(size: Size, values: seq<nat>, some: seq<Job>, work: seq<Job>)
    requires some == [] || some == [Job(size, values)]
    ensures some == [] ==> some + work == work
    ensures some != [] ==> forall s :: InWork(some + work, s) <==> s == size || InWork(work, s)
    ensures some != [] && Once(work) && !InWork(work, size) ==> Once(some + work)
  {
    if some != [] {
      OneMore(some[0], work);
    } else {
      assert some + work == work;
    }
  }

  lemma {:induction false} OneMore(job: Job, work: seq<Job>)
    ensures forall size :: InWork([job] + work, size) <==> size == job.size || InWork(work, size)
    ensures Once(work) && !InWork(work, job.size) ==> Once([job] + work)
  {
    var more := [job] + work;
    forall size
      ensures InWork(more, size) <==> size == job.size || InWork(work, size)
    {
      if i :| 0 <= i < |work| && work[i].size == size {
        assert more[i + 1].size == size;
      }
      assert more[0].size == job.size;
      assert forall i :: 0 < i < |more| ==> more[i] == work[i - 1];
    }
    assert forall i :: 0 < i < |more| ==> more[i] == work[i - 1];
  }

  /** After the passes nothing is left to do. */
  lemma {:induction false} NothingLeft(modules: seq<Module>, dense: set<Size>, grouped: set<Size>, plan: Plan)
    requires plan.blockM > 0
    ensures DenseWork(modules, DenseCache(modules, dense), plan) == []
            && GroupedWork(modules, GroupedCache(modules, grouped), plan) == []
  {
    CachedIsDone(modules, DenseCache(modules, dense), GroupedCache(modules, grouped), plan);
  }

  /** All sizes are in the caches. */
  lemma {:induction false} CachedIsDone(modules: seq<Module>, dense: set<Size>, grouped: set<Size>, plan: Plan)
    requires plan.blockM > 0
    requires DenseCache(modules, dense) == dense && GroupedCache(modules, grouped) == grouped
    ensures DenseWork(modules, dense, plan) == [] && GroupedWork(modules, grouped, plan) == []
    decreases |modules|
  {
    if |modules| > 0 {
      var m, rest := modules[0], modules[1..];
      assert m in modules;
      assert forall x :: x in rest ==> x in modules;
      assert DenseCache(rest, dense) == dense && GroupedCache(rest, grouped) == grouped;
      if m.dense.Some? {
        assert m.dense.value in DenseCache(modules, dense);
      }
      if m.grouped.Some? {
        var e := m.grouped.value;
        assert e.w13 in GroupedCache(modules, grouped) && e.w2 in GroupedCache(modules, grouped);
        assert grouped + {e.w13, e.w2} == grouped;
        assert grouped + {e.w13} == grouped;
      }
      CachedIsDone(rest, dense, grouped, plan);
    }
  }

  function Lengths(work: seq<Job>): nat
  {
    if |work| == 0 then 0 else |work[0].values| + Lengths(work[1..])
  }

  /** The shares that one rank has in every list, in order. */
  function ShareOf(work: seq<Job>, rank: nat, world: nat): (s: seq<Job>)
    requires world > 1 ==> rank < world
    ensures |s| == |work|
  {
    if |work| == 0 then []
    else [Job(work[0].size, Shard(work[0].values, rank, world))] + ShareOf(work[1..], rank, world)
  }

  /** The calls for one weight. */
  function Calls(size: Size, values: seq<nat>): (c: seq<Call>)
    ensures |c| == |values| && forall i :: 0 <= i < |c| ==> c[i] == Call(size, values[i])
  {
    seq(|values|, i requires 0 <= i < |values| => Call(size, values[i]))
  }

  /** The calls for all of them, one weight after the other. */
  function Flat(work: seq<Job>): seq<Call>
  {
    if |work| == 0 then [] else Calls(work[0].size, work[0].values) + Flat(work[1..])
  }

  lemma {:induction false} FlatLength(work: seq<Job>)
    ensures |Flat(work)| == Lengths(work)
    decreases |work|
  {
    if |work| > 0 {
      FlatLength(work[1..]);
    }
  }

  lemma {:induction false} WorkConcat(a: seq<Job>, b: seq<Job>, rank: nat, world: nat)
    requires world > 1 ==> rank < world
    ensures Lengths(a + b) == Lengths(a) + Lengths(b)
    ensures Flat(a + b) == Flat(a) + Flat(b)
    ensures ShareOf(a + b, rank, world) == ShareOf(a, rank, world) + ShareOf(b, rank, world)
    decreases |a|
  {
    if |a| == 0 {
      assert a + b == b;
    } else {
      assert (a + b)[1..] == a[1..] + b;
      WorkConcat(a[1..], b, rank, world);
      hide Shard;
      Associates(Calls(a[0].size, a[0].values), Flat(a[1..]), Flat(b));
      Associates([Job(a[0].size, Shard(a[0].values, rank, world))], ShareOf(a[1..], rank, world),
        ShareOf(b, rank, world));
    }
  }

  lemma {:induction false} Associates<T>(x: seq<T>, y: seq<T>, z: seq<T>)
    ensures x + (y + z) == (x + y) + z
  {
  }

  /** A single rank has everything to do. */
  lemma {:induction false} OneRank(work: seq<Job>, rank: nat, world: nat)
    requires world <= 1
    ensures ShareOf(work, rank, world) == work
    decreases |work|
  {
    if |work| > 0 {
      OneRank(work[1..], rank, world);
      assert work == [work[0]] + work[1..];
    }
  }

  /** What the first `ranks` ranks perform together. */
  function Together(work: seq<Job>, ranks: nat, world: nat): nat
    requires world > 1 && ranks <= world
  {
    if ranks == 0 then 0 else Together(work, ranks - 1, world) + Lengths(ShareOf(work, ranks - 1, world))
  }

  /** The values at the ends of the lists that no rank warms up. */
  function LeftOver(work: seq<Job>, world: nat): nat
    requires world > 0
  {
    if |work| == 0 then 0 else |work[0].values| % world + LeftOver(work[1..], world)
  }

  lemma {:induction false} TogetherFirst(work: seq<Job>, ranks: nat, world: nat)
    requires world > 1 && ranks <= world && |work| > 0
    ensures Together(work, ranks, world) == |Shares(work[0].values, ranks, world)| + Together(work[1..], ranks, world)
    decreases ranks
  {
    if ranks > 0 {
      TogetherFirst(work, ranks - 1, world);
      assert ShareOf(work, ranks - 1, world)[1..] == ShareOf(work[1..], ranks - 1, world);
    }
  }

  /** All ranks together fall short of the prediction by what is left over of every list. */
  lemma {:induction false} RanksFallShort(work: seq<Job>, world: nat)
    requires world > 1
    ensures Together(work, world, world) + LeftOver(work, world) == Lengths(work)
    decreases |work|
  {
    if |work| > 0 {
      RanksFallShort(work[1..], world);
      TogetherFirst(work, world, world);
      SharesTile(work[0].values, world);
      ShardBounds(|work[0].values|, 0, world);
    } else {
      NothingTogether(work, world, world);
    }
  }

  lemma {:induction false} NothingTogether(work: seq<Job>, ranks: nat, world: nat)
    requires world > 1 && ranks <= world && |work| == 0
    ensures Together(work, ranks, world) == 0
    decreases ranks
  {
    if ranks > 0 {
      NothingTogether(work, ranks - 1, world);
    }
  }

  // ---------------------------------------------------------------- the passes

  class WarmupState {
    const plan: Plan
    const rank: nat
    const world: nat
    var denseCache: set<Size>
    var groupedCache: set<Size>
    var calls: seq<Call>           // every kernel call so far; the progress bar shows their number

    ghost predicate Valid()
    {
      plan.blockM > 0 && (world > 1 ==> rank < world)
    }

    constructor (plan: Plan, rank: nat, world: nat)
      requires plan.blockM > 0 && (world > 1 ==> rank < world)
      ensures Valid() && calls == [] && denseCache == {} && groupedCache == {}
    {
      this.plan, this.rank, this.world := plan, rank, world;
      denseCache, groupedCache, calls := {}, {}, [];
    }

    /** One call per value of this rank's share. */
    method RunShare(w: Size, m: seq<nat>)
      requires Valid()
      modifies this`calls
      ensures calls == old(calls) + Calls(w, Shard(m, rank, world))
    {
      var share := Shard(m, rank, world);
      for i := 0 to |share|
        invariant calls == old(calls) + Calls(w, share)[..i]
      {
        calls := calls + [Call(w, share[i])];
      }
      assert Calls(w, share)[..|share|] == Calls(w, share);
    }

    method DenseWarmup(w: Size)
      requires Valid()
      modifies this`denseCache, this`calls
      ensures denseCache == old(denseCache) + {w}
      ensures calls == old(calls)
                       + if w in old(denseCache) then [] else Calls(w, Shard(plan.denseValues(w), rank, world))
    {
      if w in denseCache {
        return;
      }
      RunShare(w, plan.denseValues(w));
      denseCache := denseCache + {w};
    }

    /** The calls made and the sizes cached once the first `i` layers are through, whose new lists are `done`. */
    ghost predicate DenseThrough(modules: seq<Module>, i: nat, done: seq<Job>, calls0: seq<Call>, cache0: set<Size>,
                                 calls: seq<Call>, cache: set<Size>)
      requires Valid()
    {
      && i <= |modules|
      && calls == calls0 + Flat(ShareOf(done, rank, world))
      && DenseWork(modules, cache0, plan) == done + DenseWork(modules[i..], cache, plan)
      && cache == DenseCache(modules[..i], cache0)
    }

    lemma {:induction false} DenseBegins(modules: seq<Module>)
      requires Valid()
      ensures DenseThrough(modules, 0, [], calls, denseCache, calls, denseCache)
    {
      assert modules[0..] == modules;
    }

    lemma {:induction false} DenseEnds(modules: seq<Module>, done: seq<Job>, calls0: seq<Call>, cache0: set<Size>)
      requires Valid() && DenseThrough(modules, |modules|, done, calls0, cache0, calls, denseCache)
      ensures calls == calls0 + Flat(ShareOf(DenseWork(modules, cache0, plan), rank, world))
              && denseCache == DenseCache(modules, cache0)
    {
      assert modules[..|modules|] == modules;
      assert done == DenseWork(modules, cache0, plan);
    }

    /** One layer more, whose new lists are `added`. */
    lemma {:induction false} DenseNext(modules: seq<Module>, i: nat, done: seq<Job>, added: seq<Job>,
                                       calls0: seq<Call>, cache0: set<Size>,
                                       before: seq<Call>, cache: set<Size>)
      requires Valid() && i < |modules| && DenseThrough(modules, i, done, calls0, cache0, before, cache)
      requires added == if modules[i].dense.Some?
               && modules[i].dense.value !in cache
               then [Job(modules[i].dense.value, plan.denseValues(modules[i].dense.value))] else []
      requires denseCache == cache + if modules[i].dense.Some? then {modules[i].dense.value} else {}
      requires calls == before
                        + if |added| == 0 then [] else Calls(added[0].size, Shard(added[0].values, rank, world))
      ensures DenseThrough(modules, i + 1, done + added, calls0, cache0, calls, denseCache)
    {
      hide ShareOf, Flat, Shard, DenseCache;
      assert modules[i..][1..] == modules[i + 1..];
      DenseCacheStep(modules, i, cache0);
      NewShare(added, done);
      if added == [] {
        assert denseCache == cache;
      }
    }

    /** `deepgemm_fp8_gemm_nt_warmup`: the calls are this rank's share of the dense work. */
    method DensePass(modules: seq<Module>)
      requires Valid()
      modifies this`denseCache, this`calls
      ensures calls == old(calls) + Flat(ShareOf(DenseWork(modules, old(denseCache), plan), rank, world))
      ensures denseCache == DenseCache(modules, old(denseCache))
    {
      ghost var done: seq<Job> := [];
      DenseBegins(modules);
      hide DenseThrough, DenseWork;
      for i := 0 to |modules|
        invariant DenseThrough(modules, i, done, old(calls), old(denseCache), calls, denseCache)
      {
        ghost var added := if modules[i].dense.Some?
          && modules[i].dense.value !in denseCache
          then [Job(modules[i].dense.value, plan.denseValues(modules[i].dense.value))] else [];
        ghost var callsBefore, cacheBefore := calls, denseCache;
        if modules[i].dense.Some? {
          DenseWarmup(modules[i].dense.value);
        }
        DenseNext(modules, i, done, added, old(calls), old(denseCache), callsBefore, cacheBefore);
        done := done + added;
      }
      DenseEnds(modules, done, old(calls), old(denseCache));
    }

    lemma {:induction false} DenseCacheStep(modules: seq<Module>, i: nat, cache: set<Size>)
      requires i < |modules|
      ensures DenseCache(modules[..i + 1], cache)
           == DenseCache(modules[..i], cache) + if modules[i].dense.Some? then {modules[i].dense.value} else {}
      ensures modules[i].dense.Some? && modules[i].dense.value in DenseCache(modules[..i], cache)
          ==> DenseCache(modules[..i], cache) + {modules[i].dense.value} == DenseCache(modules[..i], cache)
    {
      assert modules[..i + 1] == modules[..i] + [modules[i]];
    }

    lemma {:induction false} NewShare(added: seq<Job>, done: seq<Job>)
      requires Valid() && |added| <= 1
      ensures Flat(ShareOf(done + added, rank, world))
           == Flat(ShareOf(done, rank, world))
              + if |added| == 0 then [] else Calls(added[0].size, Shard(added[0].values, rank, world))
    {
      ShareMore(done, added);
      if |added| == 1 {
        assert added[1..] == [];
        var job := Job(added[0].size, Shard(added[0].values, rank, world));
        assert ShareOf(added, rank, world) == [job] && [job][1..] == [];
      }
    }

    /** One expert weight, unless its size is known. */
    method ExpertWarmup(w: Size, maxM: nat)
      requires Valid()
      modifies this`groupedCache, this`calls
      ensures groupedCache == old(groupedCache) + {w}
      ensures calls == old(calls)
                       + if w in old(groupedCache) then [] else Calls(w, Shard(plan.GroupedValues(maxM), rank, world))
    {
      if w !in groupedCache {
        RunShare(w, plan.GroupedValues(maxM));
        groupedCache := groupedCache + {w};
      }
    }

    lemma {:induction false} ExpertsShare(e: Experts, cache: set<Size>)
      requires Valid()
      ensures Flat(ShareOf(ExpertsWork(e, cache, plan), rank, world))
           == (if e.w13 in cache then [] else Calls(e.w13, Shard(plan.GroupedValues(e.maxM), rank, world)))
              + (if e.w2 in cache + {e.w13} then [] else Calls(e.w2, Shard(plan.GroupedValues(e.maxM), rank, world)))
    {
      var first := if e.w13 in cache then [] else [Job(e.w13, plan.GroupedValues(e.maxM))];
      var second := if e.w2 in cache + {e.w13} then [] else [Job(e.w2, plan.GroupedValues(e.maxM))];
      NewShare(first, []);
      NewShare(second, first);
      assert [] + first == first;
    }

    method GroupedWarmup(e: Experts)
      requires Valid()
      modifies this`groupedCache, this`calls
      ensures groupedCache == old(groupedCache) + {e.w13, e.w2}
      ensures calls == old(calls) + Flat(ShareOf(ExpertsWork(e, old(groupedCache), plan), rank, world))
    {
      hide ShareOf, Flat, ExpertsWork, Shard, Plan.GroupedValues;
      ExpertsShare(e, groupedCache);
      if e.w13 in groupedCache && e.w2 in groupedCache {
        assert groupedCache + {e.w13, e.w2} == groupedCache;
        return;
      }
      ExpertWarmup(e.w13, e.maxM);
      ExpertWarmup(e.w2, e.maxM);
    }

    /** The same for the first `i` layers of the grouped pass. */
    ghost predicate GroupedThrough(modules: seq<Module>, i: nat, done: seq<Job>, calls0: seq<Call>,
                                   cache0: set<Size>,
                                   calls: seq<Call>, cache: set<Size>)
      requires Valid()
    {
      && i <= |modules|
      && calls == calls0 + Flat(ShareOf(done, rank, world))
      && GroupedWork(modules, cache0, plan) == done + GroupedWork(modules[i..], cache, plan)
      && cache == GroupedCache(modules[..i], cache0)
    }

    lemma {:induction false} GroupedBegins(modules: seq<Module>)
      requires Valid()
      ensures GroupedThrough(modules, 0, [], calls, groupedCache, calls, groupedCache)
    {
      assert modules[0..] == modules;
    }

    lemma {:induction false} GroupedEnds(modules: seq<Module>, done: seq<Job>, calls0: seq<Call>, cache0: set<Size>)
      requires Valid() && GroupedThrough(modules, |modules|, done, calls0, cache0, calls, groupedCache)
      ensures calls == calls0 + Flat(ShareOf(GroupedWork(modules, cache0, plan), rank, world))
              && groupedCache == GroupedCache(modules, cache0)
    {
      assert modules[..|modules|] == modules;
      assert done == GroupedWork(modules, cache0, plan);
    }

    /** One grouped layer more. */
    lemma {:induction false} GroupedNext(modules: seq<Module>, i: nat, done: seq<Job>, e: Experts,
                                         calls0: seq<Call>, cache0: set<Size>,
                                         before: seq<Call>, cache: set<Size>)
      requires Valid() && i < |modules| && GroupedThrough(modules, i, done, calls0, cache0, before, cache)
               && modules[i].grouped == Some(e)
      requires groupedCache == cache + {e.w13, e.w2}
      requires calls == before + Flat(ShareOf(ExpertsWork(e, cache, plan), rank, world))
      ensures GroupedThrough(modules, i + 1, done + ExpertsWork(e, cache, plan), calls0, cache0, calls, groupedCache)
    {
      hide ShareOf, Flat, ExpertsWork, GroupedCache;
      assert modules[i..][1..] == modules[i + 1..];
      GroupedCacheStep(modules, i, cache0);
      ShareMore(done, ExpertsWork(e, cache, plan));
    }

    lemma {:induction false} GroupedSkips(modules: seq<Module>, i: nat, done: seq<Job>, calls0: seq<Call>,
                                          cache0: set<Size>)
      requires Valid() && i < |modules| && GroupedThrough(modules, i, done, calls0, cache0, calls, groupedCache)
      requires modules[i].grouped == None
      ensures GroupedThrough(modules, i + 1, done, calls0, cache0, calls, groupedCache)
    {
      hide ShareOf, Flat, ExpertsWork, GroupedCache;
      assert modules[i..][1..] == modules[i + 1..];
      GroupedCacheStep(modules, i, cache0);
    }

    /** `deepgemm_grouped_fp8_gemm_nt_contiguous_warmup`. */
    method GroupedPass(modules: seq<Module>)
      requires Valid()
      modifies this`groupedCache, this`calls
      ensures calls == old(calls) + Flat(ShareOf(GroupedWork(modules, old(groupedCache), plan), rank, world))
      ensures groupedCache == GroupedCache(modules, old(groupedCache))
    {
      ghost var done: seq<Job> := [];
      GroupedBegins(modules);
      hide GroupedThrough, ShareOf, Flat, ExpertsWork;
      for i := 0 to |modules|
        invariant GroupedThrough(modules, i, done, old(calls), old(groupedCache), calls, groupedCache)
      {
        if modules[i].grouped.Some? {
          ghost var more := ExpertsWork(modules[i].grouped.value, groupedCache, plan);
          ghost var callsBefore, cacheBefore := calls, groupedCache;
          GroupedWarmup(modules[i].grouped.value);
          GroupedNext(modules, i, done, modules[i].grouped.value, old(calls), old(groupedCache), callsBefore,
            cacheBefore);
          done := done + more;
        } else {
          GroupedSkips(modules, i, done, old(calls), old(groupedCache));
        }
      }
      GroupedEnds(modules, done, old(calls), old(groupedCache));
    }

    lemma {:induction false} GroupedCacheStep(modules: seq<Module>, i: nat, cache: set<Size>)
      requires i < |modules|
      ensures GroupedCache(modules[..i + 1], cache)
           == GroupedCache(modules[..i], cache) + if modules[i].grouped.Some?
             then {modules[i].grouped.value.w13, modules[i].grouped.value.w2} else {}
    {
      assert modules[..i + 1] == modules[..i] + [modules[i]];
    }

    lemma {:induction false} ShareMore(done: seq<Job>, more: seq<Job>)
      requires Valid()
      ensures Flat(ShareOf(done + more, rank, world))
                == Flat(ShareOf(done, rank, world)) + Flat(ShareOf(more, rank, world))
    {
      WorkConcat(done, more, rank, world);
      WorkConcat(ShareOf(done, rank, world), ShareOf(more, rank, world), rank, world);
    }

    /** `_count_warmup_iterations`: one walk over the modules, with copies of the caches. */
    method CountWarmupIterations(modules: seq<Module>) returns (total: int)
      requires Valid() && forall m :: m in modules ==> m.dense == None || m.grouped == None
      ensures total == Lengths(DenseWork(modules, denseCache, plan)) + Lengths(GroupedWork(modules, groupedCache, plan))
    {
      var seenDense, seenGrouped := denseCache, groupedCache;
      total := 0;
      ghost var dense: nat, grouped: nat := 0, 0;
      var i := 0;
      assert modules[0..] == modules;
      while i < |modules|
        invariant i <= |modules|
        invariant dense + Lengths(DenseWork(modules[i..], seenDense, plan))
                    == Lengths(DenseWork(modules, denseCache, plan))
        invariant grouped + Lengths(GroupedWork(modules[i..], seenGrouped, plan))
                    == Lengths(GroupedWork(modules, groupedCache, plan))
        invariant total == dense + grouped
      {
        hide ExpertsWork;
        var m := modules[i];
        assert m in modules && modules[i..][1..] == modules[i + 1..];
        i := i + 1;
        if m.dense.Some? {
          if m.dense.value !in seenDense {
            total, dense := total + |plan.denseValues(m.dense.value)|, dense + |plan.denseValues(m.dense.value)|;
            seenDense := seenDense + {m.dense.value};
          }
        } else if m.grouped.Some? {
          var e := m.grouped.value;
          WorkConcat(ExpertsWork(e, seenGrouped, plan), GroupedWork(modules[i..], seenGrouped + {e.w13, e.w2}, plan),
            rank, world);
          grouped := grouped + Lengths(ExpertsWork(e, seenGrouped, plan));
          var more: int;
          more, seenGrouped := CountExperts(e, seenGrouped);
          total := total + more;
        }
      }
    }

    /** The grouped branch of the walk. */
    method CountExperts(e: Experts, seen: set<Size>) returns (count: int, seen': set<Size>)
      requires Valid()
      ensures count == Lengths(ExpertsWork(e, seen, plan)) && seen' == seen + {e.w13, e.w2}
    {
      ExpertsLength(e, seen);
      count, seen' := 0, seen;
      if e.w13 in seen && e.w2 in seen {
        assert seen + {e.w13, e.w2} == seen;
        return;
      }
      var nValues := (e.maxM - plan.blockM) / plan.blockM + 1;
      PredictedValues(e.maxM, plan.blockM);
      if e.w13 !in seen' {
        count := count + nValues;
        seen' := seen' + {e.w13};
      }
      if e.w2 !in seen' {
        count := count + nValues;
        seen' := seen' + {e.w2};
      }
    }

    /** The FP8 part of deep_gemm_warmup. A single rank performs exactly the predicted iterations; one of several
        performs its share of every list. Afterwards nothing is left to warm up. */
    method Warmup(modules: seq<Module>) returns (total: int)
      requires Valid() && forall m :: m in modules ==> m.dense == None || m.grouped == None
      modifies this`denseCache, this`groupedCache, this`calls
      ensures var work := DenseWork(modules, old(denseCache), plan) + GroupedWork(modules, old(groupedCache), plan);
              && total == Lengths(work)
              && calls == old(calls) + Flat(ShareOf(work, rank, world))
              && (world <= 1 ==> |calls| == |old(calls)| + total)
      ensures Lengths(DenseWork(modules, denseCache, plan)) + Lengths(GroupedWork(modules, groupedCache, plan)) == 0
    {
      hide ShareOf, Flat, DenseWork, GroupedWork, DenseCache, GroupedCache, Lengths;
      ghost var dense, grouped := DenseWork(modules, denseCache, plan), GroupedWork(modules, groupedCache, plan);
      WorkConcat(dense, grouped, rank, world);
      ShareMore(dense, grouped);
      FlatLength(dense + grouped);
      if world <= 1 {
        OneRank(dense + grouped, rank, world);
      }
      total := CountWarmupIterations(modules);
      if total != 0 {
        DensePass(modules);
        GroupedPass(modules);
        NothingLeft(modules, old(denseCache), old(groupedCache), plan);
        LengthOfOne(Job([], []));
      } else {
        NothingToShare(dense + grouped, rank, world);
      }
    }

    lemma {:induction false} NothingToShare(work: seq<Job>, rank: nat, world: nat)
      requires (world > 1 ==> rank < world) && Lengths(work) == 0
      ensures Flat(ShareOf(work, rank, world)) == []
      decreases |work|
    {
      if |work| > 0 {
        NothingToShare(work[1..], rank, world);
        assert ShareOf(work, rank, world)[1..] == ShareOf(work[1..], rank, world);
      }
    }

    /** The predicted number is the length of the range, also for an M below the alignment. */
    lemma {:induction false} PredictedValues(maxM: nat, blockM: nat)
      requires blockM > 0
      ensures (maxM - blockM) / blockM + 1 == maxM / blockM
    {
      var q, r := Split(maxM, blockM);
      assert (q - 1) * blockM == q * blockM - blockM;
      IntDivMod(maxM - blockM, q - 1, r, blockM);
    }

    lemma {:induction false} ExpertsLength(e: Experts, cache: set<Size>)
      requires Valid()
      ensures Lengths(ExpertsWork(e, cache, plan))
           == (if e.w13 in cache then 0 else e.maxM / plan.blockM)
             + (if e.w2 in cache + {e.w13} then 0 else e.maxM / plan.blockM)
    {
      var first := if e.w13 in cache then [] else [Job(e.w13, plan.GroupedValues(e.maxM))];
      var second := if e.w2 in cache + {e.w13} then [] else [Job(e.w2, plan.GroupedValues(e.maxM))];
      WorkConcat(first, second, 0, 1);
      LengthOfOne(Job(e.w13, plan.GroupedValues(e.maxM)));
      LengthOfOne(Job(e.w2, plan.GroupedValues(e.maxM)));
    }

    lemma {:induction false} LengthOfOne(job: Job)
      ensures Lengths([job]) == |job.values| && Lengths([]) == 0
    {
      assert [job][1..] == [];
    }
  }
}
