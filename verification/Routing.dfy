/** recover_topk_ids: a routing of tokens to experts with given expert counts, for every choice of its shuffles. */
module Routing {
  import opened Wrappers
  import opened Sums

  /** A shuffle of `0 .. n`. */
  ghost predicate IsPermutation(p: seq<nat>, n: nat)
  {
    |p| == n && (forall i :: 0 <= i < n ==> p[i] < n) && forall i, j :: 0 <= i < j < n ==> p[i] != p[j]
  }

  function Image(p: seq<nat>): set<nat>
  {
    if |p| == 0 then {} else Image(p[..|p| - 1]) + {p[|p| - 1]}
  }

  /** A list without repetition has as many values as entries. */
  lemma {:induction false} ImageFacts(p: seq<nat>)
    requires forall i, j :: 0 <= i < j < |p| ==> p[i] != p[j]
    ensures |Image(p)| == |p| && forall x :: x in Image(p) <==> x in p
  {
    if |p| > 0 {
      var n := |p| - 1;
      ImageFacts(p[..n]);
      assert p == p[..n] + [p[n]];
      assert p[n] !in p[..n];
    }
  }

  lemma {:induction false} PermutationOnto(p: seq<nat>, n: nat, x: nat) returns (i: nat)
    requires IsPermutation(p, n) && x < n
    ensures i < n && p[i] == x
  {
    ImageFacts(p);
    SubsetCard(Image(p), Upto(n));
    assert x in Upto(n);
    i :| 0 <= i < |p| && p[i] == x;
  }

  // ---------------------------------------------------------------- the concatenated experts

  /** `torch.cat` of as many copies of each expert as it has tokens, experts in the shuffled order. */
  function Flat(order: seq<nat>, counts: seq<nat>): seq<nat>
    requires forall i :: 0 <= i < |order| ==> order[i] < |counts|
  {
    if |order| == 0 then []
    else Flat(order[..|order| - 1], counts) + seq(counts[order[|order| - 1]], _ => order[|order| - 1])
  }

  /** Where the copies of the expert at position `i` of the order start. */
  function RunStart(order: seq<nat>, counts: seq<nat>, i: nat): nat
    requires i <= |order| && forall k :: 0 <= k < |order| ==> order[k] < |counts|
  {
    |Flat(order[..i], counts)|
  }

  /** Expert `order[i]` occupies exactly one stretch, as long as its count. */
  lemma {:induction false} FlatRuns(order: seq<nat>, counts: seq<nat>, i: nat)
    requires (forall k :: 0 <= k < |order| ==> order[k] < |counts|)
             && (forall k, l :: 0 <= k < l < |order| ==> order[k] != order[l])
    requires i < |order|
    ensures RunStart(order, counts, i) + counts[order[i]] <= |Flat(order, counts)|
    ensures forall q :: 0 <= q < |Flat(order, counts)| ==>
              (Flat(order, counts)[q] == order[i] <==>
                RunStart(order, counts, i) <= q < RunStart(order, counts, i) + counts[order[i]])
    decreases |order|
  {
    var n := |order| - 1;
    if i < n {
      FlatRuns(order[..n], counts, i);
      assert order[..n][..i] == order[..i];
    } else {
      NotInFlat(order[..n], counts, order[n]);
    }
  }

  lemma {:induction false} NotInFlat(order: seq<nat>, counts: seq<nat>, e: nat)
    requires (forall k :: 0 <= k < |order| ==> order[k] < |counts| && order[k] != e)
    ensures e !in Flat(order, counts)
    decreases |order|
  {
    if |order| > 0 {
      NotInFlat(order[..|order| - 1], counts, e);
    }
  }

  /** Every expert of the model has a run, and runs are at most `tokens` long. */
  lemma {:induction false} ExpertRun(order: seq<nat>, counts: seq<nat>, tokens: nat, e: nat) returns (start: nat)
    requires IsPermutation(order, |counts|) && e < |counts|
    requires forall i :: 0 <= i < |counts| ==> counts[i] <= tokens
    ensures start + counts[e] <= |Flat(order, counts)| && counts[e] <= tokens
    ensures forall q :: 0 <= q < |Flat(order, counts)| ==>
              (Flat(order, counts)[q] == e <==> start <= q < start + counts[e])
  {
    var i := PermutationOnto(order, |counts|, e);
    FlatRuns(order, counts, i);
    start := RunStart(order, counts, i);
  }

  /** The total length is the sum of the counts. */
  lemma {:induction false} FlatLength(order: seq<nat>, counts: seq<nat>, left: seq<nat>)
    requires (forall k :: 0 <= k < |order| ==> order[k] < |counts|)
             && (forall k, l :: 0 <= k < l < |order| ==> order[k] != order[l])
    requires |left| == |counts| && forall e :: 0 <= e < |counts| ==> left[e] == if e in order then counts[e] else 0
    ensures |Flat(order, counts)| == Sum(left)
    decreases |order|
  {
    if |order| == 0 {
      SumOfZeros(left);
    } else {
      var n := |order| - 1;
      var before := left[order[n] := 0];
      assert order[n] !in order[..n];
      assert forall e :: e in order <==> e in order[..n] || e == order[n];
      FlatLength(order[..n], counts, before);
      SumUpdate(left, order[n], 0);
    }
  }

  lemma {:induction false} SumOfZeros(s: seq<nat>)
    requires forall i :: 0 <= i < |s| ==> s[i] == 0
    ensures Sum(s) == 0
    decreases |s|
  {
    if |s| > 0 {
      SumOfZeros(s[..|s| - 1]);
    }
  }

  // ---------------------------------------------------------------- the table

  /** The choices that the random generator makes: the order of experts, the order within each token, and of tokens. */
  datatype Shuffles = Shuffles(experts: seq<nat>, within: seq<seq<nat>>, tokens: seq<nat>)
  {
    ghost predicate Valid(numExperts: nat, numTokens: nat, perToken: nat)
    {
      && IsPermutation(experts, numExperts) && IsPermutation(tokens, numTokens)
      && |within| == numTokens && forall t :: 0 <= t < numTokens ==> IsPermutation(within[t], perToken)
    }
  }

  /** What the three assertions demand. */
  predicate Balanced(counts: seq<nat>, numTokens: nat, numExperts: nat, perToken: nat)
  {
    |counts| == numExperts > 0 && (forall i :: 0 <= i < |counts| ==> counts[i] <= numTokens)
      && Sum(counts) == Start(perToken, numTokens)
  }

  /** `flat.view(perToken, numTokens).t()`: entry `j` of token `t`. */
  function Entry(flat: seq<nat>, numTokens: nat, t: nat, j: nat): nat
    requires Start(j, numTokens) + t < |flat|
  {
    flat[Start(j, numTokens) + t]
  }

  lemma {:induction false} EntryInRange(numTokens: nat, perToken: nat, t: nat, j: nat)
    requires t < numTokens && j < perToken
    ensures Start(j, numTokens) + t < Start(perToken, numTokens)
  {
    StartMonotone(j + 1, perToken, numTokens);
  }

  lemma {:induction false} FlatSize(counts: seq<nat>, numTokens: nat, numExperts: nat, perToken: nat, s: Shuffles)
    requires Balanced(counts, numTokens, numExperts, perToken) && s.Valid(numExperts, numTokens, perToken)
    ensures |Flat(s.experts, counts)| == Start(perToken, numTokens)
  {
    forall e | 0 <= e < |counts|
      ensures e in s.experts
    {
      var i := PermutationOnto(s.experts, numExperts, e);
    }
    FlatLength(s.experts, counts, counts);
  }

  /** Row `i` of the result: the shuffled entries of the token that landed there. */
  function ResultRow(flat: seq<nat>, numTokens: nat, perToken: nat, s: Shuffles, i: nat): (row: seq<nat>)
    requires s.Valid(|s.experts|, numTokens, perToken) && i < numTokens && |flat| == Start(perToken, numTokens)
    ensures |row| == perToken
    ensures forall j :: 0 <= j < perToken ==> Start(s.within[s.tokens[i]][j], numTokens) + s.tokens[i] < |flat|
                                              && row[j] == Entry(flat, numTokens, s.tokens[i], s.within[s.tokens[i]][j])
  {
    RowInRange(numTokens, perToken, s, i);
    seq(perToken, j requires 0 <= j < perToken => Entry(flat, numTokens, s.tokens[i], s.within[s.tokens[i]][j]))
  }

  lemma {:induction false} RowInRange(numTokens: nat, perToken: nat, s: Shuffles, i: nat)
    requires s.Valid(|s.experts|, numTokens, perToken) && i < numTokens
    ensures forall j :: 0 <= j < perToken ==>
              Start(s.within[s.tokens[i]][j], numTokens) + s.tokens[i] < Start(perToken, numTokens)
  {
    forall j | 0 <= j < perToken
      ensures Start(s.within[s.tokens[i]][j], numTokens) + s.tokens[i] < Start(perToken, numTokens)
    {
      EntryInRange(numTokens, perToken, s.tokens[i], s.within[s.tokens[i]][j]);
    }
  }

  /** recover_topk_ids. */
  function RecoverTopkIds(counts: seq<nat>, numTokens: nat, numExperts: nat, perToken: nat,
                          s: Shuffles): (r: Result<seq<seq<nat>>>)
    requires s.Valid(numExperts, numTokens, perToken)
    ensures r.Ok? <==> Balanced(counts, numTokens, numExperts, perToken)
    ensures r.Ok? ==> |r.value| == numTokens && forall i :: 0 <= i < numTokens ==> |r.value[i]| == perToken
  {
    if Balanced(counts, numTokens, numExperts, perToken) then
      FlatSize(counts, numTokens, numExperts, perToken, s);
      Ok(seq(numTokens, i requires 0 <= i < numTokens => ResultRow(Flat(s.experts, counts), numTokens, perToken, s, i)))
    else Err(AssertionError)
  }

  /** Entries of one token never fall into the same run: they are at least `numTokens` apart. */
  lemma {:induction false} EntriesDiffer(counts: seq<nat>, numTokens: nat, numExperts: nat, perToken: nat, s: Shuffles,
                                         t: nat, j: nat, k: nat)
    requires Balanced(counts, numTokens, numExperts, perToken) && s.Valid(numExperts, numTokens, perToken)
    requires t < numTokens && j < k < perToken && |Flat(s.experts, counts)| == Start(perToken, numTokens)
    ensures Start(j, numTokens) + t < Start(k, numTokens) + t < |Flat(s.experts, counts)|
    ensures Entry(Flat(s.experts, counts), numTokens, t, j) != Entry(Flat(s.experts, counts), numTokens, t, k)
  {
    var flat := Flat(s.experts, counts);
    EntryInRange(numTokens, perToken, t, k);
    StartMonotone(j + 1, k, numTokens);
    var a, b := Start(j, numTokens) + t, Start(k, numTokens) + t;
    var e := flat[a];
    FlatEntries(s.experts, counts, a);
    var start := ExpertRun(s.experts, counts, numTokens, e);
  }

  lemma {:induction false} FlatEntries(order: seq<nat>, counts: seq<nat>, q: nat)
    requires (forall k :: 0 <= k < |order| ==> order[k] < |counts|) && q < |Flat(order, counts)|
    ensures Flat(order, counts)[q] < |counts|
    decreases |order|
  {
    if q < |Flat(order[..|order| - 1], counts)| {
      FlatEntries(order[..|order| - 1], counts, q);
    }
  }

  /** No token is routed to the same expert twice. */
  lemma {:induction false} ExpertsDiffer(counts: seq<nat>, numTokens: nat, numExperts: nat, perToken: nat, s: Shuffles,
                                         i: nat, j: nat, k: nat)
    requires s.Valid(numExperts, numTokens, perToken) && Balanced(counts, numTokens, numExperts, perToken)
    requires i < numTokens && j < k < perToken
    ensures var rows := RecoverTopkIds(counts, numTokens, numExperts, perToken, s).value; rows[i][j] != rows[i][k]
  {
    FlatSize(counts, numTokens, numExperts, perToken, s);
    var t := s.tokens[i];
    var a, b := s.within[t][j], s.within[t][k];
    assert a != b;
    if a < b {
      EntriesDiffer(counts, numTokens, numExperts, perToken, s, t, a, b);
    } else {
      EntriesDiffer(counts, numTokens, numExperts, perToken, s, t, b, a);
    }
  }

  /** The places of the result that hold expert `e`. */
  ghost function Cells(rows: seq<seq<nat>>, e: nat): set<(nat, nat)>
  {
    set i, j | i in Upto(|rows|) && j in Upto(|rows[i]|) && rows[i][j] == e :: (i, j)
  }

  /** The place in the concatenation from which a cell was taken. */
  ghost function Origin(numTokens: nat, perToken: nat, s: Shuffles, c: (nat, nat)): nat
    requires s.Valid(|s.experts|, numTokens, perToken) && c.0 < numTokens && c.1 < perToken
  {
    Start(s.within[s.tokens[c.0]][c.1], numTokens) + s.tokens[c.0]
  }

  lemma {:induction false} OriginInjective(numTokens: nat, perToken: nat, s: Shuffles, c: (nat, nat), d: (nat, nat))
    requires s.Valid(|s.experts|, numTokens, perToken) && c.0 < numTokens && c.1 < perToken && d.0 < numTokens
             && d.1 < perToken
    requires Origin(numTokens, perToken, s, c) == Origin(numTokens, perToken, s, d)
    ensures c == d
  {
    var t, u := s.tokens[c.0], s.tokens[d.0];
    var j, k := s.within[t][c.1], s.within[u][d.1];
    if j < k {
      StartMonotone(j + 1, k, numTokens);
    } else if k < j {
      StartMonotone(k + 1, j, numTokens);
    }
    assert t == u && j == k;
    assert c.0 == d.0;
  }

  lemma {:induction false} OriginOnto(numTokens: nat, perToken: nat, s: Shuffles, q: nat) returns (c: (nat, nat))
    requires s.Valid(|s.experts|, numTokens, perToken) && q < Start(perToken, numTokens)
    ensures c.0 < numTokens && c.1 < perToken && Origin(numTokens, perToken, s, c) == q
  {
    StartIsProduct(perToken, numTokens);
    if numTokens == 0 {
      StartOfZero(perToken);
    }
    var j, t := Split(q, numTokens);
    DivBelow(q, perToken, numTokens);
    StartIsProduct(j, numTokens);
    var i := PermutationOnto(s.tokens, numTokens, t);
    var k := PermutationOnto(s.within[t], perToken, j);
    c := (i, k);
  }

  /** Every expert gets exactly as many tokens as asked for. */
  lemma {:induction false} CountsRecovered(counts: seq<nat>, numTokens: nat, numExperts: nat, perToken: nat,
                                           s: Shuffles, e: nat)
    requires s.Valid(numExperts, numTokens, perToken) && Balanced(counts, numTokens, numExperts, perToken)
             && e < numExperts
    ensures |Cells(RecoverTopkIds(counts, numTokens, numExperts, perToken, s).value, e)| == counts[e]
  {
    FlatSize(counts, numTokens, numExperts, perToken, s);
    var flat, rows := Flat(s.experts, counts), RecoverTopkIds(counts, numTokens, numExperts, perToken, s).value;
    var start := ExpertRun(s.experts, counts, numTokens, e);
    var run := set q | q in Upto(|flat|) && start <= q < start + counts[e];
    StretchSize(run, start, counts[e]);
    hide Upto, Flat;
    CellsAreRun(flat, rows, numTokens, perToken, s, e, run);
  }

  lemma {:induction false} StretchSize(run: set<nat>, start: nat, n: nat)
    requires forall q: nat :: q in run <==> start <= q < start + n
    ensures |run| == n
  {
    hide Upto;
    var shifted := map d | d in Upto(n) :: start + d;
    InjectiveValues(shifted);
    assert shifted.Keys == Upto(n);
    forall q | q in run
      ensures q in shifted.Values
    {
      assert (q - start) in shifted && shifted[q - start] == q;
    }
    assert shifted.Values == run;
  }

  /** A cell holds what its origin holds. */
  lemma {:induction false} CellFacts(flat: seq<nat>, rows: seq<seq<nat>>, numTokens: nat, perToken: nat, s: Shuffles,
                                     e: nat)
    requires s.Valid(|s.experts|, numTokens, perToken) && |flat| == Start(perToken, numTokens)
    requires |rows| == numTokens
             && forall i :: 0 <= i < numTokens ==> rows[i] == ResultRow(flat, numTokens, perToken, s, i)
    ensures forall c: (nat, nat) :: c in Cells(rows, e) <==>
              c.0 < numTokens && c.1 < perToken && Origin(numTokens, perToken, s, c) < |flat|
                && flat[Origin(numTokens, perToken, s, c)] == e
  {
    hide Upto;
    forall c: (nat, nat)
      ensures c in Cells(rows, e) <==>
              c.0 < numTokens && c.1 < perToken && Origin(numTokens, perToken, s, c) < |flat|
                && flat[Origin(numTokens, perToken, s, c)] == e
    {
      assert c == (c.0, c.1);
      if c.0 < numTokens && c.1 < perToken {
        var row := ResultRow(flat, numTokens, perToken, s, c.0);
        assert rows[c.0] == row && row[c.1] == Entry(flat, numTokens, s.tokens[c.0], s.within[s.tokens[c.0]][c.1]);
      }
    }
  }

  lemma {:induction false} CellsAreRun(flat: seq<nat>, rows: seq<seq<nat>>, numTokens: nat, perToken: nat, s: Shuffles,
                                       e: nat, run: set<nat>)
    requires s.Valid(|s.experts|, numTokens, perToken) && |flat| == Start(perToken, numTokens)
    requires |rows| == numTokens
             && forall i :: 0 <= i < numTokens ==> rows[i] == ResultRow(flat, numTokens, perToken, s, i)
    requires forall q: nat :: q in run <==> q < |flat| && flat[q] == e
    ensures |Cells(rows, e)| == |run|
  {
    hide Upto, Origin, ResultRow;
    CellFacts(flat, rows, numTokens, perToken, s, e);
    var cells := Cells(rows, e);
    var origins := map c | c in cells :: Origin(numTokens, perToken, s, c);
    forall c, d | c in origins && d in origins && origins[c] == origins[d]
      ensures c == d
    {
      OriginInjective(numTokens, perToken, s, c, d);
    }
    InjectiveValues(origins);
    assert origins.Keys == cells;
    forall q | q in run
      ensures q in origins.Values
    {
      var c := OriginOnto(numTokens, perToken, s, q);
      assert c in cells && origins[c] == q;
    }
    assert origins.Values == run;
  }

  // ---------------------------------------------------------------- which entry comes from where

  /** How many entries the experts in front of position `x` of the order take. */
  ghost function TokensBefore(order: seq<nat>, counts: seq<nat>, x: nat): nat
    requires x <= |order| && forall k :: 0 <= k < |order| ==> order[k] < |counts|
  {
    Sum(seq(x, k requires 0 <= k < x => counts[order[k]]))
  }

  lemma {:induction false} RunStartIsSum(order: seq<nat>, counts: seq<nat>, x: nat)
    requires x <= |order| && forall k :: 0 <= k < |order| ==> order[k] < |counts|
    ensures RunStart(order, counts, x) == TokensBefore(order, counts, x)
    decreases x
  {
    if x > 0 {
      RunStartIsSum(order, counts, x - 1);
      assert order[..x][..x - 1] == order[..x - 1];
      var all := seq(x, k requires 0 <= k < x => counts[order[k]]);
      assert all[..x - 1] == seq(x - 1, k requires 0 <= k < x - 1 => counts[order[k]]);
    }
  }

  /** Slot `j` of row `i` holds the expert at position `x` of the order exactly when the entry that both shuffles pick
      for it, counted column by column, lies among those of that expert. */
  lemma {:induction false} EntryExactly(counts: seq<nat>, numTokens: nat, numExperts: nat, perToken: nat, s: Shuffles,
                                        i: nat, j: nat, x: nat)
    requires s.Valid(numExperts, numTokens, perToken) && Balanced(counts, numTokens, numExperts, perToken)
    requires i < numTokens && j < perToken && x < numExperts
    ensures var rows := RecoverTopkIds(counts, numTokens, numExperts, perToken, s).value;
            var picked := s.within[s.tokens[i]][j] * numTokens + s.tokens[i];
            var first := TokensBefore(s.experts, counts, x);
            rows[i][j] == s.experts[x] <==> first <= picked < first + counts[s.experts[x]]
  {
    FlatSize(counts, numTokens, numExperts, perToken, s);
    FlatRuns(s.experts, counts, x);
    RunStartIsSum(s.experts, counts, x);
    StartIsProduct(s.within[s.tokens[i]][j], numTokens);
    hide RunStart, TokensBefore, Balanced;
    var row := ResultRow(Flat(s.experts, counts), numTokens, perToken, s, i);
    assert row[j] == Entry(Flat(s.experts, counts), numTokens, s.tokens[i], s.within[s.tokens[i]][j]);
  }

  // ---------------------------------------------------------------- when there is a routing at all

  /** A routing: `perToken` different experts for every token, and each expert as often as asked for. */
  ghost predicate IsRouting(rows: seq<seq<nat>>, counts: seq<nat>, numTokens: nat, numExperts: nat, perToken: nat)
  {
    && |rows| == numTokens && |counts| == numExperts
    && (forall i :: 0 <= i < numTokens ==> |rows[i]| == perToken)
    && (forall i, j :: 0 <= i < numTokens && 0 <= j < perToken ==> rows[i][j] < numExperts)
    && (forall i, j, k :: 0 <= i < numTokens && 0 <= j < k < perToken ==> rows[i][j] != rows[i][k])
    && (forall e :: 0 <= e < numExperts ==> |Cells(rows, e)| == counts[e])
  }

  function Unshuffled(n: nat): (p: seq<nat>)
    ensures IsPermutation(p, n)
  {
    seq(n, i requires 0 <= i => i)
  }

  function NoShuffles(numExperts: nat, numTokens: nat, perToken: nat): (s: Shuffles)
    ensures s.Valid(numExperts, numTokens, perToken)
  {
    Shuffles(Unshuffled(numExperts), seq(numTokens, _ => Unshuffled(perToken)), Unshuffled(numTokens))
  }

  /** What the assertions let through leads to a routing, whatever the shuffles. */
  lemma {:induction false} RecoveredIsRouting(counts: seq<nat>, numTokens: nat, numExperts: nat, perToken: nat,
                                              s: Shuffles)
    requires s.Valid(numExperts, numTokens, perToken) && Balanced(counts, numTokens, numExperts, perToken)
    ensures IsRouting(RecoverTopkIds(counts, numTokens, numExperts, perToken, s).value, counts, numTokens, numExperts,
                      perToken)
  {
    var rows := RecoverTopkIds(counts, numTokens, numExperts, perToken, s).value;
    FlatSize(counts, numTokens, numExperts, perToken, s);
    forall i, j | 0 <= i < numTokens && 0 <= j < perToken
      ensures rows[i][j] < numExperts
    {
      EntryIsExpert(counts, numTokens, numExperts, perToken, s, i, j);
    }
    hide RecoverTopkIds, Cells, Balanced;
    forall i, j, k | 0 <= i < numTokens && 0 <= j < k < perToken
      ensures rows[i][j] != rows[i][k]
    {
      ExpertsDiffer(counts, numTokens, numExperts, perToken, s, i, j, k);
    }
    forall e | 0 <= e < numExperts
      ensures |Cells(rows, e)| == counts[e]
    {
      CountsRecovered(counts, numTokens, numExperts, perToken, s, e);
    }
  }

  lemma {:induction false} EntryIsExpert(counts: seq<nat>, numTokens: nat, numExperts: nat, perToken: nat, s: Shuffles,
                                         i: nat, j: nat)
    requires s.Valid(numExperts, numTokens, perToken) && Balanced(counts, numTokens, numExperts, perToken)
    requires i < numTokens && j < perToken
    ensures RecoverTopkIds(counts, numTokens, numExperts, perToken, s).value[i][j] < numExperts
  {
    FlatSize(counts, numTokens, numExperts, perToken, s);
    var flat := Flat(s.experts, counts);
    var row := ResultRow(flat, numTokens, perToken, s, i);
    FlatEntries(s.experts, counts, Start(s.within[s.tokens[i]][j], numTokens) + s.tokens[i]);
    assert row[j] == Entry(flat, numTokens, s.tokens[i], s.within[s.tokens[i]][j]);
  }

  lemma {:induction false} OncePerToken(rows: seq<seq<nat>>, counts: seq<nat>, numTokens: nat, numExperts: nat,
                                        perToken: nat, e: nat, c: (nat, nat), d: (nat, nat))
    requires IsRouting(rows, counts, numTokens, numExperts, perToken)
    requires c in Cells(rows, e) && d in Cells(rows, e) && c.0 == d.0
    ensures c == d
  {
    hide Upto;
    assert c == (c.0, c.1) && d == (d.0, d.1);
    assert rows[c.0][c.1] == e == rows[c.0][d.1];
  }

  /** A token has at most one entry of an expert. */
  lemma {:induction false} AtMostOnce(rows: seq<seq<nat>>, counts: seq<nat>, numTokens: nat, numExperts: nat,
                                      perToken: nat, e: nat)
    requires IsRouting(rows, counts, numTokens, numExperts, perToken) && e < numExperts
    ensures counts[e] <= numTokens
  {
    var cells := Cells(rows, e);
    var tokens := map c | c in cells :: c.0;
    forall c, d | c in tokens && d in tokens && tokens[c] == tokens[d]
      ensures c == d
    {
      OncePerToken(rows, counts, numTokens, numExperts, perToken, e, c, d);
    }
    InjectiveValues(tokens);
    assert tokens.Keys == cells;
    hide Upto;
    assert tokens.Values <= Upto(numTokens);
    SubsetCard(tokens.Values, Upto(numTokens));
  }

  /** The places that hold one of the first `n` experts. */
  ghost function CellsBelow(rows: seq<seq<nat>>, n: nat): set<(nat, nat)>
  {
    set i, j | i in Upto(|rows|) && j in Upto(|rows[i]|) && rows[i][j] < n :: (i, j)
  }

  lemma {:induction false} CellsStep(rows: seq<seq<nat>>, e: nat)
    ensures CellsBelow(rows, e + 1) == CellsBelow(rows, e) + Cells(rows, e) && CellsBelow(rows, e) !! Cells(rows, e)
  {
    hide Upto;
    forall c: (nat, nat)
      ensures c in CellsBelow(rows, e + 1) <==> c in CellsBelow(rows, e) || c in Cells(rows, e)
      ensures !(c in CellsBelow(rows, e) && c in Cells(rows, e))
    {
      assert c == (c.0, c.1);
    }
  }

  lemma {:induction false} NoCells(rows: seq<seq<nat>>)
    ensures CellsBelow(rows, 0) == {}
  {
  }

  lemma {:induction false} CellsAddUp(rows: seq<seq<nat>>, counts: seq<nat>, n: nat)
    requires n <= |counts| && forall e :: 0 <= e < n ==> |Cells(rows, e)| == counts[e]
    ensures |CellsBelow(rows, n)| == Sum(counts[..n])
    decreases n
  {
    hide CellsBelow, Cells;
    if n == 0 {
      NoCells(rows);
    } else {
      CellsAddUp(rows, counts, n - 1);
      CellsStep(rows, n - 1);
      assert counts[..n][..n - 1] == counts[..n - 1];
    }
  }

  /** All places of the table, counted column by column. */
  lemma {:induction false} TableSize(rows: seq<seq<nat>>, counts: seq<nat>, numTokens: nat, numExperts: nat,
                                     perToken: nat)
    requires IsRouting(rows, counts, numTokens, numExperts, perToken)
    ensures |CellsBelow(rows, numExperts)| == Start(perToken, numTokens)
  {
    var s, cells := NoShuffles(numExperts, numTokens, perToken), CellsBelow(rows, numExperts);
    hide Origin;
    forall c: (nat, nat)
      ensures c in cells <==> c.0 < numTokens && c.1 < perToken
    {
      assert c == (c.0, c.1);
    }
    var origins := map c | c in cells :: Origin(numTokens, perToken, s, c);
    forall c, d | c in origins && d in origins && origins[c] == origins[d]
      ensures c == d
    {
      OriginInjective(numTokens, perToken, s, c, d);
    }
    InjectiveValues(origins);
    assert origins.Keys == cells;
    OriginsFill(rows, numTokens, perToken, s, cells, origins);
  }

  lemma {:induction false} OriginsFill(rows: seq<seq<nat>>, numTokens: nat, perToken: nat, s: Shuffles,
                                       cells: set<(nat, nat)>, origins: map<(nat, nat), nat>)
    requires s.Valid(|s.experts|, numTokens, perToken) && origins.Keys == cells
    requires forall c: (nat, nat) :: c in cells <==> c.0 < numTokens && c.1 < perToken
    requires forall c :: c in origins ==> origins[c] == Origin(numTokens, perToken, s, c)
    ensures |origins.Values| == Start(perToken, numTokens)
  {
    var all := Upto(Start(perToken, numTokens));
    forall q | q in all
      ensures q in origins.Values
    {
      var c := OriginOnto(numTokens, perToken, s, q);
      assert c in origins;
    }
    forall c | c in origins
      ensures origins[c] in all
    {
      EntryInRange(numTokens, perToken, s.tokens[c.0], s.within[s.tokens[c.0]][c.1]);
    }
    assert origins.Values == all;
  }

  /** The assertions let through exactly the counts of some routing, provided there is an expert at all. */
  lemma {:induction false} AcceptsRoutings(counts: seq<nat>, numTokens: nat, numExperts: nat, perToken: nat)
    ensures Balanced(counts, numTokens, numExperts, perToken) <==>
              numExperts > 0 && exists rows :: IsRouting(rows, counts, numTokens, numExperts, perToken)
  {
    if Balanced(counts, numTokens, numExperts, perToken) {
      RecoveredIsRouting(counts, numTokens, numExperts, perToken, NoShuffles(numExperts, numTokens, perToken));
    }
    if rows :| numExperts > 0 && IsRouting(rows, counts, numTokens, numExperts, perToken) {
      forall e | 0 <= e < numExperts
        ensures counts[e] <= numTokens
      {
        AtMostOnce(rows, counts, numTokens, numExperts, perToken, e);
      }
      CellsAddUp(rows, counts, numExperts);
      TableSize(rows, counts, numTokens, numExperts, perToken);
      assert counts[..numExperts] == counts;
    }
  }
}
