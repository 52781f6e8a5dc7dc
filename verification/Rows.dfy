/** Rows of scores and the reference meaning of a top-k selection, independent of histograms, threads and buffers. */
module Rows {
  import opened Sums

  /** One score of a row with the coarse bin the kernels compute from it. */
  datatype Elem = Elem(score: int, bin: nat)

  /** Bins are in range and never decrease when the score increases. Equal scores may sit in different bins: the
      two signed zeros do. */
  ghost predicate ValidRow(row: seq<Elem>, bins: nat)
  {
    && (forall g :: 0 <= g < |row| ==> row[g].bin < bins)
    && (forall a, b :: 0 <= a < |row| && 0 <= b < |row| && row[a].score < row[b].score ==> row[a].bin <= row[b].bin)
  }

  /** The order of selection: higher bin, then higher score, then lower index. */
  ghost predicate Beats(row: seq<Elem>, a: nat, b: nat)
    requires a < |row| && b < |row|
  {
    || row[a].bin > row[b].bin
    || (row[a].bin == row[b].bin && (row[a].score > row[b].score || (row[a].score == row[b].score && a < b)))
  }

  ghost function Indices(row: seq<Elem>): set<nat>
  {
    Upto(|row|)
  }

  /** The members of `s` that beat `g`. */
  ghost function Better(row: seq<Elem>, s: set<nat>, g: nat): set<nat>
    requires g < |row| && s <= Indices(row)
  {
    set x | x in s && Beats(row, x, g)
  }

  ghost function RankIn(row: seq<Elem>, s: set<nat>, g: nat): nat
    requires g < |row| && s <= Indices(row)
  {
    |Better(row, s, g)|
  }

  /** The `k` best members of `s`. */
  ghost function Best(row: seq<Elem>, s: set<nat>, k: nat): set<nat>
    requires s <= Indices(row)
  {
    set g | g in s && RankIn(row, s, g) < k
  }

  /** The reference selection: the `k` best indices of the row. */
  ghost function Chosen(row: seq<Elem>, k: nat): set<nat>
  {
    Best(row, Indices(row), k)
  }

  ghost function Above(row: seq<Elem>, bin: nat): set<nat>
  {
    set g: nat | g < |row| && row[g].bin > bin
  }

  ghost function InBin(row: seq<Elem>, bin: nat): set<nat>
  {
    set g: nat | g < |row| && row[g].bin == bin
  }

  /** `bin` is the bin in which the k-th best element lies. */
  ghost predicate IsThreshold(row: seq<Elem>, bin: nat, k: nat)
  {
    |Above(row, bin)| < k <= |Above(row, bin)| + |InBin(row, bin)|
  }

  /** `out` lists the members of `s`, each once. */
  ghost predicate Lists(out: seq<int>, s: set<nat>)
  {
    && (forall i, j :: 0 <= i < j < |out| ==> out[i] != out[j])
    && (forall i :: 0 <= i < |out| ==> out[i] >= 0 && out[i] in s)
    && (forall g :: g in s ==> g in out)
  }

  // ---------------------------------------------------------------- sets

  lemma {:induction false} ListsLength(out: seq<int>, s: set<nat>)
    requires Lists(out, s)
    ensures |out| == |s|
  {
    var positions := map i | i in Upto(|out|) :: out[i] as nat;
    InjectiveValues(positions);
    assert positions.Keys == Upto(|out|);
    assert positions.Values == s by {
      forall g | g in s
        ensures g in positions.Values
      {
        var i :| 0 <= i < |out| && out[i] == g;
        assert i in positions && positions[i] == g;
      }
    }
  }

  // ---------------------------------------------------------------- ranks

  lemma {:induction false} BetterRank(row: seq<Elem>, s: set<nat>, a: nat, b: nat)
    requires s <= Indices(row) && a in s && b in s && Beats(row, a, b)
    ensures RankIn(row, s, a) < RankIn(row, s, b)
  {
    var ba, bb := Better(row, s, a), Better(row, s, b);
    assert ba <= bb && a in bb && a !in ba;
    SubsetCard(ba, bb);
  }

  lemma {:induction false} RankBelowSize(row: seq<Elem>, s: set<nat>, g: nat)
    requires s <= Indices(row) && g in s
    ensures RankIn(row, s, g) < |s|
  {
    SubsetCard(Better(row, s, g), s);
    assert g !in Better(row, s, g);
  }

  /** Some member of `s` has rank `r`. */
  ghost predicate Taken(row: seq<Elem>, s: set<nat>, r: nat)
    requires s <= Indices(row)
  {
    exists g :: g in s && RankIn(row, s, g) == r
  }

  lemma {:induction false} RanksDiffer(row: seq<Elem>, s: set<nat>, a: nat, b: nat)
    requires s <= Indices(row) && a in s && b in s && a != b
    ensures RankIn(row, s, a) != RankIn(row, s, b)
  {
    if Beats(row, a, b) { BetterRank(row, s, a, b); } else { BetterRank(row, s, b, a); }
  }

  /** The ranks of a set are a permutation of `0 .. |s|`: no two members share one, and each is taken. */
  lemma {:induction false} RanksArePermutation(row: seq<Elem>, s: set<nat>)
    requires s <= Indices(row)
    ensures forall a, b :: a in s && b in s && RankIn(row, s, a) == RankIn(row, s, b) ==> a == b
    ensures forall g :: g in s ==> RankIn(row, s, g) < |s|
    ensures forall r: nat :: r < |s| ==> Taken(row, s, r)
  {
    forall a, b | a in s && b in s && a != b
      ensures RankIn(row, s, a) != RankIn(row, s, b)
    {
      RanksDiffer(row, s, a, b);
    }
    forall g | g in s
      ensures RankIn(row, s, g) < |s|
    {
      RankBelowSize(row, s, g);
    }
    var ranks := map g | g in s :: RankIn(row, s, g);
    InjectiveValues(ranks);
    assert ranks.Keys == s;
    assert ranks.Values <= Upto(|s|);
    SubsetCard(ranks.Values, Upto(|s|));
    forall r: nat | r < |s|
      ensures Taken(row, s, r)
    {
      assert r in ranks.Values;
    }
  }

  /** The best `k` members are exactly `k` when there are that many. */
  lemma {:induction false} BestSize(row: seq<Elem>, s: set<nat>, k: nat)
    requires s <= Indices(row) && k <= |s|
    ensures |Best(row, s, k)| == k
  {
    RanksArePermutation(row, s);
    var ranks := map g | g in Best(row, s, k) :: RankIn(row, s, g);
    InjectiveValues(ranks);
    assert ranks.Keys == Best(row, s, k);
    assert ranks.Values == Upto(k) by {
      forall r | r in Upto(k)
        ensures r in ranks.Values
      {
        assert Taken(row, s, r);
        var g :| g in s && RankIn(row, s, g) == r;
        assert g in ranks && ranks[g] == r;
      }
    }
  }

  /** The selection is a top-k: `k` in-range indices, and no index left out has a higher score than a chosen one. */
  lemma {:induction false} ChosenIsTopK(row: seq<Elem>, bins: nat, k: nat)
    requires ValidRow(row, bins) && k <= |row|
    ensures |Chosen(row, k)| == k
    ensures Chosen(row, k) <= Indices(row)
    ensures forall x, y :: x in Chosen(row, k) && y in Indices(row) - Chosen(row, k) ==> row[x].score >= row[y].score
  {
    BestSize(row, Indices(row), k);
    forall x, y | x in Chosen(row, k) && y in Indices(row) - Chosen(row, k)
      ensures row[x].score >= row[y].score
    {
      if row[x].score < row[y].score {
        assert row[x].bin <= row[y].bin;
        assert Beats(row, y, x);
        BetterRank(row, Indices(row), y, x);
      }
    }
  }

  /** The selection splits at the threshold bin: everything above it, and the best of the bin itself. */
  lemma {:induction false} ChosenAtThreshold(row: seq<Elem>, bin: nat, k: nat)
    requires IsThreshold(row, bin, k)
    ensures Chosen(row, k) == Above(row, bin) + Best(row, InBin(row, bin), k - |Above(row, bin)|)
  {
    var above, rest := Above(row, bin), Best(row, InBin(row, bin), k - |Above(row, bin)|);
    forall g | g in Indices(row)
      ensures g in Chosen(row, k) <==> g in above + rest
    {
      RankAtThreshold(row, bin, k, g);
    }
    assert Chosen(row, k) <= Indices(row) && above + rest <= Indices(row);
  }

  lemma {:induction false} RankAtThreshold(row: seq<Elem>, bin: nat, k: nat, g: nat)
    requires IsThreshold(row, bin, k) && g in Indices(row)
    ensures row[g].bin > bin ==> RankIn(row, Indices(row), g) < k
    ensures row[g].bin == bin ==> RankIn(row, Indices(row), g) == |Above(row, bin)| + RankIn(row, InBin(row, bin), g)
    ensures row[g].bin < bin ==> RankIn(row, Indices(row), g) >= k
  {
    var above, equal := Above(row, bin), InBin(row, bin);
    var better := Better(row, Indices(row), g);
    if row[g].bin > bin {
      SubsetCard(better, above);
    } else if row[g].bin == bin {
      assert better == above + Better(row, equal, g);
      assert above !! Better(row, equal, g);
    } else {
      assert above !! equal && |above + equal| == |above| + |equal|;
      SubsetCard(above + equal, better);
    }
  }
}
