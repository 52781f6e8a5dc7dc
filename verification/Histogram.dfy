/** What the coarse histogram of a row counts, and what it says about the threshold bin. */
module Histogram {
  import opened Sums
  import opened Rows
  import opened Threshold

  /** The members of `done` in bin `b`. */
  ghost function Counted(row: seq<Elem>, done: set<nat>, b: nat): set<nat>
    requires done <= Indices(row)
  {
    set g | g in done && row[g].bin == b
  }

  /** Every histogram entry is the number of counted elements of its bin. */
  ghost predicate Counts(h: seq<nat>, row: seq<Elem>, done: set<nat>)
  {
    && done <= Indices(row)
    && forall b :: 0 <= b < |h| ==> h[b] == |Counted(row, done, b)|
  }

  lemma {:induction false} CountsEmpty(h: seq<nat>, row: seq<Elem>)
    requires forall b :: 0 <= b < |h| ==> h[b] == 0
    ensures Counts(h, row, {})
  {
    assert forall b :: 0 <= b < |h| ==> Counted(row, {}, b) == {};
  }

  /** One `atomicAdd` keeps the histogram exact. */
  lemma {:induction false} CountOne(h: seq<nat>, row: seq<Elem>, done: set<nat>, g: nat)
    requires Counts(h, row, done) && g < |row| && g !in done && row[g].bin < |h|
    ensures Counts(h[row[g].bin := h[row[g].bin] + 1], row, done + {g})
  {
    var h', done' := h[row[g].bin := h[row[g].bin] + 1], done + {g};
    forall b | 0 <= b < |h'|
      ensures h'[b] == |Counted(row, done', b)|
    {
      if b == row[g].bin {
        assert Counted(row, done', b) == Counted(row, done, b) + {g};
      } else {
        assert Counted(row, done', b) == Counted(row, done, b);
      }
    }
  }

  ghost function BelowBin(row: seq<Elem>, n: nat): set<nat>
  {
    set g | g in Indices(row) && row[g].bin < n
  }

  lemma {:induction false} PrefixCounts(h: seq<nat>, row: seq<Elem>, n: nat)
    requires Counts(h, row, Indices(row)) && n <= |h|
    ensures Before(h, n) == |BelowBin(row, n)|
  {
    if n == 0 {
      assert BelowBin(row, 0) == {};
    } else {
      PrefixCounts(h, row, n - 1);
      SumPrefixStep(h, n - 1);
      var last := Counted(row, Indices(row), n - 1);
      assert BelowBin(row, n) == BelowBin(row, n - 1) + last;
      assert BelowBin(row, n - 1) !! last;
    }
  }

  /** The full histogram adds up to the row, and its tail beyond bin `b` counts the elements above `b`. */
  lemma {:induction false} HistogramMeaning(h: seq<nat>, row: seq<Elem>, b: nat)
    requires ValidRow(row, |h|) && Counts(h, row, Indices(row)) && b < |h|
    ensures Sum(h) == |row|
    ensures Sum(h[b + 1..]) == |Above(row, b)|
    ensures h[b] == |InBin(row, b)|
  {
    PrefixCounts(h, row, |h|);
    assert h[..|h|] == h;
    assert BelowBin(row, |h|) == Indices(row);
    TailCounts(h, row, b);
    assert Counted(row, Indices(row), b) == InBin(row, b);
  }

  lemma {:induction false} TailCounts(h: seq<nat>, row: seq<Elem>, b: nat)
    requires Counts(h, row, Indices(row)) && b < |h| && Sum(h) == |row|
    ensures Sum(h[b + 1..]) == |Above(row, b)|
  {
    PrefixCounts(h, row, b + 1);
    AfterBefore(h, b + 1);
    var below, above := BelowBin(row, b + 1), Above(row, b);
    assert Indices(row) == below + above;
    assert below !! above;
  }
}
