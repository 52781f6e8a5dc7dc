/** Python's `sorted` on sets of strings. */
module SortedNames {

  /** The order of strings by code points. */
  predicate Before(a: string, b: string)
  {
    |b| > 0 && (|a| == 0 || a[0] < b[0] || (a[0] == b[0] && Before(a[1..], b[1..])))
  }

  /** `a` ends where `b` goes on, or has the lower character at the first place where they differ. */
  ghost predicate FirstDifference(a: string, b: string, n: nat)
  {
    && n <= |a| && n < |b| && (forall k :: 0 <= k < n ==> a[k] == b[k]) && (n < |a| ==> a[n] < b[n])
  }

  lemma {:induction false} BeforeExactly(a: string, b: string)
    ensures Before(a, b) <==> exists n: nat :: FirstDifference(a, b, n)
  {
    if |a| > 0 && |b| > 0 && a[0] == b[0] {
      BeforeExactly(a[1..], b[1..]);
      if n: nat :| FirstDifference(a[1..], b[1..], n) {
        assert forall k :: 1 <= k < n + 1 ==> a[k] == a[1..][k - 1] && b[k] == b[1..][k - 1];
        assert FirstDifference(a, b, n + 1);
      }
      if n: nat :| FirstDifference(a, b, n) {
        assert FirstDifference(a[1..], b[1..], n - 1);
      }
    } else if |b| > 0 && (|a| == 0 || a[0] < b[0]) {
      assert FirstDifference(a, b, 0);
    }
  }

  lemma {:induction false} BeforeIrreflexive(a: string)
    ensures !Before(a, a)
  {
    if |a| > 0 {
      BeforeIrreflexive(a[1..]);
    }
  }

  lemma {:induction false} BeforeTransitive(a: string, b: string, c: string)
    requires Before(a, b) && Before(b, c)
    ensures Before(a, c)
    decreases |a|
  {
    if |a| > 0 && a[0] == b[0] == c[0] {
      BeforeTransitive(a[1..], b[1..], c[1..]);
    }
  }

  lemma {:induction false} BeforeTotal(a: string, b: string)
    ensures a == b || Before(a, b) || Before(b, a)
  {
    if |a| > 0 && |b| > 0 && a[0] == b[0] {
      BeforeTotal(a[1..], b[1..]);
      assert a == [a[0]] + a[1..] && b == [b[0]] + b[1..];
    }
  }

  predicate First(m: string, s: set<string>)
  {
    m in s && forall x :: x in s && x != m ==> Before(m, x)
  }

  lemma {:induction false} FirstExists(s: set<string>) returns (m: string)
    requires s != {}
    ensures First(m, s)
    decreases |s|
  {
    m :| m in s;
    if s != {m} {
      var rest := s - {m};
      assert s == rest + {m};
      var r := FirstExists(rest);
      BeforeTotal(m, r);
      if Before(m, r) {
        forall x | x in s && x != m
          ensures Before(m, x)
        {
          if x != r {
            BeforeTransitive(m, r, x);
          }
        }
      } else {
        m := r;
      }
    }
  }

  lemma {:induction false} FirstUnique(m: string, m': string, s: set<string>)
    requires First(m, s) && First(m', s)
    ensures m == m'
  {
    if m != m' {
      BeforeTransitive(m, m', m);
      BeforeIrreflexive(m);
    }
  }

  lemma {:induction false} OneFirst(s: set<string>)
    requires s != {}
    ensures exists m :: First(m, s)
    ensures forall m, m' :: First(m, s) && First(m', s) ==> m == m'
  {
    var f := FirstExists(s);
    forall m, m' | First(m, s) && First(m', s)
      ensures m == m'
    {
      FirstUnique(m, m', s);
    }
  }

  function Sorted(s: set<string>): (q: seq<string>)
    ensures forall x :: x in q <==> x in s
    ensures |q| == |s|
  {
    if s == {} then []
    else
      OneFirst(s);
      var m :| First(m, s);
      [m] + Sorted(s - {m})
  }

  function Elements(q: seq<string>): set<string>
  {
    set x | x in q
  }

  predicate Increasing(q: seq<string>)
  {
    forall i, j :: 0 <= i < j < |q| ==> Before(q[i], q[j])
  }

  lemma {:induction false} SortedStep(s: set<string>) returns (m: string)
    requires s != {}
    ensures First(m, s) && Sorted(s) == [m] + Sorted(s - {m})
  {
    hide First;
    OneFirst(s);
    m :| First(m, s);
    FirstUnique(m, Sorted(s)[0], s);
  }

  lemma {:induction false} SortedIncreasing(s: set<string>)
    ensures Increasing(Sorted(s)) && Elements(Sorted(s)) == s
    decreases |s|
  {
    if s != {} {
      var m := SortedStep(s);
      SortedIncreasing(s - {m});
      var rest := Sorted(s - {m});
      hide Sorted, Before;
      forall i, j | 0 <= i < j < |Sorted(s)|
        ensures Before(Sorted(s)[i], Sorted(s)[j])
      {
        if i == 0 {
          assert rest[j - 1] in s - {m};
        } else {
          assert Before(rest[i - 1], rest[j - 1]);
        }
      }
    }
  }

  lemma {:induction false} HeadIsFirst(q: seq<string>)
    requires |q| > 0 && Increasing(q)
    ensures First(q[0], Elements(q)) && Increasing(q[1..])
    ensures Elements(q[1..]) == Elements(q) - {q[0]}
  {
    BeforeIrreflexive(q[0]);
    forall x | x in q && x != q[0]
      ensures Before(q[0], x)
    {
      var j :| 0 <= j < |q| && q[j] == x;
    }
    forall x | x in q[1..]
      ensures x != q[0]
    {
      var j :| 0 <= j < |q[1..]| && q[1..][j] == x;
      assert Before(q[0], q[j + 1]);
    }
    assert q == [q[0]] + q[1..];
  }

  /** Increasing lists with the same elements are the same. */
  lemma {:induction false} OneIncreasing(p: seq<string>, q: seq<string>)
    requires Increasing(p) && Increasing(q) && Elements(p) == Elements(q)
    ensures p == q
    decreases |p|
  {
    assert |q| > 0 ==> q[0] in Elements(q);
    if |p| > 0 {
      assert p[0] in Elements(q);
      HeadIsFirst(p);
      HeadIsFirst(q);
      FirstUnique(p[0], q[0], Elements(p));
      OneIncreasing(p[1..], q[1..]);
      assert p == [p[0]] + p[1..] && q == [q[0]] + q[1..];
    }
  }

  /** An increasing list is the sorted list of its elements, and no other is. */
  lemma {:induction false} IncreasingIsSorted(q: seq<string>)
    ensures Increasing(q) <==> q == Sorted(Elements(q))
  {
    SortedIncreasing(Elements(q));
    if Increasing(q) {
      OneIncreasing(q, Sorted(Elements(q)));
    }
  }
}
