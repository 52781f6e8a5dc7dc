/** The merge of two partial attention states, over exact reals. A log-sum-exp is represented by its exponential, a
    positive weight, and subtracting the maximum before taking exponentials by dividing by a positive scale. */
module MergeAttn {

  // ---------------------------------------------------------------- products and quotients

  /** Product and quotient, under names that proofs can hide. */
  function Mul(a: real, b: real): real
  {
    a * b
  }

  function Quotient(a: real, b: real): real
    requires b > 0.0
  {
    a / b
  }

  lemma {:induction false} MulSum(a: real, b: real, c: real)
    ensures Mul(a + b, c) == Mul(a, c) + Mul(b, c)
    ensures Mul(c, a + b) == Mul(c, a) + Mul(c, b)
  {
  }

  lemma {:induction false} MulAssociates(a: real, b: real, c: real)
    ensures Mul(Mul(a, b), c) == Mul(a, Mul(b, c))
  {
  }

  lemma {:induction false} MulZero(a: real)
    ensures Mul(a, 0.0) == 0.0 && Mul(0.0, a) == 0.0
  {
  }

  /** The sign of a product with a positive factor is that of the other factor. */
  lemma {:induction false} MulPositive(a: real, b: real)
    requires b > 0.0
    ensures Mul(a, b) > 0.0 <==> a > 0.0
  {
  }

  lemma {:induction false} QuotientTimes(a: real, b: real)
    requires b > 0.0
    ensures Mul(Quotient(a, b), b) == a
  {
  }

  lemma {:induction false} QuotientPositive(a: real, b: real)
    requires b > 0.0
    ensures Quotient(a, b) > 0.0 <==> a > 0.0
    ensures a == 0.0 ==> Quotient(a, b) == 0.0
  {
    QuotientTimes(a, b);
    MulPositive(Quotient(a, b), b);
  }

  lemma {:induction false} MulCancels(a: real, b: real, w: real)
    requires w > 0.0 && Mul(a, w) == Mul(b, w)
    ensures a == b
  {
    MulSum(a - b, b, w);
    MulPositive(a - b, w);
    MulPositive(b - a, w);
    MulSum(b - a, a, w);
    hide Mul;
  }

  // ---------------------------------------------------------------- one element of the kernel

  /** A stored number: scratch memory of an empty partial may hold anything. */
  datatype Value = NaN | Num(r: real)

  function Times(v: Value, c: real): Value
  {
    match v
    case NaN => NaN
    case Num(r) => Num(Mul(r, c))
  }

  function Plus(a: Value, b: Value): Value
  {
    if a.Num? && b.Num? then Num(a.r + b.r) else NaN
  }

  /** Both infinities mark empty attention. */
  datatype Lse = PlusInf | MinusInf | Finite(weight: real)

  predicate ValidLse(l: Lse)
  {
    l.Finite? ==> l.weight > 0.0
  }

  function Normal(l: Lse): Lse
  {
    if l == PlusInf then MinusInf else l
  }

  /** `exp(maximum)`, or 1 when both are empty. */
  function Scale(pl: Lse, sl: Lse): (m: real)
    requires ValidLse(pl) && ValidLse(sl)
    ensures m > 0.0
  {
    if pl.Finite? && sl.Finite? then if pl.weight >= sl.weight then pl.weight else sl.weight
    else if pl.Finite? then pl.weight
    else if sl.Finite? then sl.weight
    else 1.0
  }

  /** `exp(l - maximum)`. */
  function Scaled(l: Lse, m: real): (w: real)
    requires ValidLse(l) && m > 0.0
    ensures w >= 0.0 && (l.Finite? <==> w > 0.0)
  {
    if l.Finite? then QuotientPositive(l.weight, m); Quotient(l.weight, m) else 0.0
  }

  /** One element of the kernel, up to its stores. */
  function Merged(p: Value, pl: Lse, s: Value, sl: Lse, inContext: bool): (Value, Lse)
    requires ValidLse(pl) && ValidLse(sl)
  {
    if !inContext then (s, sl)
    else
      var pl', sl' := Normal(pl), Normal(sl);
      var empty := pl' == MinusInf && sl' == MinusInf;
      var maximum := Scale(pl', sl');
      var pw, sw := Scaled(pl', maximum), Scaled(sl', maximum);
      var total := pw + sw;
      var denominator := if empty then 1.0 else total;
      var p' := if pl' == MinusInf then Num(0.0) else p;
      var s' := if sl' == MinusInf then Num(0.0) else s;
      (Plus(Times(p', Quotient(pw, denominator)), Times(s', Quotient(sw, denominator))),
       if empty then MinusInf else Finite(Mul(total, maximum)))
  }

  // ---------------------------------------------------------------- what a state means

  /** A key seen by a query: the exponential of its score, and one element of its value. */
  datatype Key = Key(weight: real, value: real)

  predicate Weighted(keys: seq<Key>)
  {
    forall k :: k in keys ==> k.weight > 0.0
  }

  function Weight(keys: seq<Key>): real
  {
    if |keys| == 0 then 0.0 else keys[0].weight + Weight(keys[1..])
  }

  function WeightedSum(keys: seq<Key>): real
  {
    if |keys| == 0 then 0.0 else Mul(keys[0].value, keys[0].weight) + WeightedSum(keys[1..])
  }

  /** The state of attention over `keys`: the softmax average and the total weight; for no keys a marker, and anything
      as the average. */
  predicate IsState(keys: seq<Key>, v: Value, l: Lse)
  {
    if |keys| == 0 then !l.Finite?
    else l == Finite(Weight(keys)) && v.Num? && Mul(v.r, Weight(keys)) == WeightedSum(keys)
  }

  lemma {:induction false} WeightPositive(keys: seq<Key>)
    requires Weighted(keys)
    ensures Weight(keys) >= 0.0 && (|keys| > 0 ==> Weight(keys) > 0.0)
    decreases |keys|
  {
    if |keys| > 0 {
      assert keys[0] in keys;
      assert forall k :: k in keys[1..] ==> k in keys;
      WeightPositive(keys[1..]);
    }
  }

  lemma {:induction false} WeightsAdd(a: seq<Key>, b: seq<Key>)
    ensures Weight(a + b) == Weight(a) + Weight(b)
    ensures WeightedSum(a + b) == WeightedSum(a) + WeightedSum(b)
    decreases |a|
  {
    hide Mul;
    if |a| == 0 {
      assert a + b == b;
    } else {
      assert (a + b)[1..] == a[1..] + b;
      WeightsAdd(a[1..], b);
    }
  }

  lemma {:induction false} WeightedConcat(a: seq<Key>, b: seq<Key>)
    requires Weighted(a) && Weighted(b)
    ensures Weighted(a + b)
  {
  }

  // ---------------------------------------------------------------- merging is concatenating

  /** The average of two elements with given weights. */
  function Combined(u: real, x: real, v: real, y: real): real
    requires x + y > 0.0
  {
    Mul(u, Quotient(x, x + y)) + Mul(v, Quotient(y, x + y))
  }

  /** The scale cancels: its part of a scaled total is its part of the total. */
  lemma {:induction false} PartScaled(u: real, x: real, t: real, m: real, a: real)
    requires t > 0.0 && Mul(x, m) == a
    ensures Mul(Mul(u, Quotient(x, t)), Mul(t, m)) == Mul(u, a)
  {
    hide Mul, Quotient;
    var c := Quotient(x, t);
    QuotientTimes(x, t);
    MulAssociates(u, c, Mul(t, m));
    MulAssociates(c, t, m);
  }

  /** Averaging with scaled weights is averaging with the weights. */
  lemma {:induction false} CombinedScaled(u: real, v: real, wa: real, wb: real, x: real, y: real, m: real)
    requires wa >= 0.0 && wb >= 0.0 && wa + wb > 0.0 && m > 0.0 && x == Quotient(wa, m) && y == Quotient(wb, m)
    ensures x + y > 0.0 && Mul(x + y, m) == wa + wb
    ensures Mul(Combined(u, x, v, y), wa + wb) == Mul(u, wa) + Mul(v, wb)
  {
    hide Mul, Quotient;
    QuotientTimes(wa, m);
    QuotientTimes(wb, m);
    MulSum(x, y, m);
    MulPositive(x + y, m);
    PartScaled(u, x, x + y, m, wa);
    PartScaled(v, y, x + y, m, wb);
    MulSum(Mul(u, Quotient(x, x + y)), Mul(v, Quotient(y, x + y)), wa + wb);
  }

  function Element(keys: seq<Key>, v: Value): real
  {
    if |keys| > 0 && v.Num? then v.r else 0.0
  }

  /** What the kernel reads off a state. */
  lemma {:induction false} ReadState(keys: seq<Key>, v: Value, l: Lse, m: real)
    requires Weighted(keys) && ValidLse(l) && IsState(keys, v, l) && m > 0.0
    ensures Scaled(Normal(l), m) == Quotient(Weight(keys), m) && Weight(keys) >= 0.0
    ensures l.Finite? <==> |keys| > 0
    ensures |keys| > 0 ==> Weight(keys) > 0.0
    ensures if l.Finite? then v == Num(Element(keys, v)) else Element(keys, v) == 0.0
    ensures Mul(Element(keys, v), Weight(keys)) == WeightedSum(keys)
  {
    hide Mul, Quotient;
    WeightPositive(keys);
    QuotientPositive(Weight(keys), m);
    MulZero(Weight(keys));
  }

  /** The kernel's element in closed form, unless both partials are empty. */
  lemma {:induction false} NotEmpty(p: Value, pl: Lse, s: Value, sl: Lse, u: real, v: real)
    requires ValidLse(pl) && ValidLse(sl) && (pl.Finite? || sl.Finite?)
    requires if pl.Finite? then p == Num(u) else u == 0.0
    requires if sl.Finite? then s == Num(v) else v == 0.0
    ensures ValidLse(Normal(pl)) && ValidLse(Normal(sl))
    ensures var m := Scale(Normal(pl), Normal(sl));
            var x, y := Scaled(Normal(pl), m), Scaled(Normal(sl), m);
            && x + y > 0.0
            && Merged(p, pl, s, sl, true).0 == Num(Combined(u, x, v, y))
            && Merged(p, pl, s, sl, true).1 == Finite(Mul(x + y, m))
  {
    hide Mul, Quotient;
    var m := Scale(Normal(pl), Normal(sl));
    var x, y := Scaled(Normal(pl), m), Scaled(Normal(sl), m);
    MulZero(Quotient(x, x + y));
    MulZero(Quotient(y, x + y));
  }

  lemma {:induction false} BothEmpty(p: Value, pl: Lse, s: Value, sl: Lse)
    requires !pl.Finite? && !sl.Finite?
    ensures Merged(p, pl, s, sl, true) == (Num(0.0), MinusInf)
  {
    hide Mul, Quotient, Scale;
    assert Normal(pl) == MinusInf && Normal(sl) == MinusInf;
    assert Scaled(MinusInf, Scale(MinusInf, MinusInf)) == 0.0;
    MulZero(Quotient(0.0, 1.0));
  }

  lemma {:induction false} EmptyState(keys: seq<Key>)
    requires |keys| == 0
    ensures IsState(keys, Num(0.0), MinusInf) && ValidLse(MinusInf)
  {
  }

  lemma {:induction false} StateOf(keys: seq<Key>, r: real, w: real, sum: real, v: Value, l: Lse)
    requires |keys| > 0 && Weight(keys) == w > 0.0 && WeightedSum(keys) == sum && Mul(r, w) == sum && v == Num(r)
             && l == Finite(w)
    ensures IsState(keys, v, l) && ValidLse(l)
  {
    hide Mul;
  }

  /** Merging the states of two key lists gives the state of their concatenation, empty lists included. */
  lemma {:induction false} MergeComposes(a: seq<Key>, p: Value, pl: Lse, b: seq<Key>, s: Value, sl: Lse)
    requires Weighted(a) && Weighted(b) && ValidLse(pl) && ValidLse(sl)
    requires IsState(a, p, pl) && IsState(b, s, sl)
    ensures Weighted(a + b)
    ensures IsState(a + b, Merged(p, pl, s, sl, true).0, Merged(p, pl, s, sl, true).1)
    ensures ValidLse(Merged(p, pl, s, sl, true).1) && Merged(p, pl, s, sl, true).0.Num?
            && Merged(p, pl, s, sl, true).1 != PlusInf
    ensures a + b == [] ==> Merged(p, pl, s, sl, true) == (Num(0.0), MinusInf)
  {
    assert ValidLse(Normal(pl)) && ValidLse(Normal(sl));
    hide *;
    WeightedConcat(a, b);
    WeightsAdd(a, b);
    var m := Scale(Normal(pl), Normal(sl));
    ReadState(a, p, pl, m);
    ReadState(b, s, sl, m);
    if |a| == 0 && |b| == 0 {
      BothEmpty(p, pl, s, sl);
      EmptyState(a + b);
    } else {
      var x, y := Scaled(Normal(pl), m), Scaled(Normal(sl), m);
      CombinedScaled(Element(a, p), Element(b, s), Weight(a), Weight(b), x, y, m);
      NotEmpty(p, pl, s, sl, Element(a, p), Element(b, s));
      StateOf(a + b, Combined(Element(a, p), x, Element(b, s), y), Weight(a) + Weight(b),
        WeightedSum(a) + WeightedSum(b),
              Merged(p, pl, s, sl, true).0, Merged(p, pl, s, sl, true).1);
    }
  }

  // ---------------------------------------------------------------- algebra

  /** A state that a merge could take in: a finite one has a number as its average. */
  predicate Usable(v: Value, l: Lse)
  {
    ValidLse(l) && (l.Finite? ==> v.Num?)
  }

  /** Every usable state is that of some keys. */
  function KeysOf(v: Value, l: Lse): (keys: seq<Key>)
    requires Usable(v, l)
    ensures Weighted(keys) && IsState(keys, v, l) && (l.Finite? ==> |keys| == 1)
  {
    if l.Finite? then
      OneKey(v.r, l.weight);
      [Key(l.weight, v.r)]
    else []
  }

  lemma {:induction false} OneKey(r: real, w: real)
    ensures Weight([Key(w, r)]) == w && WeightedSum([Key(w, r)]) == Mul(r, w)
  {
    hide Mul;
    assert [Key(w, r)][1..] == [];
  }

  /** The keys determine a state, unless there are none. */
  lemma {:induction false} StateUnique(keys: seq<Key>, v: Value, l: Lse, v': Value, l': Lse)
    requires Weighted(keys) && |keys| > 0 && IsState(keys, v, l) && IsState(keys, v', l')
    ensures v == v' && l == l'
  {
    hide Mul;
    WeightPositive(keys);
    MulCancels(v.r, v'.r, Weight(keys));
  }

  lemma {:induction false} UsableValid(v: Value, l: Lse)
    requires Usable(v, l)
    ensures ValidLse(l)
  {
  }

  /** Merging is associative. */
  lemma {:induction false} MergeAssociates(p: Value, pl: Lse, q: Value, ql: Lse, s: Value, sl: Lse)
    requires Usable(p, pl) && Usable(q, ql) && Usable(s, sl)
    ensures var (v, l) := Merged(p, pl, q, ql, true);
            var (w, k) := Merged(q, ql, s, sl, true);
            && ValidLse(l) && ValidLse(k)
            && Merged(v, l, s, sl, true).0 == Merged(p, pl, w, k, true).0
            && Merged(v, l, s, sl, true).1 == Merged(p, pl, w, k, true).1
  {
    UsableValid(p, pl);
    UsableValid(q, ql);
    UsableValid(s, sl);
    hide *;
    var a, b, c := KeysOf(p, pl), KeysOf(q, ql), KeysOf(s, sl);
    var v, l := Merged(p, pl, q, ql, true).0, Merged(p, pl, q, ql, true).1;
    var w, k := Merged(q, ql, s, sl, true).0, Merged(q, ql, s, sl, true).1;
    MergeComposes(a, p, pl, b, q, ql);
    MergeComposes(b, q, ql, c, s, sl);
    MergeComposes(a + b, v, l, c, s, sl);
    MergeComposes(a, p, pl, b + c, w, k);
    assert a + b + c == a + (b + c);
    if a + b + c != [] {
      StateUnique(a + b + c, Merged(v, l, s, sl, true).0, Merged(v, l, s, sl, true).1, Merged(p, pl, w, k, true).0,
        Merged(p, pl, w, k, true).1);
    }
  }

  /** The empty state is a unit on both sides, whatever its scratch memory holds. */
  lemma {:induction false} EmptyIsUnit(v: Value, l: Lse, scratch: Value, marker: Lse)
    requires Usable(v, l) && l.Finite? && !marker.Finite?
    ensures Merged(scratch, marker, v, l, true).0 == Merged(v, l, scratch, marker, true).0 == v
    ensures Merged(scratch, marker, v, l, true).1 == Merged(v, l, scratch, marker, true).1 == l
  {
    UsableValid(v, l);
    assert ValidLse(marker) && Weighted([]) && IsState([], scratch, marker);
    hide *;
    var keys := KeysOf(v, l);
    MergeComposes([], scratch, marker, keys, v, l);
    MergeComposes(keys, v, l, [], scratch, marker);
    assert [] + keys == keys && keys + [] == keys;
    StateUnique(keys, Merged(scratch, marker, v, l, true).0, Merged(scratch, marker, v, l, true).1, v, l);
    StateUnique(keys, Merged(v, l, scratch, marker, true).0, Merged(v, l, scratch, marker, true).1, v, l);
  }

  /** Leaving the merge out for a token without context is merging with an empty prefix, except that an empty suffix
      keeps its marker and its scratch memory unless they are those of the merged empty state. */
  lemma {:induction false} NoContextIsEmptyPrefix(scratch: Value, marker: Lse, s: Value, sl: Lse)
    requires Usable(s, sl) && !marker.Finite?
    ensures Merged(scratch, marker, s, sl, false) == Merged(scratch, marker, s, sl, true)
        <==> sl.Finite? || (s, sl) == (Num(0.0), MinusInf)
  {
    hide *;
    if sl.Finite? {
      FullSuffix(scratch, marker, s, sl);
    } else {
      EmptySuffix(scratch, marker, s, sl);
    }
  }

  lemma {:induction false} FullSuffix(scratch: Value, marker: Lse, s: Value, sl: Lse)
    requires Usable(s, sl) && sl.Finite? && !marker.Finite?
    ensures ValidLse(sl) && ValidLse(marker)
    ensures Merged(scratch, marker, s, sl, true) == Merged(scratch, marker, s, sl, false)
  {
    UsableValid(s, sl);
    assert ValidLse(marker);
    hide *;
    Untouched(scratch, marker, s, sl);
    EmptyIsUnit(s, sl, scratch, marker);
    PairOf(Merged(scratch, marker, s, sl, true), s, sl);
  }

  lemma {:induction false} EmptySuffix(scratch: Value, marker: Lse, s: Value, sl: Lse)
    requires !sl.Finite? && !marker.Finite?
    ensures ValidLse(sl) && ValidLse(marker)
    ensures Merged(scratch, marker, s, sl, true) == (Num(0.0), MinusInf)
    ensures Merged(scratch, marker, s, sl, false) == (s, sl)
  {
    assert ValidLse(sl) && ValidLse(marker);
    hide *;
    Untouched(scratch, marker, s, sl);
    BothEmpty(scratch, marker, s, sl);
  }

  lemma {:induction false} PairOf(p: (Value, Lse), v: Value, l: Lse)
    requires p.0 == v && p.1 == l
    ensures p == (v, l)
  {
  }

  lemma {:induction false} Untouched(p: Value, pl: Lse, s: Value, sl: Lse)
    requires ValidLse(pl) && ValidLse(sl)
    ensures Merged(p, pl, s, sl, false) == (s, sl)
  {
    hide Mul, Quotient;
  }

  // ---------------------------------------------------------------- the kernel over its tensors

  /** Tensor layout: where element `dim` of a head of a token is stored. No two elements share a place. */
  datatype Layout = Layout(tokens: nat, heads: nat, dims: nat, out: (nat, nat, nat) -> nat, lse: (nat, nat) -> nat)
  {
    ghost predicate InRange(t: nat, h: nat)
    {
      t < tokens && h < heads
    }

    ghost predicate Valid(outLength: nat, lseLength: nat)
    {
      && dims > 0
      && (forall t: nat, h: nat, d: nat :: InRange(t, h) && d < dims ==> out(t, h, d) < outLength)
      && (forall t: nat, h: nat :: InRange(t, h) ==> lse(t, h) < lseLength)
      && (forall t: nat, h: nat, d: nat, u: nat, k: nat, e: nat ::
            InRange(t, h) && d < dims && InRange(u, k) && e < dims && out(t, h, d) == out(u, k, e) ==>
              t == u && h == k && d == e)
      && (forall t: nat, h: nat, u: nat,
         k: nat :: InRange(t, h) && InRange(u, k) && lse(t, h) == lse(u, k) ==> t == u && h == k)
    }
  }

  /** The inputs, by token, head and dimension. */
  datatype Inputs = Inputs(prefix: (nat, nat, nat) -> Value, prefixLse: (nat, nat) -> Lse,
                           suffix: (nat, nat, nat) -> Value, suffixLse: (nat, nat) -> Lse, contextTokens: nat)
  {
    ghost predicate Valid()
    {
      forall t, h :: ValidLse(prefixLse(t, h)) && ValidLse(suffixLse(t, h))
    }

    function At(t: nat, h: nat, d: nat): (Value, Lse)
      requires ValidLse(prefixLse(t, h)) && ValidLse(suffixLse(t, h))
    {
      Merged(prefix(t, h, d), prefixLse(t, h), suffix(t, h, d), suffixLse(t, h), t < contextTokens)
    }
  }

  /** What is stored for a token is the state of the keys that it attends to: those of the prefix, none without context,
      and those of the suffix. */
  lemma {:induction false} TokenAttends(inputs: Inputs, t: nat, h: nat, d: nat, a: seq<Key>, b: seq<Key>)
    requires inputs.Valid() && Weighted(a) && Weighted(b) && IsState(b, inputs.suffix(t, h, d), inputs.suffixLse(t, h))
    requires if t < inputs.contextTokens then IsState(a, inputs.prefix(t, h, d), inputs.prefixLse(t, h)) else a == []
    ensures IsState(a + b, inputs.At(t, h, d).0, inputs.At(t, h, d).1)
  {
    var p, pl, s, sl := inputs.prefix(t, h, d), inputs.prefixLse(t, h), inputs.suffix(t, h, d), inputs.suffixLse(t, h);
    hide Mul, Quotient, Merged, IsState;
    if t < inputs.contextTokens {
      MergeComposes(a, p, pl, b, s, sl);
    } else {
      Untouched(p, pl, s, sl);
      assert a + b == b;
    }
  }

  /** The elements of a program have been stored, its log-sum-exp when asked for. */
  ghost predicate Stored(layout: Layout, inputs: Inputs, out: seq<Value>, lse: seq<Lse>, writeLse: bool, t: nat, h: nat)
    requires inputs.Valid() && layout.Valid(|out|, |lse|) && layout.InRange(t, h)
  {
    && (forall d: nat :: d < layout.dims ==> out[layout.out(t, h, d)] == inputs.At(t, h, d).0)
    && (writeLse ==> lse[layout.lse(t, h)] == inputs.At(t, h, 0).1)
  }

  /** A place that belongs to the program of token `t` and head `h`. */
  ghost predicate Owns(layout: Layout, t: nat, h: nat, i: nat)
  {
    exists d: nat :: d < layout.dims && layout.out(t, h, d) == i
  }

  /** A place of the output, or of the log-sum-exp output, that belongs to no program. */
  ghost predicate Unowned(layout: Layout, i: nat)
  {
    forall t: nat, h: nat :: layout.InRange(t, h) ==> !Owns(layout, t, h, i)
  }

  ghost predicate LseUnowned(layout: Layout, i: nat)
  {
    forall t: nat, h: nat :: layout.InRange(t, h) ==> layout.lse(t, h) != i
  }

  /** One program. */
  method MergeProgram(layout: Layout, inputs: Inputs, t: nat, h: nat, output: array<Value>, outputLse: array<Lse>,
                      writeLse: bool)
    requires layout.Valid(output.Length, outputLse.Length) && inputs.Valid() && layout.InRange(t, h)
    modifies output, outputLse
    ensures Stored(layout, inputs, output[..], outputLse[..], writeLse, t, h)
    ensures forall i :: 0 <= i < output.Length && !Owns(layout, t, h, i) ==> output[i] == old(output[i])
    ensures outputLse[..] == if writeLse then old(outputLse[..])[layout.lse(t, h) := inputs.At(t, h, 0).1]
            else old(outputLse[..])
  {
    for d := 0 to layout.dims
      invariant forall e: nat :: e < d ==> output[layout.out(t, h, e)] == inputs.At(t, h, e).0
      invariant forall i :: 0 <= i < output.Length && !Owns(layout, t, h, i) ==> output[i] == old(output[i])
      invariant outputLse[..] == old(outputLse[..])
    {
      assert Owns(layout, t, h, layout.out(t, h, d));
      output[layout.out(t, h, d)] := inputs.At(t, h, d).0;
    }
    if writeLse {
      outputLse[layout.lse(t, h)] := inputs.At(t, h, 0).1;
    }
  }

  /** Stores of one program leave those of the others alone. */
  lemma {:induction false} OthersStay(layout: Layout, inputs: Inputs, out: seq<Value>, lse: seq<Lse>, writeLse: bool,
                                      t: nat, h: nat,
                                      out': seq<Value>, lse': seq<Lse>, u: nat, k: nat)
    requires inputs.Valid() && layout.Valid(|out|, |lse|) && |out'| == |out| && |lse'| == |lse|
    requires layout.InRange(t, h) && layout.InRange(u, k) && (t, h) != (u, k)
    requires Stored(layout, inputs, out, lse, writeLse, u, k)
    requires forall i :: 0 <= i < |out| && !Owns(layout, t, h, i) ==> out'[i] == out[i]
    requires lse' == if writeLse then lse[layout.lse(t, h) := inputs.At(t, h, 0).1] else lse
    ensures Stored(layout, inputs, out', lse', writeLse, u, k)
  {
    forall d: nat | d < layout.dims
      ensures out'[layout.out(u, k, d)] == inputs.At(u, k, d).0
    {
      assert !Owns(layout, t, h, layout.out(u, k, d));
    }
  }

  /** All programs, in any order: every element of every token and head is the merged one, and no other place of the
      output changes. */
  method MergeKernel(layout: Layout, inputs: Inputs, output: array<Value>, outputLse: array<Lse>, writeLse: bool)
    requires layout.Valid(output.Length, outputLse.Length) && inputs.Valid()
    modifies output, outputLse
    ensures forall t: nat, h: nat ::
              layout.InRange(t, h) ==> Stored(layout, inputs, output[..], outputLse[..], writeLse, t, h)
    ensures forall i :: 0 <= i < output.Length && Unowned(layout, i) ==> output[i] == old(output[i])
    ensures forall i :: 0 <= i < outputLse.Length && (!writeLse || LseUnowned(layout, i)) ==>
              outputLse[i] == old(outputLse[i])
  {
    var todo := set t, h | 0 <= t < layout.tokens && 0 <= h < layout.heads :: (t, h);
    while todo != {}
      invariant forall x :: x in todo ==> 0 <= x.0 < layout.tokens && 0 <= x.1 < layout.heads
      invariant forall t: nat, h: nat ::
                  layout.InRange(t, h) && (t, h) !in todo ==>
                    Stored(layout, inputs, output[..], outputLse[..], writeLse, t, h)
      invariant forall i :: 0 <= i < output.Length && Unowned(layout, i) ==> output[i] == old(output[i])
      invariant forall i :: 0 <= i < outputLse.Length && (!writeLse || LseUnowned(layout, i)) ==>
                  outputLse[i] == old(outputLse[i])
    {
      var x :| x in todo;
      ghost var out, lse := output[..], outputLse[..];
      MergeProgram(layout, inputs, x.0, x.1, output, outputLse, writeLse);
      forall t: nat, h: nat | layout.InRange(t, h) && (t, h) !in todo - {x}
        ensures Stored(layout, inputs, output[..], outputLse[..], writeLse, t, h)
      {
        if (t, h) != x {
          OthersStay(layout, inputs, out, lse, writeLse, x.0, x.1, output[..], outputLse[..], t, h);
        }
      }
      todo := todo - {x};
    }
  }
}
