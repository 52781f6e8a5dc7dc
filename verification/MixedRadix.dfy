/** Numbers written with a different radix at every place, the most significant digit first. */
module MixedRadix {
  import opened Sums

  ghost predicate Radices(r: seq<nat>)
  {
    forall i :: 0 <= i < |r| ==> r[i] > 0
  }

  ghost predicate Digits(d: seq<nat>, r: seq<nat>)
  {
    |d| == |r| && forall i :: 0 <= i < |r| ==> d[i] < r[i]
  }

  function Encode(d: seq<nat>, r: seq<nat>): nat
    requires |d| == |r|
  {
    if |d| == 0 then 0
    else Encode(d[..|d| - 1], r[..|r| - 1]) * r[|r| - 1] + d[|d| - 1]
  }

  function Decode(x: nat, r: seq<nat>): (d: seq<nat>)
    requires Radices(r)
    ensures |d| == |r|
    decreases |r|
  {
    if |r| == 0 then []
    else Decode(x / r[|r| - 1], r[..|r| - 1]) + [x % r[|r| - 1]]
  }

  function Product(r: seq<nat>): nat
  {
    if |r| == 0 then 1 else Product(r[..|r| - 1]) * r[|r| - 1]
  }

  /** Digits can be read back from the number, which stays below the product of the radices. */
  lemma {:induction false} DecodeEncode(d: seq<nat>, r: seq<nat>)
    requires Radices(r) && Digits(d, r)
    ensures Decode(Encode(d, r), r) == d
    ensures Encode(d, r) < Product(r)
    decreases |r|
  {
    if |r| > 0 {
      var n := |r| - 1;
      DecodeEncode(d[..n], r[..n]);
      var high := Encode(d[..n], r[..n]);
      Joined(Encode(d, r), high, d[n], r[n]);
      MulStep(high, Product(r[..n]), r[n]);
      assert d[..n] + [d[n]] == d;
    }
  }

  /** And every number below the product is the number of its digits. */
  lemma {:induction false} EncodeDecode(x: nat, r: seq<nat>)
    requires Radices(r) && x < Product(r)
    ensures Digits(Decode(x, r), r)
    ensures Encode(Decode(x, r), r) == x
    decreases |r|
  {
    if |r| > 0 {
      var n := |r| - 1;
      var high, low := Split(x, r[n]);
      DivBelow(x, Product(r[..n]), r[n]);
      EncodeDecode(high, r[..n]);
      var d := Decode(x, r);
      assert d[..n] == Decode(high, r[..n]);
    }
  }

  lemma {:induction false} EncodeSix(a: nat, b: nat, c: nat, d: nat, e: nat, f: nat, u: nat, v: nat, w: nat, x: nat,
                                     y: nat, z: nat)
    ensures Encode([a, b, c, d, e, f], [u, v, w, x, y, z]) == ((((a * v + b) * w + c) * x + d) * y + e) * z + f
  {
    var r := [u, v, w, x, y, z];
    var all := [a, b, c, d, e, f];
    assert all[..5] == [a, b, c, d, e] && r[..5][4] == r[4];
    assert all[..5][..4] == [a, b, c, d] && r[..5][..4] == r[..4];
    assert [a, b, c, d][..3] == [a, b, c] && r[..4][..3] == r[..3];
    assert [a, b, c][..2] == [a, b] && r[..3][..2] == r[..2];
    assert [a, b][..1] == [a] && r[..2][..1] == r[..1];
    assert [a][..0] == [] && r[..1][..0] == [];
    assert Encode([a], r[..1]) == a;
    assert Encode([a, b], r[..2]) == a * v + b;
    assert Encode([a, b, c], r[..3]) == (a * v + b) * w + c;
    assert Encode([a, b, c, d], r[..4]) == ((a * v + b) * w + c) * x + d;
    assert Encode([a, b, c, d, e], r[..5]) == (((a * v + b) * w + c) * x + d) * y + e;
  }
}
