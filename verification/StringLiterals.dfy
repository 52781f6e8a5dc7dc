/** String literals in a text: how reading finds them one after the other, and where they are. */
module StringLiterals {
  import opened Wrappers

  // ---------------------------------------------------------------- string literals

  /** The closing quote of a literal whose body is read from `p` on: a backslash takes the next character with it,
      unless that is a line break or missing. */
  function Closing(text: string, p: nat): (q: Option<nat>)
    ensures q.Some? ==> p <= q.value < |text| && text[q.value] == '"'
    decreases |text| - p
  {
    if p >= |text| then None
    else if text[p] == '"' then Some(p)
    else if text[p] == '\\' then
      if p + 1 < |text| && text[p + 1] != '\n' then Closing(text, p + 2) else None
    else Closing(text, p + 1)
  }

  /** A literal starts here. */
  predicate AtLiteral(text: string)
  {
    |text| > 0 && text[0] == '"' && Closing(text, 1).Some?
  }

  /** `_STRING_RE.sub('""', text)`: literals without their bodies. */
  function Blanked(text: string): string
    decreases |text|
  {
    if |text| == 0 then ""
    else if AtLiteral(text) then "\"\"" + Blanked(text[Closing(text, 1).value + 1..])
    else [text[0]] + Blanked(text[1..])
  }

  /** `_STRING_RE.findall(text)`: the bodies of the literals. */
  function Literals(text: string): seq<string>
    decreases |text|
  {
    if |text| == 0 then []
    else if AtLiteral(text) then [text[1..Closing(text, 1).value]] + Literals(text[Closing(text, 1).value + 1..])
    else Literals(text[1..])
  }

  /** Every quote outside a literal opens one that is closed. */
  predicate Balanced(text: string)
    decreases |text|
  {
    if |text| == 0 then true
    else if AtLiteral(text) then Balanced(text[Closing(text, 1).value + 1..])
    else text[0] != '"' && Balanced(text[1..])
  }

  lemma {:induction false} ClosingExtends(a: string, b: string, p: nat)
    requires Closing(a, p).Some?
    ensures Closing(a + b, p) == Closing(a, p)
    decreases |a| - p
  {
    if a[p] != '"' {
      ClosingExtends(a, b, if a[p] == '\\' then p + 2 else p + 1);
    }
  }

  /** Text that starts with a literal: what follows the literal decides the rest. */
  lemma {:induction false} BehindLiteral(a: string, b: string)
    requires AtLiteral(a)
    ensures AtLiteral(a + b) && Closing(a, 1).Some? && Closing(a + b, 1) == Closing(a, 1)
    ensures (a + b)[Closing(a, 1).value + 1..] == a[Closing(a, 1).value + 1..] + b
    ensures (a + b)[1..Closing(a, 1).value] == a[1..Closing(a, 1).value]
  {
    ClosingExtends(a, b, 1);
  }

  lemma {:induction false} Associates<T>(x: seq<T>, y: seq<T>, z: seq<T>)
    ensures x + (y + z) == (x + y) + z
  {
  }

  /** Behind balanced text, reading starts afresh. */
  lemma {:induction false} BalancedSplits(a: string, b: string)
    requires Balanced(a)
    ensures Blanked(a + b) == Blanked(a) + Blanked(b)
    ensures Literals(a + b) == Literals(a) + Literals(b)
    ensures Balanced(a + b) <==> Balanced(b)
    decreases |a|
  {
    hide *;
    if |a| == 0 {
      NothingInFront(a, b);
    } else if AtLiteral(a) {
      BehindLiteral(a, b);
      AtStart(a);
      AtStart(a + b);
      var q := Closing(a, 1).value;
      BalancedSplits(a[q + 1..], b);
      Associates("\"\"", Blanked(a[q + 1..]), Blanked(b));
      Associates([a[1..q]], Literals(a[q + 1..]), Literals(b));
    } else {
      CharAtStart(a, b);
      BalancedSplits(a[1..], b);
      Associates([a[0]], Blanked(a[1..]), Blanked(b));
    }
  }

  lemma {:induction false} NothingInFront(a: string, b: string)
    requires |a| == 0
    ensures Blanked(a) == "" && Literals(a) == [] && a + b == b
  {
  }

  lemma {:induction false} CharAtStart(a: string, b: string)
    requires |a| > 0 && !AtLiteral(a) && Balanced(a)
    ensures Balanced(a[1..]) && (a + b)[1..] == a[1..] + b
    ensures Blanked(a) == [a[0]] + Blanked(a[1..]) && Blanked(a + b) == [a[0]] + Blanked((a + b)[1..])
    ensures Literals(a) == Literals(a[1..]) && Literals(a + b) == Literals((a + b)[1..])
    ensures Balanced(a + b) <==> Balanced((a + b)[1..])
  {
    assert (a + b)[1..] == a[1..] + b;
  }

  lemma {:induction false} AtStart(text: string)
    requires AtLiteral(text)
    ensures |text| > 0 && Closing(text, 1).Some?
    ensures var q := Closing(text, 1).value;
            && Blanked(text) == "\"\"" + Blanked(text[q + 1..])
            && Literals(text) == [text[1..q]] + Literals(text[q + 1..])
            && (Balanced(text) <==> Balanced(text[q + 1..]))
  {
  }

  // ---------------------------------------------------------------- literals by position

  /** What the pattern admits between two quotes: escaped characters other than a line break, and others except quotes
      and backslashes. */
  predicate IsBody(b: string)
    decreases |b|
  {
    if |b| == 0 then true
    else if b[0] == '\\' then |b| > 1 && b[1] != '\n' && IsBody(b[2..])
    else b[0] != '"' && IsBody(b[1..])
  }

  /** The pattern matches from `p` up to and including `q`. */
  ghost predicate IsLiteral(text: string, p: nat, q: nat)
  {
    p < q < |text| && text[p] == '"' && text[q] == '"' && IsBody(text[p + 1..q])
  }

  /** A match from `p` on can only end at the closing quote. */
  lemma {:induction false} ClosingExact(text: string, p: nat, q: nat)
    requires p <= q < |text|
    ensures Closing(text, p) == Some(q) <==> text[q] == '"' && IsBody(text[p..q])
    decreases q - p
  {
    if p < q {
      var b := text[p..q];
      assert b[0] == text[p];
      if text[p] == '\\' {
        if p + 1 < q {
          assert b[1] == text[p + 1] && b[2..] == text[p + 2..q];
          if text[p + 1] != '\n' {
            ClosingExact(text, p + 2, q);
          }
        }
      } else if text[p] != '"' {
        assert b[1..] == text[p + 1..q];
        ClosingExact(text, p + 1, q);
      }
    }
  }

  /** `spans` are the matches that reading from `from` on finds: disjoint, in order, and no other match starts outside
      of them. */
  ghost predicate Spans(text: string, from: nat, spans: seq<(nat, nat)>)
  {
    && AreMatches(text, from, spans) && InOrder(spans)
    && forall p, q :: from <= p && IsLiteral(text, p, q) ==> Within(p, spans)
  }

  ghost predicate AreMatches(text: string, from: nat, spans: seq<(nat, nat)>)
  {
    forall i :: 0 <= i < |spans| ==> from <= spans[i].0 && IsLiteral(text, spans[i].0, spans[i].1)
  }

  ghost predicate InOrder(spans: seq<(nat, nat)>)
  {
    forall i, j :: 0 <= i < j < |spans| ==> spans[i].1 < spans[j].0
  }

  ghost predicate Within(p: nat, spans: seq<(nat, nat)>)
  {
    exists i :: 0 <= i < |spans| && spans[i].0 <= p <= spans[i].1
  }

  lemma {:induction false} WithinFirst(p: nat, spans: seq<(nat, nat)>)
    requires |spans| > 0
    ensures Within(p, spans) <==> spans[0].0 <= p <= spans[0].1 || Within(p, spans[1..])
  {
    if i :| 0 <= i < |spans| && spans[i].0 <= p <= spans[i].1 {
      assert i > 0 ==> spans[1..][i - 1] == spans[i];
    }
    if i :| 0 <= i < |spans[1..]| && spans[1..][i].0 <= p <= spans[1..][i].1 {
      assert spans[i + 1] == spans[1..][i];
    }
  }

  lemma {:induction false} LiteralStarts(text: string, from: nat)
    requires from <= |text|
    ensures AtLiteral(text[from..]) ==> IsLiteral(text, from, from + Closing(text[from..], 1).value)
    ensures forall q :: IsLiteral(text, from, q) ==>
              AtLiteral(text[from..]) && q == from + Closing(text[from..], 1).value
  {
    var t := text[from..];
    if AtLiteral(t) {
      var q := Closing(t, 1).value;
      ClosingExact(t, 1, q);
      assert t[1..q] == text[from + 1..from + q];
    }
    forall q: nat | IsLiteral(text, from, q)
      ensures AtLiteral(t) && q == from + Closing(t, 1).value
    {
      ClosingExact(t, 1, q - from);
      assert t[1..q - from] == text[from + 1..q];
    }
  }

  lemma {:induction false} LiteralAt(text: string, from: nat) returns (q: nat)
    requires from <= |text| && AtLiteral(text[from..])
    ensures Closing(text[from..], 1).Some? && q == from + Closing(text[from..], 1).value
    ensures from < q < |text| && IsLiteral(text, from, q)
  {
    q := from + Closing(text[from..], 1).value;
    LiteralStarts(text, from);
  }

  /** Every text has such spans. */
  lemma {:induction false} SpansExist(text: string, from: nat) returns (spans: seq<(nat, nat)>)
    requires from <= |text|
    ensures Spans(text, from, spans)
    decreases |text| - from
  {
    if from == |text| {
      spans := [];
    } else {
      LiteralStarts(text, from);
      if AtLiteral(text[from..]) {
        var q := from + Closing(text[from..], 1).value;
        var rest := SpansExist(text, q + 1);
        spans := [(from, q)] + rest;
        SpansBehind(text, from, q, rest);
      } else {
        spans := SpansExist(text, from + 1);
      }
    }
  }

  lemma {:induction false} SpansBehind(text: string, from: nat, q: nat, rest: seq<(nat, nat)>)
    requires IsLiteral(text, from, q) && Spans(text, q + 1, rest)
    ensures Spans(text, from, [(from, q)] + rest)
  {
    var spans := [(from, q)] + rest;
    assert from < q && spans[1..] == rest;
    SpansInOrder(text, from, q, rest);
    hide IsLiteral, Within, AreMatches, InOrder;
    forall p: nat, r: nat | from <= p && IsLiteral(text, p, r)
      ensures Within(p, spans)
    {
      WithinFirst(p, spans);
    }
  }

  lemma {:induction false} SpansInOrder(text: string, from: nat, q: nat, rest: seq<(nat, nat)>)
    requires IsLiteral(text, from, q) && AreMatches(text, q + 1, rest) && InOrder(rest)
    ensures AreMatches(text, from, [(from, q)] + rest) && InOrder([(from, q)] + rest)
  {
    var spans := [(from, q)] + rest;
    forall i | 0 <= i < |spans|
      ensures from <= spans[i].0 && IsLiteral(text, spans[i].0, spans[i].1)
    {
      assert i > 0 ==> spans[i] == rest[i - 1];
    }
    hide IsLiteral, Within;
    forall i, j | 0 <= i < j < |spans|
      ensures spans[i].1 < spans[j].0
    {
      assert spans[j] == rest[j - 1] && q + 1 <= rest[j - 1].0;
      assert i > 0 ==> spans[i] == rest[i - 1];
    }
  }

  lemma {:induction false} FirstSpan(text: string, from: nat, spans: seq<(nat, nat)>, q: nat)
    requires AreMatches(text, from, spans) && InOrder(spans) && IsLiteral(text, from, q) && Within(from, spans)
    requires forall r :: IsLiteral(text, from, r) ==> r == q
    ensures |spans| > 0 && spans[0] == (from, q)
  {
    var i :| 0 <= i < |spans| && spans[i].0 <= from <= spans[i].1;
    assert IsLiteral(text, spans[0].0, spans[0].1);
    hide IsLiteral, Within;
    assert i == 0;
  }

  lemma {:induction false} RestInOrder(text: string, from: nat, q: nat, spans: seq<(nat, nat)>)
    requires |spans| > 0 && spans[0] == (from, q) && AreMatches(text, from, spans) && InOrder(spans)
    ensures AreMatches(text, q + 1, spans[1..]) && InOrder(spans[1..])
  {
    hide IsLiteral;
  }

  /** The first span, and the spans behind the first character that reading passes over. */
  lemma {:induction false} SpansStep(text: string, from: nat, spans: seq<(nat, nat)>)
    requires from < |text| && Spans(text, from, spans)
    ensures AtLiteral(text[from..]) ==>
              var q := from + Closing(text[from..], 1).value;
              |spans| > 0 && spans[0] == (from, q) && Spans(text, q + 1, spans[1..])
    ensures !AtLiteral(text[from..]) ==> Spans(text, from + 1, spans)
  {
    LiteralStarts(text, from);
    if AtLiteral(text[from..]) {
      var q := from + Closing(text[from..], 1).value;
      assert Within(from, spans);
      FirstSpan(text, from, spans, q);
      RestInOrder(text, from, q, spans);
      hide IsLiteral, AtLiteral, Closing, Within, AreMatches, InOrder;
      forall p: nat, r: nat | q + 1 <= p && IsLiteral(text, p, r)
        ensures Within(p, spans[1..])
      {
        WithinFirst(p, spans);
      }
    }
  }

  /** A semicolon outside the spans. */
  ghost predicate Ends(text: string, from: nat, spans: seq<(nat, nat)>)
  {
    exists p :: from <= p < |text| && text[p] == ';' && !Within(p, spans)
  }

  /** The literals are the texts between the quotes of the spans. */
  ghost predicate Between(literals: seq<string>, text: string, spans: seq<(nat, nat)>)
  {
    && |literals| == |spans|
    && forall i :: 0 <= i < |spans| ==>
         spans[i].0 < spans[i].1 < |text| && literals[i] == text[spans[i].0 + 1..spans[i].1]
  }

  lemma {:induction false} NothingRead(text: string, spans: seq<(nat, nat)>)
    requires Spans(text, |text|, spans)
    ensures Between(Literals(text[|text|..]), text, spans)
    ensures !(';' in Blanked(text[|text|..])) && !Ends(text, |text|, spans)
  {
    assert |spans| > 0 ==> IsLiteral(text, spans[0].0, spans[0].1);
  }

  lemma {:induction false} LiteralRead(text: string, from: nat, spans: seq<(nat, nat)>) returns (q: nat)
    requires from < |text| && Spans(text, from, spans) && AtLiteral(text[from..])
    ensures |spans| > 0 && from < q < |text| && Spans(text, q + 1, spans[1..])
    ensures Between(Literals(text[q + 1..]), text, spans[1..]) ==> Between(Literals(text[from..]), text, spans)
    ensures ';' in Blanked(text[from..]) <==> ';' in Blanked(text[q + 1..])
    ensures Ends(text, from, spans) <==> Ends(text, q + 1, spans[1..])
  {
    hide *;
    q := LiteralAt(text, from);
    SpansStep(text, from, spans);
    LiteralFirst(text, from, q, spans);
    EndsBehind(text, from, q, spans);
  }

  /** The literals are those of the spans, and blanking leaves a semicolon exactly when one stands outside of them. */
  lemma {:induction false} ReadBySpans(text: string, from: nat, spans: seq<(nat, nat)>)
    requires from <= |text| && Spans(text, from, spans)
    ensures Between(Literals(text[from..]), text, spans)
    ensures ';' in Blanked(text[from..]) <==> Ends(text, from, spans)
    decreases |text| - from
  {
    hide *;
    if from == |text| {
      NothingRead(text, spans);
    } else if AtLiteral(text[from..]) {
      var q := LiteralRead(text, from, spans);
      ReadBySpans(text, q + 1, spans[1..]);
    } else {
      SpansStep(text, from, spans);
      CharRead(text, from);
      EndsHere(text, from, spans);
      ReadBySpans(text, from + 1, spans);
    }
  }

  lemma {:induction false} LiteralFirst(text: string, from: nat, q: nat, spans: seq<(nat, nat)>)
    requires IsLiteral(text, from, q) && |spans| > 0 && spans[0] == (from, q)
    requires AtLiteral(text[from..]) && q == from + Closing(text[from..], 1).value
    ensures Between(Literals(text[q + 1..]), text, spans[1..]) ==> Between(Literals(text[from..]), text, spans)
    ensures ';' in Blanked(text[from..]) <==> ';' in Blanked(text[q + 1..])
  {
    var t, rest := text[from..], text[q + 1..];
    assert t[q - from + 1..] == rest && t[1..q - from] == text[from + 1..q];
    assert Literals(t) == [text[from + 1..q]] + Literals(rest);
    assert Blanked(t) == "\"\"" + Blanked(rest);
    hide IsLiteral, AtLiteral, Closing, Literals, Blanked;
    assert forall i :: 1 <= i < |spans| ==> spans[i] == spans[1..][i - 1];
  }

  lemma {:induction false} CharRead(text: string, from: nat)
    requires from < |text| && !AtLiteral(text[from..])
    ensures Literals(text[from..]) == Literals(text[from + 1..])
    ensures ';' in Blanked(text[from..]) <==> text[from] == ';' || ';' in Blanked(text[from + 1..])
  {
    assert text[from..][1..] == text[from + 1..];
  }

  lemma {:induction false} EndsBehind(text: string, from: nat, q: nat, spans: seq<(nat, nat)>)
    requires |spans| > 0 && spans[0] == (from, q) && Spans(text, q + 1, spans[1..]) && IsLiteral(text, from, q)
    ensures Ends(text, from, spans) <==> Ends(text, q + 1, spans[1..])
  {
    assert from < q;
    hide IsLiteral, Within;
    forall p: nat
      ensures Within(p, spans) <==> from <= p <= q || Within(p, spans[1..])
    {
      WithinFirst(p, spans);
    }
  }

  lemma {:induction false} EndsHere(text: string, from: nat, spans: seq<(nat, nat)>)
    requires from < |text| && Spans(text, from + 1, spans)
    ensures Ends(text, from, spans) <==> text[from] == ';' || Ends(text, from + 1, spans)
  {
    assert !Within(from, spans);
  }
}
