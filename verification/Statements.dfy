/** How the pruner reads a registration statement: string literals are skipped when looking for its end, and supply the
    schema and the name of the op. */
module Statements {
  import opened Wrappers
  import opened BindingPruner
  import opened StringLiterals
  import opened Texts

  // ---------------------------------------------------------------- the end of a statement

  /** _complete. */
  predicate Complete(text: string)
  {
    ';' in Blanked(text)
  }

  /** That is: some semicolon stands outside the literals of the text, wherever those are. */
  lemma {:induction false} CompleteByPosition(text: string, spans: seq<(nat, nat)>)
    requires Spans(text, 0, spans)
    ensures Complete(text) <==> Ends(text, 0, spans)
    ensures Between(Literals(text), text, spans)
  {
    assert text[0..] == text;
    ReadBySpans(text, 0, spans);
  }

  ghost predicate HasSemicolonOutside(text: string)
  {
    exists spans :: Spans(text, 0, spans) && Ends(text, 0, spans)
  }

  lemma {:induction false} CompleteExactly(text: string)
    ensures Complete(text) <==> HasSemicolonOutside(text)
  {
    var spans := SpansExist(text, 0);
    CompleteByPosition(text, spans);
    hide Spans, Ends, Complete;
    if other :| Spans(text, 0, other) && Ends(text, 0, other) {
      CompleteByPosition(text, other);
    }
  }

  function Text(lines: seq<Line>): string
  {
    if |lines| == 0 then "" else Text(lines[..|lines| - 1]) + lines[|lines| - 1].text
  }

  lemma {:induction false} TextSplits(a: seq<Line>, b: seq<Line>)
    ensures Text(a + b) == Text(a) + Text(b)
    ensures |a| == 1 ==> Text(a) == a[0].text
    decreases |b|
  {
    if |b| == 0 {
      assert a + b == a;
    } else {
      var n := |b| - 1;
      assert (a + b)[..|a + b| - 1] == a + b[..n];
      TextSplits(a, b[..n]);
    }
  }

  /** When no literal spans lines, a statement is complete once one of its lines has a semicolon outside literals. */
  lemma {:induction false} CompleteByLine(lines: seq<Line>)
    requires forall i :: 0 <= i < |lines| ==> Balanced(lines[i].text)
    ensures Balanced(Text(lines))
    ensures Complete(Text(lines)) <==> exists i :: 0 <= i < |lines| && Complete(lines[i].text)
    decreases |lines|
  {
    if |lines| > 0 {
      var n := |lines| - 1;
      CompleteByLine(lines[..n]);
      CompleteSplits(Text(lines[..n]), lines[n].text);
      assert Text(lines) == Text(lines[..n]) + lines[n].text;
      hide Complete, Balanced, Text;
      if i :| 0 <= i < |lines| && Complete(lines[i].text) {
        assert i < n ==> lines[..n][i] == lines[i];
      }
      if i :| 0 <= i < n && Complete(lines[..n][i].text) {
        assert Complete(lines[i].text);
      }
    }
  }

  lemma {:induction false} CompleteSplits(a: string, b: string)
    requires Balanced(a)
    ensures Complete(a + b) <==> Complete(a) || Complete(b)
    ensures Balanced(b) ==> Balanced(a + b)
  {
    BalancedSplits(a, b);
  }

  // ---------------------------------------------------------------- names and schemas

  /** _op_name: the leading identifier of all literals together for a `def`, of the first one for an `impl`. */
  function OpName(text: string, isDef: bool): Option<string>
  {
    var literals := Literals(text);
    if |literals| == 0 then None
    else
      var joined := Strip(if isDef then Concat(literals) else literals[0]);
      if |joined| > 0 && IsWordStart(joined[0]) then Some(NamePrefix(joined)) else None
  }

  /** A statement registers `name` exactly when it has a literal, and the stripped text of all its literals for a `def`,
      of its first for an `impl`, starts with the identifier `name`. It registers nothing when no name does. */
  lemma {:induction false} NameExactly(text: string, isDef: bool, name: string, spans: seq<(nat, nat)>, s: string)
    requires Spans(text, 0, spans)
    requires |spans| > 0 ==>
               Stripped(if isDef then Concat(Literals(text)) else text[spans[0].0 + 1..spans[0].1], s)
    ensures OpName(text, isDef) == Some(name) <==> |spans| > 0 && LeadingName(name, s)
  {
    CompleteByPosition(text, spans);
    if |spans| > 0 {
      var joined := if isDef then Concat(Literals(text)) else text[spans[0].0 + 1..spans[0].1];
      hide Stripped, Spans, Literals, Concat, Strip, NamePrefix, LeadingName, Complete, Ends;
      NameFrom(text, isDef, joined, name);
      StripExactly(joined, s);
      LeadingNameExactly(s, name);
    }
  }

  lemma {:induction false} NameFrom(text: string, isDef: bool, joined: string, name: string)
    requires |Literals(text)| > 0 && joined == if isDef then Concat(Literals(text)) else Literals(text)[0]
    ensures OpName(text, isDef) == Some(name) <==>
              |Strip(joined)| > 0 && IsWordStart(Strip(joined)[0]) && NamePrefix(Strip(joined)) == name
  {
    hide Literals, Concat, Strip, NamePrefix;
  }

  /** _schema. */
  function Schema(text: string): string
  {
    Strip(Concat(Literals(text)))
  }

  /** The name of a definition is the identifier that its schema starts with, all of it, and a schema that starts with
      none is of a definition without a name. */
  lemma {:induction false} NameStartsSchema(text: string, name: string)
    ensures OpName(text, true) == Some(name) <==> LeadingName(name, Schema(text))
  {
    LeadingNameExactly(Schema(text), name);
    if |Literals(text)| > 0 {
      NameFrom(text, true, Concat(Literals(text)), name);
    }
    hide Literals, Strip, NamePrefix, LeadingName;
  }

  /** _is_probe: a query that takes no tensor and answers a bool. */
  predicate IsProbe(schema: string)
  {
    Strip(Partition(schema).1) == "bool" && !Contains(Partition(schema).0, "Tensor")
  }

  /** What follows the first arrow is `bool`, and `Tensor` does not stand in front of it. */
  ghost predicate ProbeAt(schema: string, p: nat)
  {
    FirstArrow(schema, p) && Stripped(schema[p + 2..], "bool") && forall i: nat :: !StandsAt(schema[..p], "Tensor", i)
  }

  lemma {:induction false} ProbeExactly(schema: string)
    ensures IsProbe(schema) <==> exists p: nat :: ProbeAt(schema, p)
  {
    if p: nat :| StandsAt(schema, "->", p) {
      var q := EarliestArrow(schema, p);
      PartitionAt(schema, q);
      StripExactly(schema[q + 2..], "bool");
      ContainsExactly(schema[..q], "Tensor");
      hide Partition, Contains, Stripped, Strip, StandsAt;
      assert IsProbe(schema) <==> ProbeAt(schema, q);
      forall p: nat | ProbeAt(schema, p)
        ensures p == q
      {
      }
    } else {
      NoPartition(schema);
      assert Strip("") == "";
    }
  }

  /** The reading of the pruner; `call` finds the `def` or `impl` call of a statement and tells which it is. */
  function TextReader(call: string -> Option<bool>): Reader
  {
    Reader(lines => Complete(Text(lines)),
           lines => match call(Text(lines))
                    case None => None
                    case Some(isDef) => (match OpName(Text(lines),
                      isDef) case None => None case Some(op) => Some(Registration(isDef, op))),
           lines => Schema(Text(lines)),
           IsProbe)
  }

  /** With this reading a statement starts with a code line and ends with the first line up to which the text has a
      semicolon outside its literals. */
  lemma {:induction false} StatementExactly(code: seq<Line>, call: string -> Option<bool>)
    ensures IsStatement(code, TextReader(call)) <==>
              && |code| > 0 && code[0].kind == Code
              && forall n :: 0 < n <= |code| ==> (HasSemicolonOutside(Text(code[..n])) <==> n == |code|)
  {
    var reader := TextReader(call);
    hide Complete, Text, HasSemicolonOutside;
    assert code[..|code|] == code;
    forall n | 0 < n <= |code|
      ensures reader.complete(code[..n]) <==> HasSemicolonOutside(Text(code[..n]))
    {
      assert reader.complete(code[..n]) == Complete(Text(code[..n]));
      CompleteExactly(Text(code[..n]));
    }
    if |code| > 0 {
      var front := code[..|code| - 1];
      assert forall n :: 0 < n <= |front| ==> front[..n] == code[..n];
    }
  }

  lemma {:induction false} EndsAtLast(code: seq<Line>, call: string -> Option<bool>)
    requires IsStatement(code, TextReader(call))
    ensures |code| > 0 && Complete(Text(code)) && (|code| > 1 ==> !Complete(Text(code[..|code| - 1])))
  {
    hide Complete, Text;
    var n, reader := |code| - 1, TextReader(call);
    assert reader.complete(code) == Complete(Text(code));
    if n > 0 {
      assert code[..n][..n] == code[..n];
      assert reader.complete(code[..n][..n]) == Complete(Text(code[..n]));
    }
  }

  /** In a file whose literals stay within their lines, every statement ends at its first line with a semicolon outside
      literals. */
  lemma {:induction false} StatementEndsAtSemicolon(code: seq<Line>, call: string -> Option<bool>)
    requires IsStatement(code, TextReader(call)) && forall i :: 0 <= i < |code| ==> Balanced(code[i].text)
    ensures forall i :: 0 <= i < |code| ==> (Complete(code[i].text) <==> i == |code| - 1)
  {
    hide Complete, Text, Balanced;
    var n := |code| - 1;
    EndsAtLast(code, call);
    CompleteByLine(code);
    if n > 0 {
      CompleteByLine(code[..n]);
    }
    forall i | 0 <= i < n
      ensures !Complete(code[i].text)
    {
      assert code[..n][i] == code[i];
    }
  }

  // ---------------------------------------------------------------- what the pruner does with such a reading

  /** With this reading a registration is kept exactly when the op it names, if any, is owned by a compiled tier. */
  lemma {:induction false} KeptByName(item: Item, call: string -> Option<bool>, policy: Policy, isDef: bool,
                                      spans: seq<(nat, nat)>, s: string)
    requires item.Statement? && call(Text(item.code)) == Some(isDef)
    requires Spans(Text(item.code), 0, spans)
    requires |spans| > 0 ==>
               Stripped(if isDef then Concat(Literals(Text(item.code)))
                        else Text(item.code)[spans[0].0 + 1..spans[0].1], s)
    ensures Keeps(item, TextReader(call), policy) <==>
              forall name :: |spans| > 0 && LeadingName(name, s) ==>
                name in policy.owner && policy.owner[name].tier in policy.compiled
  {
    var text := Text(item.code);
    var reader := TextReader(call);
    assert reader.registers(item.code) == match OpName(text, isDef)
                                          case None => None
                                          case Some(op) => Some(Registration(isDef, op));
    hide Spans, Stripped, Literals, Concat, Text, OpName;
    forall name
      ensures OpName(text, isDef) == Some(name) <==> |spans| > 0 && LeadingName(name, s)
    {
      NameExactly(text, isDef, name, spans, s);
    }
    hide LeadingName;
    if OpName(text, isDef).Some? {
      assert LeadingName(OpName(text, isDef).value, s);
    }
  }

  /** The entry of a dropped definition: its schema is the stripped text of all literals, and it is a probe exactly when
      that schema has an arrow with `bool` behind it and no `Tensor` in front. */
  lemma {:induction false} EntryExactly(code: seq<Line>, ns: string, op: string, call: string -> Option<bool>,
                                        policy: Policy)
    ensures var entry := Excluded(code, ns, op, TextReader(call), policy);
            && entry.ns == ns && entry.name == op
            && Stripped(Concat(Literals(Text(code))), entry.schema)
            && (entry.probe <==> exists p: nat :: ProbeAt(entry.schema, p))
            && entry.tier == (if op in policy.owner then policy.owner[op].tier else "unclaimed")
  {
    var schema := Schema(Text(code));
    assert TextReader(call).schema(code) == schema && TextReader(call).isProbe(schema) == IsProbe(schema);
    StripExactly(Concat(Literals(Text(code))), schema);
    ProbeExactly(schema);
  }

  /** A call that is no `def` or `impl` is kept. */
  lemma {:induction false} OtherCallsKept(item: Item, call: string -> Option<bool>, policy: Policy)
    requires item.Statement? && call(Text(item.code)) == None
    ensures Keeps(item, TextReader(call), policy)
  {
    assert TextReader(call).registers(item.code) == None;
  }
}
