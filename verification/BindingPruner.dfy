/** The pruner of op registrations: a line-driven machine that keeps a registration statement exactly when its op
    belongs to a compiled tier, and records what it drops. Which line opens a block, ends a statement or registers which
    op is decided by regular expressions; the proofs hold for every such reading. */
module BindingPruner {
  import opened Wrappers

  /** What a line is at a statement boundary: `}` or `};`, a preprocessor line, empty or a comment, or code. */
  datatype Kind = Closing | Preprocessor | Filler | Code

  datatype Line = Line(text: string, kind: Kind, block: Option<string>, opens: bool)

  /** The `def` or `impl` call of a statement and the op it names. */
  datatype Registration = Registration(isDef: bool, op: string)

  /** The reading of statements: whether the collected lines end one, and what it registers. */
  datatype Reader = Reader(complete: seq<Line> -> bool, registers: seq<Line> -> Option<Registration>,
                           schema: seq<Line> -> string, isProbe: string -> bool)

  datatype Entry = Entry(tier: string, hazards: seq<string>)

  datatype ExcludedOp = ExcludedOp(ns: string, name: string, schema: string, probe: bool, tier: string, reason: string)

  const UNCLAIMED_TIER := "unclaimed"

  // ---------------------------------------------------------------- the structure of a file

  /** The units of a file: a line outside blocks, the head of a block, and inside a block a preprocessor line, a
      statement or the closing line, each with the filler lines in front of it. */
  datatype Item =
    | Plain(line: Line)
    | Head(lines: seq<Line>, ns: string)
    | Directive(filler: seq<Line>, line: Line)
    | Statement(filler: seq<Line>, code: seq<Line>, ns: string)
    | Close(filler: seq<Line>, line: Line)

  function Lines(item: Item): seq<Line>
  {
    match item
    case Plain(line) => [line]
    case Head(lines, _) => lines
    case Directive(filler, line) => filler + [line]
    case Statement(filler, code, _) => filler + code
    case Close(filler, line) => filler + [line]
  }

  function Flatten(items: seq<Item>): seq<Line>
  {
    if |items| == 0 then [] else Lines(items[0]) + Flatten(items[1..])
  }

  function Cons(item: Item, rest: Option<seq<Item>>): Option<seq<Item>>
  {
    match rest
    case None => None
    case Some(items) => Some([item] + items)
  }

  /** How many lines from the start belong to the head of a block: up to and including the first that opens a brace. */
  function HeadLength(lines: seq<Line>): (n: nat)
    ensures n <= |lines| && (|lines| > 0 ==> n > 0)
    ensures forall i :: 0 <= i < n - 1 ==> !lines[i].opens
    ensures n < |lines| ==> n > 0 && lines[n - 1].opens
  {
    if |lines| == 0 then 0
    else if lines[0].opens then 1
    else 1 + HeadLength(lines[1..])
  }

  /** Reading from a line outside all blocks. */
  function ParseFile(lines: seq<Line>, reader: Reader): Option<seq<Item>>
    decreases |lines|
  {
    if |lines| == 0 then Some([])
    else if lines[0].block == None then Cons(Plain(lines[0]), ParseFile(lines[1..], reader))
    else
      var n := HeadLength(lines);
      Cons(Head(lines[..n], lines[0].block.value), ParseBody(lines[n..], lines[0].block.value, [], [], reader))
  }

  /** Reading inside a block, with filler and a started statement at hand. The end of the text is an error here. */
  function ParseBody(lines: seq<Line>, ns: string, filler: seq<Line>, code: seq<Line>,
                     reader: Reader): Option<seq<Item>>
    decreases |lines|
  {
    if |lines| == 0 then None
    else if code == [] && lines[0].kind == Closing then Cons(Close(filler, lines[0]), ParseFile(lines[1..], reader))
    else if code == [] && lines[0].kind == Preprocessor then
      Cons(Directive(filler, lines[0]), ParseBody(lines[1..], ns, [], [], reader))
    else if code == [] && lines[0].kind == Filler then ParseBody(lines[1..], ns, filler + [lines[0]], [], reader)
    else if reader.complete(code + [lines[0]]) then
      Cons(Statement(filler, code + [lines[0]], ns), ParseBody(lines[1..], ns, [], [], reader))
    else ParseBody(lines[1..], ns, filler, code + [lines[0]], reader)
  }

  // ---------------------------------------------------------------- shapes: exactly what parsing yields

  ghost predicate AllFiller(s: seq<Line>)
  {
    forall i :: 0 <= i < |s| ==> s[i].kind == Filler
  }

  /** A statement that has been started and is not complete after any of its lines. */
  ghost predicate Started(code: seq<Line>, reader: Reader)
  {
    && (|code| > 0 ==> code[0].kind == Code)
    && forall i :: 0 < i <= |code| ==> !reader.complete(code[..i])
  }

  ghost predicate IsStatement(code: seq<Line>, reader: Reader)
  {
    |code| > 0 && code[0].kind == Code && Started(code[..|code| - 1], reader) && reader.complete(code)
  }

  ghost predicate IsHead(lines: seq<Line>, ns: string)
  {
    && |lines| > 0 && lines[0].block == Some(ns)
    && lines[|lines| - 1].opens && forall i :: 0 <= i < |lines| - 1 ==> !lines[i].opens
  }

  /** The item can follow outside of blocks, or inside the block of `ns`. */
  ghost predicate Fits(item: Item, block: Option<string>, reader: Reader)
  {
    match item
    case Plain(line) => block == None && line.block == None
    case Head(lines, ns) => block == None && IsHead(lines, ns)
    case Directive(filler, line) => block.Some? && AllFiller(filler) && line.kind == Preprocessor
    case Statement(filler, code, ns) => block == Some(ns) && AllFiller(filler) && IsStatement(code, reader)
    case Close(filler, line) => block.Some? && AllFiller(filler) && line.kind == Closing
  }

  ghost function After(item: Item, block: Option<string>): Option<string>
  {
    match item
    case Head(_, ns) => Some(ns)
    case Close(_, _) => None
    case _ => block
  }

  /** Items in an order that a file can have from inside `block`, up to an end outside all blocks. */
  ghost predicate Shaped(items: seq<Item>, block: Option<string>, reader: Reader)
  {
    if |items| == 0 then block == None
    else Fits(items[0], block, reader) && Shaped(items[1..], After(items[0], block), reader)
  }

  /** Parsing loses no line, and yields shaped items. */
  lemma {:induction false} ParsedFile(lines: seq<Line>, reader: Reader)
    requires ParseFile(lines, reader).Some?
    ensures Shaped(ParseFile(lines, reader).value, None, reader)
    ensures Flatten(ParseFile(lines, reader).value) == lines
    decreases |lines|
  {
    if |lines| > 0 {
      hide Shaped, Flatten, AllFiller, Started;
      ParsedBegin(reader);
      if lines[0].block == None {
        assert [lines[0]] + lines[1..] == lines;
        ParsedFile(lines[1..], reader);
        ShapedCons(Plain(lines[0]), ParseFile(lines[1..], reader).value, None, reader);
      } else {
        var n, ns := HeadLength(lines), lines[0].block.value;
        assert lines[n..] != [];
        ParsedBody(lines[n..], ns, [], [], reader);
        ShapedCons(Item.Head(lines[..n], ns), ParseBody(lines[n..], ns, [], [], reader).value, None, reader);
        assert lines[..n] + ([] + [] + lines[n..]) == lines;
      }
    }
  }

  lemma {:induction false} ParsedBody(lines: seq<Line>, ns: string, filler: seq<Line>, code: seq<Line>, reader: Reader)
    requires ParseBody(lines, ns, filler, code, reader).Some? && AllFiller(filler) && Started(code, reader)
    ensures Shaped(ParseBody(lines, ns, filler, code, reader).value, Some(ns), reader)
    ensures Flatten(ParseBody(lines, ns, filler, code, reader).value) == filler + code + lines
    decreases |lines|
  {
    var line, rest := lines[0], lines[1..];
    Regroup(filler, code, lines);
    hide Shaped, Flatten, AllFiller, Started;
    if code == [] && line.kind == Closing {
      ParsedFile(rest, reader);
      ShapedCons(Close(filler, line), ParseFile(rest, reader).value, Some(ns), reader);
    } else if code == [] && line.kind == Preprocessor {
      ParsedBegin(reader);
      ParsedBody(rest, ns, [], [], reader);
      ShapedCons(Directive(filler, line), ParseBody(rest, ns, [], [], reader).value, Some(ns), reader);
    } else if code == [] && line.kind == Filler {
      FillerExtends(filler, line);
      ParsedBody(rest, ns, filler + [line], [], reader);
    } else if reader.complete(code + [line]) {
      ParsedBegin(reader);
      StatementEnds(code, line, reader);
      ParsedBody(rest, ns, [], [], reader);
      ShapedCons(Statement(filler, code + [line], ns), ParseBody(rest, ns, [], [], reader).value, Some(ns), reader);
    } else {
      StartedExtends(code, line, reader);
      ParsedBody(rest, ns, filler, code + [line], reader);
    }
  }

  lemma {:induction false} ParsedBegin(reader: Reader)
    ensures AllFiller([]) && Started([], reader)
  {
  }

  lemma {:induction false} FillerExtends(filler: seq<Line>, line: Line)
    requires AllFiller(filler) && line.kind == Filler
    ensures AllFiller(filler + [line])
  {
  }

  lemma {:induction false} StatementEnds(code: seq<Line>, line: Line, reader: Reader)
    requires Started(code, reader) && reader.complete(code + [line]) && (code == [] ==> line.kind == Code)
    ensures IsStatement(code + [line], reader)
  {
    assert (code + [line])[..|code|] == code;
  }

  lemma {:induction false} Regroup(filler: seq<Line>, code: seq<Line>, lines: seq<Line>)
    requires |lines| > 0
    ensures filler + code + lines == filler + (code + [lines[0]]) + lines[1..]
    ensures filler + (code + [lines[0]]) + lines[1..] == (filler + (code + [lines[0]])) + ([] + [] + lines[1..])
    ensures code == [] ==> filler + code + lines == (filler + [lines[0]]) + lines[1..]
    ensures code == [] ==> filler + code + lines == (filler + [lines[0]]) + ([] + [] + lines[1..])
    ensures code == [] ==> filler + code + lines == (filler + [lines[0]]) + [] + lines[1..]
  {
  }

  lemma {:induction false} ShapedCons(item: Item, rest: seq<Item>, block: Option<string>, reader: Reader)
    requires Fits(item, block, reader) && Shaped(rest, After(item, block), reader)
    ensures Shaped([item] + rest, block, reader)
    ensures Flatten([item] + rest) == Lines(item) + Flatten(rest)
  {
    assert ([item] + rest)[1..] == rest;
  }

  lemma {:induction false} StartedExtends(code: seq<Line>, line: Line, reader: Reader)
    requires Started(code, reader) && !reader.complete(code + [line])
    requires code == [] ==> line.kind == Code
    ensures Started(code + [line], reader)
  {
    forall i | 0 < i <= |code| + 1
      ensures !reader.complete((code + [line])[..i])
    {
      assert (code + [line])[..i] == if i <= |code| then code[..i] else code + [line];
    }
  }

  /** The inverse: shaped items are what their lines parse to. */
  lemma {:induction false} ShapedParses(items: seq<Item>, block: Option<string>, reader: Reader)
    requires Shaped(items, block, reader)
    ensures block == None ==> ParseFile(Flatten(items), reader) == Some(items)
    ensures block.Some? ==> ParseBody(Flatten(items), block.value, [], [], reader) == Some(items)
    decreases |items|
  {
    if |items| > 0 {
      var item, rest := items[0], items[1..];
      ShapedParses(rest, After(item, block), reader);
      assert items == [item] + rest;
      hide ParseBody, IsStatement;
      match item
      case Plain(line) =>
        assert Flatten(items)[1..] == Flatten(rest);
      case Head(lines, ns) =>
        HeadParses(lines, Flatten(rest));
      case Directive(filler, line) =>
        LineParses(filler, line, Flatten(rest), block.value, reader);
      case Close(filler, line) =>
        LineParses(filler, line, Flatten(rest), block.value, reader);
      case Statement(filler, code, ns) =>
        StatementParses(filler, code, Flatten(rest), ns, reader);
    }
  }

  lemma {:induction false} HeadParses(lines: seq<Line>, rest: seq<Line>)
    requires |lines| > 0 && lines[|lines| - 1].opens && forall i :: 0 <= i < |lines| - 1 ==> !lines[i].opens
    ensures HeadLength(lines + rest) == |lines|
    ensures (lines + rest)[..|lines|] == lines && (lines + rest)[|lines|..] == rest
  {
    if |lines| > 1 {
      HeadParses(lines[1..], rest);
      assert (lines + rest)[1..] == lines[1..] + rest;
    }
  }

  lemma {:induction false} LineParses(filler: seq<Line>, line: Line, rest: seq<Line>, ns: string, reader: Reader)
    requires AllFiller(filler)
    ensures line.kind == Preprocessor ==>
              ParseBody(filler + [line] + rest, ns, [], [], reader)
                == Cons(Directive(filler, line), ParseBody(rest, ns, [], [], reader))
    ensures line.kind == Closing ==>
              ParseBody(filler + [line] + rest, ns, [], [], reader)
                == Cons(Close(filler, line), ParseFile(rest, reader))
  {
    FillerParses(filler, [line] + rest, ns, [], reader);
    assert filler + [line] + rest == filler + ([line] + rest);
    assert [] + filler == filler;
    assert ([line] + rest)[1..] == rest;
  }

  lemma {:induction false} StatementParses(filler: seq<Line>, code: seq<Line>, rest: seq<Line>, ns: string,
                                           reader: Reader)
    requires AllFiller(filler) && IsStatement(code, reader)
    ensures ParseBody(filler + code + rest, ns, [], [], reader)
              == Cons(Statement(filler, code, ns), ParseBody(rest, ns, [], [], reader))
  {
    FillerParses(filler, code + rest, ns, [], reader);
    assert filler + code + rest == filler + (code + rest);
    assert [] + filler == filler && code[0..] == code;
    CodeParses(code, 0, rest, ns, filler, reader);
  }

  /** Filler lines in front are collected. */
  lemma {:induction false} FillerParses(filler: seq<Line>, rest: seq<Line>, ns: string, before: seq<Line>,
                                        reader: Reader)
    requires AllFiller(filler)
    ensures ParseBody(filler + rest, ns, before, [], reader) == ParseBody(rest, ns, before + filler, [], reader)
    decreases |filler|
  {
    if |filler| == 0 {
      assert filler + rest == rest && before + filler == before;
    } else {
      assert (filler + rest)[1..] == filler[1..] + rest;
      FillerParses(filler[1..], rest, ns, before + [filler[0]], reader);
      assert before + [filler[0]] + filler[1..] == before + filler;
    }
  }

  /** The lines of a statement are collected up to the one that completes it. */
  lemma {:induction false} CodeParses(code: seq<Line>, i: nat, rest: seq<Line>, ns: string, filler: seq<Line>,
                                      reader: Reader)
    requires IsStatement(code, reader) && i < |code|
    ensures ParseBody(code[i..] + rest, ns, filler, code[..i], reader)
         == Cons(Statement(filler, code, ns), ParseBody(rest, ns, [], [], reader))
    decreases |code| - i
  {
    var lines := code[i..] + rest;
    assert code[..i] + [lines[0]] == code[..i + 1];
    assert lines[1..] == code[i + 1..] + rest;
    if i + 1 == |code| {
      assert code[..i + 1] == code && code[i + 1..] + rest == rest;
    } else {
      assert code[..|code| - 1][..i + 1] == code[..i + 1];
      CodeParses(code, i + 1, rest, ns, filler, reader);
    }
  }

  // ---------------------------------------------------------------- what is kept and what is recorded

  datatype Policy = Policy(owner: map<string, Entry>, compiled: set<string>, hazards: map<string, string>)
  {
    predicate Compiles(op: string)
    {
      op in owner && owner[op].tier in compiled
    }

    function Described(hazard: string): string
    {
      if hazard in hazards then hazards[hazard] else hazard
    }

    function Reason(op: string): string
    {
      if op !in owner then "not declared in csrc/upstream/manifest.toml"
      else if |owner[op].hazards| == 0 then "no PPU implementation"
      else Joined(owner[op].hazards)
    }

    /** The descriptions, separated by "; ". */
    function Joined(hazards: seq<string>): string
    {
      if |hazards| == 0 then ""
      else if |hazards| == 1 then Described(hazards[0])
      else Described(hazards[0]) + "; " + Joined(hazards[1..])
    }
  }

  predicate Keeps(item: Item, reader: Reader, policy: Policy)
  {
    item.Statement? && reader.registers(item.code).Some? ==> policy.Compiles(reader.registers(item.code).value.op)
  }

  function Keep(items: seq<Item>, reader: Reader, policy: Policy): seq<Item>
  {
    if |items| == 0 then []
    else (if Keeps(items[0], reader, policy) then [items[0]] else []) + Keep(items[1..], reader, policy)
  }

  /** What the pruner remembers over all files, and how many statements it dropped from the last. */
  datatype Ledger = Ledger(excluded: map<(string, string), ExcludedOp>, unclaimed: set<string>, dropped: nat)

  function Excluded(code: seq<Line>, ns: string, op: string, reader: Reader, policy: Policy): ExcludedOp
  {
    ExcludedOp(ns, op, reader.schema(code), reader.isProbe(reader.schema(code)),
               if op in policy.owner then policy.owner[op].tier else UNCLAIMED_TIER, policy.Reason(op))
  }

  function Recorded(l: Ledger, item: Item, reader: Reader, policy: Policy): Ledger
  {
    if Keeps(item, reader, policy) then l
    else
      var call := reader.registers(item.code).value;
      Ledger(if call.isDef then l.excluded[(item.ns, call.op) := Excluded(item.code, item.ns, call.op, reader, policy)]
        else l.excluded,
             if call.op in policy.owner then l.unclaimed else l.unclaimed + {call.op},
             l.dropped + 1)
  }

  function RecordedAll(l: Ledger, items: seq<Item>, reader: Reader, policy: Policy): Ledger
    decreases |items|
  {
    if |items| == 0 then l else RecordedAll(Recorded(l, items[0], reader, policy), items[1..], reader, policy)
  }

  function Append(items: seq<Item>, rest: Option<seq<Item>>): Option<seq<Item>>
  {
    match rest
    case None => None
    case Some(more) => Some(items + more)
  }

  lemma {:induction false} FlattenAppend(a: seq<Item>, b: seq<Item>)
    ensures Flatten(a + b) == Flatten(a) + Flatten(b)
    decreases |a|
  {
    if |a| == 0 {
      assert a + b == b;
    } else {
      assert (a + b)[1..] == a[1..] + b;
      FlattenAppend(a[1..], b);
    }
  }

  lemma {:induction false} KeepAppend(a: seq<Item>, b: seq<Item>, reader: Reader, policy: Policy)
    ensures Keep(a + b, reader, policy) == Keep(a, reader, policy) + Keep(b, reader, policy)
    decreases |a|
  {
    if |a| == 0 {
      assert a + b == b;
    } else {
      assert (a + b)[1..] == a[1..] + b;
      KeepAppend(a[1..], b, reader, policy);
    }
  }

  lemma {:induction false} RecordedAppend(l: Ledger, a: seq<Item>, b: seq<Item>, reader: Reader, policy: Policy)
    ensures RecordedAll(l, a + b, reader, policy) == RecordedAll(RecordedAll(l, a, reader, policy), b, reader, policy)
    decreases |a|
  {
    if |a| == 0 {
      assert a + b == b;
    } else {
      assert (a + b)[1..] == a[1..] + b;
      RecordedAppend(Recorded(l, a[0], reader, policy), a[1..], b, reader, policy);
    }
  }

  // ---------------------------------------------------------------- the pruner

  class Pruner {
    const policy: Policy
    const reader: Reader
    var excluded: map<(string, string), ExcludedOp>
    var unclaimed: set<string>
    var droppedInLastFile: nat

    constructor (policy: Policy, reader: Reader)
      ensures this.policy == policy && this.reader == reader
      ensures State() == Ledger(map[], {}, 0)
    {
      this.policy, this.reader := policy, reader;
      excluded, unclaimed, droppedInLastFile := map[], {}, 0;
    }

    ghost function State(): Ledger
      reads this
    {
      Ledger(excluded, unclaimed, droppedInLastFile)
    }

    /** The output and the records after `items`. */
    ghost predicate Done(items: seq<Item>, out: seq<Line>, out0: seq<Line>, l0: Ledger)
      reads this
    {
      out == out0 + Flatten(Keep(items, reader, policy)) && State() == RecordedAll(l0, items, reader, policy)
    }

    lemma {:induction false} DoneMore(items: seq<Item>, item: Item, out: seq<Line>, out0: seq<Line>, l0: Ledger,
                                      before: Ledger)
      requires out
                 == out0 + Flatten(Keep(items, reader, policy))
                   + (if Keeps(item, reader, policy) then Lines(item) else [])
      requires before == RecordedAll(l0, items, reader, policy)
      requires State() == Recorded(before, item, reader, policy)
      ensures Done(items + [item], out, out0, l0)
    {
      KeepAppend(items, [item], reader, policy);
      RecordedAppend(l0, items, [item], reader, policy);
      FlattenAppend(Keep(items, reader, policy), Keep([item], reader, policy));
      assert Keep([item][1..], reader, policy) == [];
      assert Flatten([item][1..]) == [];
      assert [item][1..] == [];
    }

    /** Emits or drops one complete statement, with the filler attached to it. */
    method Settle(out: seq<Line>, pending: seq<Line>, statement: seq<Line>, ns: string) returns (out': seq<Line>)
      modifies this
      ensures var item := Statement(pending, statement, ns);
              && out' == out + (if Keeps(item, reader, policy) then Lines(item) else [])
              && State() == Recorded(old(State()), item, reader, policy)
    {
      var call := reader.registers(statement);
      if call == None {
        return out + pending + statement;
      }
      var name := call.value.op;
      if name in policy.owner && policy.owner[name].tier in policy.compiled {
        return out + pending + statement;
      }
      if name !in policy.owner {
        unclaimed := unclaimed + {name};
      }
      droppedInLastFile := droppedInLastFile + 1;
      if call.value.isDef {
        var schema := reader.schema(statement);
        excluded := excluded[(ns, name) :=
          ExcludedOp(ns, name, schema, reader.isProbe(schema),
                     if name in policy.owner then policy.owner[name].tier else UNCLAIMED_TIER, policy.Reason(name))];
      }
      out' := out;
    }

    /** The rest of a registration block from line `start` on, up to its closing line. */
    method Body(lines: seq<Line>, start: nat, out0: seq<Line>, ns: string)
        returns (r: Result<(nat, seq<Line>)>, ghost items: seq<Item>)
      requires start <= |lines|
      modifies this
      ensures r.Err? ==> ParseBody(lines[start..], ns, [], [], reader) == None
      ensures r.Ok? ==> start < r.value.0 <= |lines|
      ensures r.Ok? ==>
                ParseBody(lines[start..], ns, [], [], reader) == Append(items, ParseFile(lines[r.value.0..], reader))
      ensures r.Ok? ==> Done(items, r.value.1, out0, old(State()))
    {
      var index, out := start, out0;
      var pending: seq<Line>, statement: seq<Line> := [], [];
      items := [];
      ghost var l0 := State();
      AppendNothing(ParseBody(lines[start..], ns, [], [], reader));
      while index < |lines|
        invariant start <= index <= |lines|
        invariant Done(items, out, out0, l0)
        invariant ParseBody(lines[start..], ns, [], [], reader)
               == Append(items, ParseBody(lines[index..], ns, pending, statement, reader))
      {
        var line := lines[index];
        assert lines[index..][1..] == lines[index + 1..];
        index := index + 1;
        ghost var before := State();
        if statement != [] {
          statement := statement + [line];
        } else if line.kind == Closing {
          out := out + pending + [line];
          AppendOne(items, Close(pending, line), ParseFile(lines[index..], reader));
          DoneMore(items, Close(pending, line), out, out0, l0, before);
          items := items + [Close(pending, line)];
          return Ok((index, out)), items;
        } else if line.kind == Preprocessor {
          out := out + pending + [line];
          AppendOne(items, Directive(pending, line), ParseBody(lines[index..], ns, [], [], reader));
          DoneMore(items, Directive(pending, line), out, out0, l0, before);
          items := items + [Directive(pending, line)];
          pending := [];
          continue;
        } else if line.kind == Filler {
          pending := pending + [line];
          continue;
        } else {
          statement := [line];
          assert [] + [line] == statement;
        }
        if reader.complete(statement) {
          ghost var item := Statement(pending, statement, ns);
          out := Settle(out, pending, statement, ns);
          AppendOne(items, item, ParseBody(lines[index..], ns, [], [], reader));
          DoneMore(items, item, out, out0, l0, before);
          items := items + [item];
          pending, statement := [], [];
        }
      }
      r := Err(PortError("unterminated " + ns + " registration block"));
    }

    lemma {:induction false} AppendOne(items: seq<Item>, item: Item, rest: Option<seq<Item>>)
      ensures Append(items, Cons(item, rest)) == Append(items + [item], rest)
    {
      if rest.Some? {
        assert items + ([item] + rest.value) == items + [item] + rest.value;
      }
    }

    lemma {:induction false} AppendNothing(rest: Option<seq<Item>>)
      ensures Append([], rest) == rest
    {
      if rest.Some? {
        assert [] + rest.value == rest.value;
      }
    }

    lemma {:induction false} AppendTwice(a: seq<Item>, b: seq<Item>, rest: Option<seq<Item>>)
      ensures Append(a, Append(b, rest)) == Append(a + b, rest)
    {
      if rest.Some? {
        assert a + (b + rest.value) == a + b + rest.value;
      }
    }

    lemma {:induction false} DoneTwice(a: seq<Item>, b: seq<Item>, mid: seq<Line>, out: seq<Line>, out0: seq<Line>,
                                       l0: Ledger, before: Ledger)
      requires mid == out0 + Flatten(Keep(a, reader, policy)) && before == RecordedAll(l0, a, reader, policy)
      requires Done(b, out, mid, before)
      ensures Done(a + b, out, out0, l0)
    {
      hide Keep, Flatten, RecordedAll;
      KeepAppend(a, b, reader, policy);
      RecordedAppend(l0, a, b, reader, policy);
      FlattenAppend(Keep(a, reader, policy), Keep(b, reader, policy));
    }

    /** The head of a block: all lines up to the one that opens the brace. */
    method Head(lines: seq<Line>, start: nat, out0: seq<Line>) returns (index: nat, out: seq<Line>)
      requires start < |lines|
      ensures index == start + HeadLength(lines[start..]) <= |lines|
      ensures out == out0 + lines[start..index]
    {
      index, out := start, out0;
      while index < |lines|
        invariant start <= index <= |lines| && out == out0 + lines[start..index]
        invariant HeadLength(lines[start..]) == index - start + HeadLength(lines[index..])
      {
        out := out + [lines[index]];
        var opens := lines[index].opens;
        assert lines[index..][1..] == lines[index + 1..];
        assert lines[start..index + 1] == lines[start..index] + [lines[index]];
        index := index + 1;
        if opens {
          return;
        }
      }
    }

    /** A whole block from its first line on. */
    method Block(lines: seq<Line>, start: nat, out0: seq<Line>)
        returns (r: Result<(nat, seq<Line>)>, ghost items: seq<Item>)
      requires start < |lines| && lines[start].block.Some?
      modifies this
      ensures r.Err? ==> ParseFile(lines[start..], reader) == None
      ensures r.Ok? ==> start < r.value.0 <= |lines|
      ensures r.Ok? ==> ParseFile(lines[start..], reader) == Append(items, ParseFile(lines[r.value.0..], reader))
      ensures r.Ok? ==> Done(items, r.value.1, out0, old(State()))
    {
      var ns := lines[start].block.value;
      ghost var l0 := State();
      var next, mid := Head(lines, start, out0);
      ghost var head := Item.Head(lines[start..next], ns);
      assert lines[start..][..next - start] == lines[start..next];
      assert lines[start..][next - start..] == lines[next..];
      OnlyHead(head, mid, out0, l0);
      r, items := Body(lines, next, mid, ns);
      if r.Ok? {
        DoneTwice([head], items, mid, r.value.1, out0, l0, l0);
        AppendTwice([head], items, ParseFile(lines[r.value.0..], reader));
        items := [head] + items;
      }
    }

    lemma {:induction false} OnlyHead(head: Item, mid: seq<Line>, out0: seq<Line>, l0: Ledger)
      requires head.Head? && mid == out0 + head.lines
      ensures mid == out0 + Flatten(Keep([head], reader, policy)) && l0 == RecordedAll(l0, [head], reader, policy)
    {
      assert [head][1..] == [];
      assert Keep([head], reader, policy) == [head];
      assert Flatten([head]) == head.lines;
    }

    /** One file: the lines of the units that are kept, or an error when a block does not end. */
    method Prune(lines: seq<Line>) returns (r: Result<seq<Line>>)
      modifies this
      ensures r.Ok? <==> ParseFile(lines, reader).Some?
      ensures r.Ok? ==> r.value == Flatten(Keep(ParseFile(lines, reader).value, reader, policy))
      ensures r.Ok? ==>
                State() == RecordedAll(old(State()).(dropped := 0), ParseFile(lines, reader).value, reader, policy)
    {
      droppedInLastFile := 0;
      ghost var l0 := State();
      var out: seq<Line>, index := [], 0;
      ghost var items: seq<Item> := [];
      assert lines[0..] == lines;
      AppendNothing(ParseFile(lines, reader));
      while index < |lines|
        invariant index <= |lines|
        invariant Done(items, out, [], l0)
        invariant ParseFile(lines, reader) == Append(items, ParseFile(lines[index..], reader))
      {
        ghost var before := State();
        if lines[index].block == None {
          out := out + [lines[index]];
          assert lines[index..][1..] == lines[index + 1..];
          AppendOne(items, Plain(lines[index]), ParseFile(lines[index + 1..], reader));
          DoneMore(items, Plain(lines[index]), out, [], l0, before);
          items := items + [Plain(lines[index])];
          index := index + 1;
          continue;
        }
        var after;
        ghost var inside;
        ghost var mid := out;
        after, inside := Block(lines, index, out);
        if after.Err? {
          return Err(after.error);
        }
        DoneTwice(items, inside, mid, after.value.1, [], l0, before);
        AppendTwice(items, inside, ParseFile(lines[after.value.0..], reader));
        items := items + inside;
        index, out := after.value.0, after.value.1;
      }
      assert lines[index..] == [];
      assert items + [] == items;
      assert [] + Flatten(Keep(items, reader, policy)) == Flatten(Keep(items, reader, policy));
      r := Ok(out);
    }
  }
}
