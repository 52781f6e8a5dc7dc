/** What pruning a file of op registrations guarantees. */
module PrunedBindings {
  import opened Wrappers
  import opened BindingPruner

  /** `a` results from `b` by leaving lines out. */
  ghost predicate Subsequence(a: seq<Line>, b: seq<Line>)
    decreases |b|
  {
    if |a| == 0 then true
    else |b| > 0 && ((a[0] == b[0] && Subsequence(a[1..], b[1..])) || Subsequence(a, b[1..]))
  }

  lemma {:induction false} SubsequenceBehind(x: seq<Line>, a: seq<Line>, b: seq<Line>)
    requires Subsequence(a, b)
    ensures Subsequence(x + a, x + b) && Subsequence(a, x + b)
    decreases |x|
  {
    if |x| == 0 {
      assert x + a == a && x + b == b;
    } else {
      SubsequenceBehind(x[1..], a, b);
      assert (x + a)[1..] == x[1..] + a && (x + b)[1..] == x[1..] + b;
    }
  }

  /** The output leaves lines out and changes none. */
  lemma {:induction false} PrunedIsSubsequence(items: seq<Item>, reader: Reader, policy: Policy)
    ensures Subsequence(Flatten(Keep(items, reader, policy)), Flatten(items))
    decreases |items|
  {
    if |items| > 0 {
      PrunedIsSubsequence(items[1..], reader, policy);
      SubsequenceBehind(Lines(items[0]), Flatten(Keep(items[1..], reader, policy)), Flatten(items[1..]));
      if Keeps(items[0], reader, policy) {
        assert Keep(items, reader, policy)[1..] == Keep(items[1..], reader, policy);
      } else {
        assert Keep(items, reader, policy) == Keep(items[1..], reader, policy);
      }
    }
  }

  /** The op has an owner, and the owner's tier is compiled. */
  ghost predicate IsCompiled(op: string, policy: Policy)
  {
    exists entry :: op in policy.owner && entry == policy.owner[op] && entry.tier in policy.compiled
  }

  /** What must survive: all lines outside statements, statements that register nothing, and registrations of compiled
      ops. */
  ghost predicate MustStay(item: Item, reader: Reader, policy: Policy)
  {
    match item
    case Statement(_, code, _) =>
      forall isDef, op :: reader.registers(code) == Some(Registration(isDef, op)) ==> IsCompiled(op, policy)
    case _ => true
  }

  lemma {:induction false} KeepsMustStay(item: Item, reader: Reader, policy: Policy)
    ensures Keeps(item, reader, policy) <==> MustStay(item, reader, policy)
  {
    if item.Statement? && reader.registers(item.code).Some? {
      var call := reader.registers(item.code).value;
      assert call == Registration(call.isDef, call.op);
      assert IsCompiled(call.op, policy) <==> policy.Compiles(call.op);
    }
  }

  /** `at` lists, in order and each once, the positions of the units that must stay. */
  ghost predicate KeptPositions(items: seq<Item>, at: seq<nat>, reader: Reader, policy: Policy)
  {
    && (forall i, j :: 0 <= i < j < |at| ==> at[i] < at[j])
    && (forall j :: 0 <= j < |at| ==> at[j] < |items| && MustStay(items[at[j]], reader, policy))
    && (forall i :: 0 <= i < |items| && MustStay(items[i], reader, policy) ==> i in at)
  }

  /** Exactly the units at these positions survive, in their order and as often as they occur. */
  lemma {:induction false} KeptExactly(items: seq<Item>, reader: Reader, policy: Policy) returns (at: seq<nat>)
    ensures KeptPositions(items, at, reader, policy)
    ensures |Keep(items, reader, policy)| == |at|
    ensures forall j :: 0 <= j < |at| ==> Keep(items, reader, policy)[j] == items[at[j]]
    decreases |items|
  {
    at := [];
    if |items| > 0 {
      var n := |items| - 1;
      at := KeptExactly(items[..n], reader, policy);
      LastKept(items, reader, policy);
      KeepsMustStay(items[n], reader, policy);
      hide Keep, Keeps, MustStay;
      if Keeps(items[n], reader, policy) {
        at := at + [n];
      }
      assert forall i :: 0 <= i < n ==> items[..n][i] == items[i];
    }
  }

  lemma {:induction false} LastKept(items: seq<Item>, reader: Reader, policy: Policy)
    requires |items| > 0
    ensures var n := |items| - 1;
            Keep(items, reader, policy)
            == Keep(items[..n], reader, policy) + if Keeps(items[n], reader, policy) then [items[n]] else []
  {
    var n := |items| - 1;
    assert items == items[..n] + [items[n]];
    KeepAppend(items[..n], [items[n]], reader, policy);
    assert [items[n]][1..] == [];
  }

  lemma {:induction false} KeepShaped(items: seq<Item>, block: Option<string>, reader: Reader, policy: Policy)
    requires Shaped(items, block, reader)
    ensures Shaped(Keep(items, reader, policy), block, reader)
    decreases |items|
  {
    if |items| > 0 {
      KeepShaped(items[1..], After(items[0], block), reader, policy);
      if Keeps(items[0], reader, policy) {
        assert Keep(items, reader, policy)[1..] == Keep(items[1..], reader, policy);
      } else {
        assert Keep(items, reader, policy) == Keep(items[1..], reader, policy);
      }
    }
  }

  lemma {:induction false} KeepTwice(items: seq<Item>, l: Ledger, reader: Reader, policy: Policy)
    ensures Keep(Keep(items, reader, policy), reader, policy) == Keep(items, reader, policy)
    ensures RecordedAll(l, Keep(items, reader, policy), reader, policy) == l
    decreases |items|
  {
    if |items| > 0 {
      KeepTwice(items[1..], l, reader, policy);
      if Keeps(items[0], reader, policy) {
        assert Keep(items, reader, policy)[1..] == Keep(items[1..], reader, policy);
      } else {
        assert Keep(items, reader, policy) == Keep(items[1..], reader, policy);
      }
    }
  }

  /** Pruning the output again accepts it, keeps all of it, and records nothing. */
  lemma {:induction false} PruningTwice(lines: seq<Line>, reader: Reader, policy: Policy, l: Ledger)
    requires ParseFile(lines, reader).Some?
    ensures var items := ParseFile(lines, reader).value;
            var again := ParseFile(Flatten(Keep(items, reader, policy)), reader);
            && again == Some(Keep(items, reader, policy))
            && Flatten(Keep(again.value, reader, policy)) == Flatten(Keep(items, reader, policy))
            && RecordedAll(l, again.value, reader, policy) == l
  {
    var items := ParseFile(lines, reader).value;
    ParsedFile(lines, reader);
    KeepShaped(items, None, reader, policy);
    ShapedParses(Keep(items, reader, policy), None, reader);
    KeepTwice(items, l, reader, policy);
  }

  // ---------------------------------------------------------------- the table of excluded ops

  /** A dropped `def` of `op` in the block of `ns`. */
  predicate DropsDef(item: Item, ns: string, op: string, reader: Reader, policy: Policy)
  {
    item.Statement? && item.ns == ns && reader.registers(item.code) == Some(Registration(true, op))
      && !(op in policy.owner && policy.owner[op].tier in policy.compiled)
  }

  /** A dropped registration of `op`, which no manifest entry owns. */
  predicate DropsUnowned(item: Item, op: string, reader: Reader, policy: Policy)
  {
    item.Statement? && reader.registers(item.code).Some? && reader.registers(item.code).value.op == op
      && op !in policy.owner
  }

  /** The table gains exactly the dropped definitions, the report exactly the unowned ops, and the count the number of
      dropped statements. */
  lemma {:induction false} RecordedExactly(l: Ledger, items: seq<Item>, reader: Reader, policy: Policy, ns: string,
                                           op: string)
    ensures var after := RecordedAll(l, items, reader, policy);
            && ((ns, op) in after.excluded
                <==> (ns, op) in l.excluded || exists item :: item in items && DropsDef(item, ns, op, reader, policy))
            && (op in after.unclaimed
                <==> op in l.unclaimed || exists item :: item in items && DropsUnowned(item, op, reader, policy))
            && after.dropped == l.dropped + |items| - |Keep(items, reader, policy)|
    decreases |items|
  {
    if |items| > 0 {
      var item, rest := items[0], items[1..];
      assert items == [item] + rest;
      RecordedExactly(Recorded(l, item, reader, policy), rest, reader, policy, ns, op);
      assert forall x :: x in items <==> x == item || x in rest;
      RecordedOne(l, item, reader, policy, ns, op);
      assert item in items;
    }
  }

  lemma {:induction false} RecordedOne(l: Ledger, item: Item, reader: Reader, policy: Policy, ns: string, op: string)
    ensures var after := Recorded(l, item, reader, policy);
            && ((ns, op) in after.excluded <==> (ns, op) in l.excluded || DropsDef(item, ns, op, reader, policy))
            && (op in after.unclaimed <==> op in l.unclaimed || DropsUnowned(item, op, reader, policy))
            && after.dropped == l.dropped + if Keeps(item, reader, policy) then 0 else 1
  {
    if !Keeps(item, reader, policy) {
      var call := reader.registers(item.code).value;
      assert call == Registration(call.isDef, call.op);
    }
  }

  /** The descriptions of the hazards in order with `; ` between them. */
  ghost function Descriptions(hazards: seq<string>, policy: Policy): string
    requires |hazards| > 0
  {
    var last := hazards[|hazards| - 1];
    (if |hazards| == 1 then "" else Descriptions(hazards[..|hazards| - 1], policy) + "; ")
    + if last in policy.hazards then policy.hazards[last] else last
  }

  lemma {:induction false} JoinedInOrder(hazards: seq<string>, policy: Policy)
    requires |hazards| > 0
    ensures policy.Joined(hazards) == Descriptions(hazards, policy)
    decreases |hazards|
  {
    if |hazards| > 1 {
      var n := |hazards| - 1;
      JoinedInOrder(hazards[..n], policy);
      JoinedLast(hazards, policy);
    }
  }

  lemma {:induction false} JoinedLast(hazards: seq<string>, policy: Policy)
    requires |hazards| > 1
    ensures policy.Joined(hazards)
         == policy.Joined(hazards[..|hazards| - 1]) + "; " + policy.Described(hazards[|hazards| - 1])
    decreases |hazards|
  {
    var n := |hazards| - 1;
    assert hazards[..n][1..] == hazards[1..][..n - 1] && hazards[..n][0] == hazards[0];
    if n > 1 {
      JoinedLast(hazards[1..], policy);
      assert policy.Joined(hazards[..n]) == policy.Described(hazards[0]) + "; " + policy.Joined(hazards[1..][..n - 1]);
    }
  }

  /** Why an op was dropped: nobody declares it, its owner names hazards, or it has no implementation. */
  ghost predicate Explains(reason: string, op: string, policy: Policy)
  {
    if op !in policy.owner then reason == "not declared in csrc/upstream/manifest.toml"
    else if policy.owner[op].hazards == [] then reason == "no PPU implementation"
    else reason == Descriptions(policy.owner[op].hazards, policy)
  }

  lemma {:induction false} ReasonExplains(op: string, policy: Policy)
    ensures Explains(policy.Reason(op), op, policy)
  {
    if op in policy.owner && policy.owner[op].hazards != [] {
      JoinedInOrder(policy.owner[op].hazards, policy);
    }
  }

  /** No compiled op is in the table, and every entry describes its key: the owner's tier, and a schema of that op's
      statement. */
  ghost predicate Sound(l: Ledger, policy: Policy)
  {
    && (forall key :: key in l.excluded ==>
          && !IsCompiled(key.1, policy)
          && l.excluded[key].ns == key.0 && l.excluded[key].name == key.1
          && l.excluded[key].tier == (if key.1 in policy.owner then policy.owner[key.1].tier else "unclaimed")
          && Explains(l.excluded[key].reason, key.1, policy))
    && (forall op :: op in l.unclaimed ==> op !in policy.owner)
  }

  /** The table stays sound over every file, and entries for other ops stay as they are. */
  lemma {:induction false} RecordsStaySound(l: Ledger, items: seq<Item>, reader: Reader, policy: Policy)
    requires Sound(l, policy)
    ensures Sound(RecordedAll(l, items, reader, policy), policy)
    decreases |items|
  {
    if |items| > 0 {
      RecordedSound(l, items[0], reader, policy);
      hide Sound;
      RecordsStaySound(Recorded(l, items[0], reader, policy), items[1..], reader, policy);
    }
  }

  lemma {:induction false} RecordedSound(l: Ledger, item: Item, reader: Reader, policy: Policy)
    requires Sound(l, policy)
    ensures Sound(Recorded(l, item, reader, policy), policy)
  {
    if !Keeps(item, reader, policy) {
      var op := reader.registers(item.code).value.op;
      ReasonExplains(op, policy);
      hide Policy.Reason, Explains;
    }
  }

  /** The last dropped definition of an op decides its entry. */
  lemma {:induction false} LastDefinitionWins(l: Ledger, before: seq<Item>, item: Item, after: seq<Item>,
                                              reader: Reader, policy: Policy,
                                              ns: string, op: string)
    requires DropsDef(item, ns, op, reader, policy)
    requires forall x :: x in after ==> !DropsDef(x, ns, op, reader, policy)
    ensures (ns, op) in RecordedAll(l, before + [item] + after, reader, policy).excluded
    ensures var entry := RecordedAll(l, before + [item] + after, reader, policy).excluded[(ns, op)];
            entry == Excluded(item.code, ns, op, reader, policy)
            && entry.schema == reader.schema(item.code) && entry.probe == reader.isProbe(entry.schema)
  {
    RecordedAppend(l, before + [item], after, reader, policy);
    RecordedAppend(l, before, [item], reader, policy);
    var l' := RecordedAll(l, before, reader, policy);
    assert [item][1..] == [];
    assert RecordedAll(l', [item], reader, policy) == Recorded(l', item, reader, policy);
    OthersKeep(Recorded(l', item, reader, policy), after, reader, policy, ns, op);
  }

  lemma {:induction false} OthersKeep(l: Ledger, items: seq<Item>, reader: Reader, policy: Policy, ns: string,
                                      op: string)
    requires (ns, op) in l.excluded && forall x :: x in items ==> !DropsDef(x, ns, op, reader, policy)
    ensures (ns, op) in RecordedAll(l, items, reader, policy).excluded
    ensures RecordedAll(l, items, reader, policy).excluded[(ns, op)] == l.excluded[(ns, op)]
    decreases |items|
  {
    if |items| > 0 {
      var item := items[0];
      assert item in items;
      assert forall x :: x in items[1..] ==> x in items;
      if !Keeps(item, reader, policy) {
        var call := reader.registers(item.code).value;
        assert call == Registration(call.isDef, call.op);
      }
      OthersKeep(Recorded(l, item, reader, policy), items[1..], reader, policy, ns, op);
    }
  }

  /** A file is rejected exactly when a block does not end: no unit sequence has these lines. */
  lemma {:induction false} RejectedExactly(lines: seq<Line>, reader: Reader)
    ensures ParseFile(lines, reader) == None <==>
              !exists items :: Shaped(items, None, reader) && Flatten(items) == lines
  {
    if ParseFile(lines, reader).Some? {
      ParsedFile(lines, reader);
    } else {
      forall items | Shaped(items, None, reader)
        ensures Flatten(items) != lines
      {
        ShapedParses(items, None, reader);
      }
    }
  }
}
