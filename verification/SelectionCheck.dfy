/** What selection and routing guarantee, and the agreement of make_selection with the validator. */
module SelectionCheck {
  import opened Wrappers
  import opened SortedNames
  import opened Selection

  // ---------------------------------------------------------------- selection

  /** More changed paths never take a test away. */
  lemma {:induction false} MorePathsMoreTests(config: Config, paths: set<string>, more: set<string>, flags: Flags)
    requires paths <= more
    ensures Elements(Selects(config, paths, flags).testIds) <= Elements(Selects(config, more, flags).testIds)
  {
    var f, g := FoundIn(config, paths, flags), FoundIn(config, more, flags);
    assert f.selected <= g.selected && (f.full ==> g.full);
  }

  lemma {:induction false} ConcludedTests(config: Config, f: Found)
    ensures Elements(Conclude(config, f).testIds) == Chosen(config, f)
    ensures Conclude(config, f).mode == Full <==> f.full
  {
    hide Chosen, FilesOf, GivenReasons;
    SortedIncreasing(Chosen(config, f));
  }

  /** Only runnable tests are selected, and a full selection is all of them. */
  lemma {:induction false} OnlyRunnable(config: Config, paths: set<string>, flags: Flags)
    ensures Elements(Selects(config, paths, flags).testIds) <= config.RunnableIds()
    ensures Selects(config, paths, flags).mode == Full ==>
              Elements(Selects(config, paths, flags).testIds) == config.RunnableIds()
  {
    assert config.RunnableIds() <= config.Ids();
    hide FoundIn, Conclude, Config.RunnableIds, Config.Ids;
    ConcludedTests(config, FoundIn(config, paths, flags));
  }

  /** A selection that is not full explains every changed path: no rule makes it global, and it is a test, mapped to
      tests, or without effect. Every runnable test that a path calls for is selected. */
  lemma {:induction false} PartialExplains(config: Config, paths: set<string>, flags: Flags, path: string)
    requires path in paths && Selects(config, paths, flags).mode != Full
    ensures flags == Flags(true, false, true)
    ensures !IsGlobal(config, path) && (IsMapped(config, path) || config.Matches(path, config.noEffect))
    ensures TestsOf(config, path) * config.RunnableIds() <= Elements(Selects(config, paths, flags).testIds)
  {
    var f := FoundIn(config, paths, flags);
    assert !f.full && !IsUnmapped(config, path) && !IsGlobal(config, path);
    assert TestsOf(config, path) <= f.selected;
  }

  // ---------------------------------------------------------------- routing

  /** Every group is that of one of the boards, with the tests that the board can run. */
  ghost predicate GroupsOf(config: Config, ids: set<string>, boards: seq<string>, groups: seq<Group>)
  {
    forall g :: g in groups ==>
      && g.board in boards && g.id == g.board + "-0" && g.testIds != []
      && g.testIds == Sorted(IdsOn(config, ids, g.board))
      && g.files == Sorted(FilesOf(config, IdsOn(config, ids, g.board)))
  }

  /** Every board that can run some test has a group. */
  ghost predicate Covered(config: Config, ids: set<string>, boards: seq<string>, groups: seq<Group>)
  {
    forall b :: b in boards && IdsOn(config, ids, b) != {} ==> exists g :: g in groups && g.board == b
  }

  ghost predicate BoardsAscend(groups: seq<Group>)
  {
    forall i, j :: 0 <= i < j < |groups| ==> Before(groups[i].board, groups[j].board)
  }

  ghost predicate OneCellEach(r: Routes)
  {
    |r.matrix| == |r.groups| && forall i :: 0 <= i < |r.groups| ==>
                                  r.matrix[i] == Cell(r.groups[i].id, r.groups[i].board, 1)
  }

  lemma {:induction false} RoutesFacts(config: Config, ids: set<string>, boards: seq<string>)
    requires Increasing(boards)
    ensures var r := RoutesTo(config, ids, boards);
            && GroupsOf(config, ids, boards, r.groups) && Covered(config, ids, boards, r.groups)
            && BoardsAscend(r.groups) && OneCellEach(r)
    decreases |boards|
  {
    if |boards| > 0 {
      var n := |boards| - 1;
      var b, rest := boards[n], RoutesTo(config, ids, boards[..n]);
      RoutesFacts(config, ids, boards[..n]);
      var here := IdsOn(config, ids, b);
      assert boards == boards[..n] + [b];
      assert forall x :: x in boards[..n] ==> Before(x, b);
      hide Increasing, Before, IdsOn, FilesOf, GroupsOf, Covered, BoardsAscend, OneCellEach, Sorted;
      if here == {} {
        BoardWithoutTests(config, ids, boards[..n], b, rest.groups);
      } else {
        BoardWithTests(config, ids, boards[..n], b, rest);
      }
    }
  }

  lemma {:induction false} BoardWithoutTests(config: Config, ids: set<string>, boards: seq<string>, b: string,
                                             groups: seq<Group>)
    requires GroupsOf(config, ids, boards, groups) && Covered(config, ids, boards, groups)
    requires IdsOn(config, ids, b) == {}
    ensures GroupsOf(config, ids, boards + [b], groups) && Covered(config, ids, boards + [b], groups)
  {
    hide Sorted, IdsOn, FilesOf;
    assert forall x :: x in boards + [b] <==> x in boards || x == b;
  }

  lemma {:induction false} BoardWithTests(config: Config, ids: set<string>, boards: seq<string>, b: string,
                                          rest: Routes)
    requires GroupsOf(config, ids, boards, rest.groups) && Covered(config, ids, boards, rest.groups)
    requires BoardsAscend(rest.groups) && OneCellEach(rest) && forall x :: x in boards ==> Before(x, b)
    requires IdsOn(config, ids, b) != {}
    ensures var here := IdsOn(config, ids, b);
            var group := Group(b + "-0", b, Sorted(here), Sorted(FilesOf(config, here)));
            var r := Routes(rest.groups + [group], rest.matrix + [Cell(b + "-0", b, 1)]);
            && GroupsOf(config, ids, boards + [b], r.groups) && Covered(config, ids, boards + [b], r.groups)
            && BoardsAscend(r.groups) && OneCellEach(r)
  {
    var here := IdsOn(config, ids, b);
    var group := Group(b + "-0", b, Sorted(here), Sorted(FilesOf(config, here)));
    assert Sorted(here) != [];
    GroupsMore(config, ids, boards, b, rest.groups, group);
    CoveredMore(config, ids, boards, b, rest.groups, group);
    AscendMore(config, ids, boards, rest.groups, group);
    CellsMore(rest, group);
    hide *;
  }

  lemma {:induction false} GroupsMore(config: Config, ids: set<string>, boards: seq<string>, b: string,
                                      groups: seq<Group>, group: Group)
    requires GroupsOf(config, ids, boards, groups) && group.board == b && group.id == b + "-0" && group.testIds != []
    requires group.testIds == Sorted(IdsOn(config, ids, b))
    requires group.files == Sorted(FilesOf(config, IdsOn(config, ids, b)))
    ensures GroupsOf(config, ids, boards + [b], groups + [group])
  {
    hide Sorted, IdsOn, FilesOf;
  }

  lemma {:induction false} CoveredMore(config: Config, ids: set<string>, boards: seq<string>, b: string,
                                       groups: seq<Group>, group: Group)
    requires Covered(config, ids, boards, groups) && group.board == b
    ensures Covered(config, ids, boards + [b], groups + [group])
  {
    hide IdsOn;
    assert (groups + [group])[|groups|] == group;
    forall x | x in boards + [b] && IdsOn(config, ids, x) != {}
      ensures exists g :: g in groups + [group] && g.board == x
    {
      if x != b {
        assert x in boards;
        var g :| g in groups && g.board == x;
        assert g in groups + [group];
      }
    }
  }

  lemma {:induction false} AscendMore(config: Config, ids: set<string>, boards: seq<string>, groups: seq<Group>,
                                      group: Group)
    requires GroupsOf(config, ids, boards, groups) && BoardsAscend(groups)
    requires forall x :: x in boards ==> Before(x, group.board)
    ensures BoardsAscend(groups + [group])
  {
    hide Sorted, IdsOn, FilesOf, Before;
    assert forall g :: g in groups ==> g.board in boards;
    hide GroupsOf;
    forall i, j | 0 <= i < j < |groups + [group]|
      ensures Before((groups + [group])[i].board, (groups + [group])[j].board)
    {
      assert groups[i] in groups;
    }
  }

  lemma {:induction false} CellsMore(rest: Routes, group: Group)
    requires OneCellEach(rest)
    ensures OneCellEach(Routes(rest.groups + [group], rest.matrix + [Cell(group.id, group.board, 1)]))
  {
  }

  /** The test is among `ids`, and board `b` has it and enough devices for it. */
  ghost predicate RunsOn(config: Config, ids: set<string>, id: string, b: string)
  {
    id in ids && exists t :: t in config.catalog && t.id == id
                             && b in config.devices && b in t.boards && config.devices[b] >= t.minDevices
  }

  /** Groups are named after their boards and list the files of their tests; each has one cell with one process. */
  ghost predicate WellRouted(config: Config, r: Routes)
  {
    && |r.matrix| == |r.groups|
    && (forall i :: 0 <= i < |r.groups| ==>
          && r.groups[i].id == r.groups[i].board + "-0"
          && r.matrix[i].groupId == r.groups[i].id && r.matrix[i].board == r.groups[i].board && r.matrix[i].nproc == 1)
    && (forall i, j :: 0 <= i < j < |r.groups| ==> Before(r.groups[i].board, r.groups[j].board))
    && (forall g :: g in r.groups ==> Increasing(g.testIds) && Increasing(g.files))
    && (forall g, file :: g in r.groups ==>
          (file in g.files <==> exists t :: t in config.catalog && t.id in g.testIds && t.path == file))
  }

  /** Every selected test is routed to each board that can run it, in exactly one place, and to no other board. */
  lemma {:induction false} RoutedExactlyOnce(config: Config, ids: set<string>, id: string, b: string)
    requires Routable(config, ids)
    ensures var groups := RoutesOf(config, ids).groups;
            && (RunsOn(config, ids, id, b) <==> exists g :: g in groups && g.board == b && id in g.testIds)
            && (forall i, j :: 0 <= i < j < |groups| ==> groups[i].board != groups[j].board)
  {
    hide Sorted, FilesOf, Before, Increasing, RoutesTo;
    SortedIncreasing(BOARDS);
    RoutesFacts(config, ids, Sorted(BOARDS));
    var groups := RoutesOf(config, ids).groups;
    assert RunsOn(config, ids, id, b) <==> id in IdsOn(config, ids, b);
    if id in IdsOn(config, ids, b) {
      assert b in BOARDS;
      var g :| g in groups && g.board == b;
      assert id in g.testIds;
    }
    forall i, j | 0 <= i < j < |groups|
      ensures groups[i].board != groups[j].board
    {
      BeforeIrreflexive(groups[i].board);
    }
  }

  lemma {:induction false} RoutesWellFormed(config: Config, ids: set<string>)
    ensures WellRouted(config, RoutesOf(config, ids))
  {
    hide Sorted, Before, Increasing, RoutesTo, IdsOn;
    SortedIncreasing(BOARDS);
    RoutesFacts(config, ids, Sorted(BOARDS));
    forall g | g in RoutesOf(config, ids).groups
      ensures Increasing(g.testIds) && Increasing(g.files)
      ensures forall file :: file in g.files <==> exists t :: t in config.catalog && t.id in g.testIds && t.path == file
    {
      SortedIncreasing(IdsOn(config, ids, g.board));
      SortedIncreasing(FilesOf(config, IdsOn(config, ids, g.board)));
    }
  }

  // ---------------------------------------------------------------- making and validating

  datatype Fingerprint = Fingerprint(sdk: Option<string>, torch: Option<string>, arches: Option<seq<string>>,
                                     image: string, commit: string)

  datatype Environment = Environment(qualified: bool, build: Option<Fingerprint>, runtimeImage: Option<string>)

  datatype Changes = Changes(base: Option<string>, head: Option<string>, tested: string, complete: bool,
                             paths: seq<string>)

  /** What both sides are given: the parsed files with their checksums, and the identities of the build. */
  datatype Inputs = Inputs(config: Config, environment: Environment, configSum: string, environmentSum: string,
                           runId: string, image: string, runtimeImage: string, commit: string)

  datatype Record = Record(selected: Selected, routes: Routes, base: Option<string>, head: Option<string>,
                           tested: string,
                           changed: seq<string>, runId: string, configSum: string, environmentSum: string,
                           build: Fingerprint, runtimeImage: string)

  predicate IsDigit(c: char): (b: bool)
    ensures b <==> c in "0123456789"
  {
    '0' <= c <= '9'
  }

  predicate IsHexDigit(c: char): (b: bool)
    ensures b <==> IsDigit(c) || c in "abcdef"
  {
    IsDigit(c) || 'a' <= c <= 'f'
  }

  /** `[0-9a-f]{40}`. */
  predicate IsSha(s: string)
  {
    |s| == 40 && forall c :: c in s ==> IsHexDigit(c)
  }

  /** `[1-9][0-9]*`. */
  predicate IsDecimal(s: string)
  {
    |s| > 0 && s[0] != '0' && forall c :: c in s ==> IsDigit(c)
  }

  predicate OptionalSha(s: Option<string>)
  {
    s.Some? ==> IsSha(s.value)
  }

  predicate NoDuplicates(q: seq<string>)
  {
    forall i, j :: 0 <= i < j < |q| ==> q[i] != q[j]
  }

  /** validate_changes. */
  predicate ValidChanges(c: Changes)
  {
    && IsSha(c.tested) && OptionalSha(c.base) && OptionalSha(c.head)
    && NoDuplicates(c.paths) && (forall p :: p in c.paths ==> SafePath(p))
    && (c.complete ==> c.base.Some? && c.head.Some?)
  }

  predicate Matched(inputs: Inputs, build: Fingerprint)
  {
    && inputs.environment.qualified && inputs.environment.build == Some(build)
    && inputs.environment.runtimeImage == Some(inputs.runtimeImage)
  }

  /** make_selection; `build` is the observed fingerprint, which names the expected image and commit. */
  function MakeSelection(inputs: Inputs, changes: Changes, build: Fingerprint, force: bool): Result<Record>
  {
    var matched := Matched(inputs, build);
    var selected := Selects(inputs.config, Elements(changes.paths), Flags(changes.complete, force, matched));
    var reported := if inputs.environment.qualified then selected
                    else selected.(reasons := Sorted(Elements(selected.reasons) - {"environment_changed"}
                      + {"environment_unqualified"}));
    if !ValidChanges(changes) || !IsDecimal(inputs.runId) || !IsSha(inputs.commit) then Err(ValueError("Invalid input"))
    else if !Routable(inputs.config, Elements(selected.testIds)) then Err(ValueError("No valid route"))
    else Ok(Record(reported, RoutesOf(inputs.config, Elements(selected.testIds)), changes.base, changes.head,
      changes.tested,
                   Sorted(Elements(changes.paths)), inputs.runId, inputs.configSum, inputs.environmentSum, build,
                     inputs.runtimeImage))
  }

  /** Nonempty strings without duplicates, in sorted order. */
  predicate SortedStrings(q: seq<string>)
  {
    Increasing(q) && "" !in q
  }

  /** The checks of the validator that concern the selection itself. */
  predicate WellFormed(config: Config, s: Selected)
  {
    && SortedStrings(s.testIds) && SortedStrings(s.files) && SortedStrings(s.reasons)
    && SortedStrings(s.matched) && SortedStrings(s.unmapped)
    && (forall p :: p in s.files + s.unmapped ==> SafePath(p))
    && s.files == Sorted(FilesOf(config, Elements(s.testIds)))
    && (s.mode == Full || (s.testIds != [] <==> s.mode != NoTests))
    && (s.mode == Full ==> s.testIds == Sorted(config.RunnableIds()))
  }

  /** validate_selection, check by check. */
  predicate Accepts(r: Record, inputs: Inputs, tested: string)
  {
    && r.tested == tested && IsSha(tested) && r.runId == inputs.runId && IsDecimal(inputs.runId)
    && r.runtimeImage == inputs.runtimeImage && r.configSum == inputs.configSum
       && r.environmentSum == inputs.environmentSum
    && OptionalSha(r.base) && OptionalSha(r.head)
    && SortedStrings(r.changed) && (forall p :: p in r.changed ==> SafePath(p))
    && WellFormed(inputs.config, r.selected)
    && Routable(inputs.config, Elements(r.selected.testIds))
    && r.routes == RoutesOf(inputs.config, Elements(r.selected.testIds))
    && r.build.image == inputs.image && r.build.commit == inputs.commit && IsSha(inputs.commit)
    && (r.selected.mode != Full ==>
          && Matched(inputs, r.build) && r.base.Some? && r.head.Some?
          && r.selected == Selects(inputs.config, Elements(r.changed), Flags(true, false, true)))
  }

  lemma {:induction false} SortedIsStrings(s: set<string>)
    requires "" !in s
    ensures SortedStrings(Sorted(s)) && Elements(Sorted(s)) == s
  {
    SortedIncreasing(s);
  }

  lemma {:induction false} ConcludedSorted(config: Config, f: Found)
    requires config.Valid() && "" !in f.reasons && "" !in f.matched && forall p :: p in f.unmapped ==> SafePath(p)
    ensures WellFormed(config, Conclude(config, f))
  {
    hide SafePath, FilesOf, Chosen, GivenReasons, SortedStrings, Config.RunnableIds, Config.Valid;
    ChosenFacts(config, f);
    ReasonsNonempty(config, f);
    SortedIsStrings(Chosen(config, f));
    SortedIsStrings(FilesOf(config, Chosen(config, f)));
    SortedIsStrings(GivenReasons(config, f));
    SortedIsStrings(f.matched);
    SortedIsStrings(f.unmapped);
  }

  lemma {:induction false} ReasonsNonempty(config: Config, f: Found)
    requires "" !in f.reasons && forall p :: p in f.unmapped ==> SafePath(p)
    ensures "" !in GivenReasons(config, f) && "" !in f.unmapped
  {
  }

  lemma {:induction false} ChosenFacts(config: Config, f: Found)
    requires config.Valid()
    ensures "" !in Chosen(config, f) && "" !in FilesOf(config, Chosen(config, f))
    ensures forall p :: p in FilesOf(config, Chosen(config, f)) ==> SafePath(p)
    ensures f.full ==> Chosen(config, f) == config.RunnableIds()
  {
    NamesNonempty(config, Chosen(config, f));
    assert config.RunnableIds() <= config.Ids();
  }

  lemma {:induction false} NamesNonempty(config: Config, ids: set<string>)
    requires config.Valid()
    ensures "" !in config.RunnableIds() && "" !in FilesOf(config, ids)
    ensures forall p :: p in FilesOf(config, ids) ==> SafePath(p)
  {
    hide SafePath;
    assert !SafePath("") by { EmptyIsUnsafe(); }
  }

  lemma {:induction false} EmptyIsUnsafe()
    ensures !SafePath("")
  {
  }

  lemma {:induction false} SelectionSorted(config: Config, paths: set<string>, flags: Flags)
    requires config.Valid() && forall p :: p in paths ==> SafePath(p)
    ensures WellFormed(config, Selects(config, paths, flags))
  {
    var f := FoundIn(config, paths, flags);
    assert "" !in f.matched;
    hide SafePath, WellFormed;
    ConcludedSorted(config, f);
  }

  lemma {:induction false} SelectionRoutable(config: Config, paths: set<string>, flags: Flags)
    requires config.Valid()
    ensures Routable(config, Elements(Selects(config, paths, flags).testIds))
  {
    OnlyRunnable(config, paths, flags);
    assert config.RunnableIds() <= config.Ids();
  }

  /** With a valid configuration every well-formed diff yields a selection, and the validator accepts it. */
  lemma {:induction false} MadeIsAccepted(inputs: Inputs, changes: Changes, build: Fingerprint, force: bool)
    requires inputs.config.Valid() && ValidChanges(changes) && IsDecimal(inputs.runId) && IsSha(inputs.commit)
    requires build.image == inputs.image && build.commit == inputs.commit
    ensures MakeSelection(inputs, changes, build, force).Ok?
    ensures Accepts(MakeSelection(inputs, changes, build, force).value, inputs, changes.tested)
  {
    var config, paths := inputs.config, Elements(changes.paths);
    var flags := Flags(changes.complete, force, Matched(inputs, build));
    var s := Selects(config, paths, flags);
    SelectionSorted(config, paths, flags);
    SelectionRoutable(config, paths, flags);
    ReasonsReplaced(config, s);
    hide SafePath, Selects, Routable, RoutesOf, WellFormed, Matched, Accepts, Sorted, Elements;
    if s.mode != Full {
      NotFullFlags(config, paths, flags);
    }
    RecordAccepted(inputs, changes, build, flags, s, MakeSelection(inputs, changes, build, force).value);
  }

  lemma {:induction false} RecordAccepted(inputs: Inputs, changes: Changes, build: Fingerprint, flags: Flags,
                                          s: Selected, r: Record)
    requires ValidChanges(changes) && IsDecimal(inputs.runId) && IsSha(inputs.commit)
    requires build.image == inputs.image && build.commit == inputs.commit
    requires flags.complete == changes.complete && flags.environment == Matched(inputs, build)
    requires s == Selects(inputs.config, Elements(changes.paths), flags) && WellFormed(inputs.config, r.selected)
    requires Routable(inputs.config, Elements(s.testIds)) && r.selected.testIds == s.testIds
             && r.selected.mode == s.mode
    requires inputs.environment.qualified ==> r.selected == s
    requires s.mode != Full ==> flags == Flags(true, false, true)
    requires r
               == Record(r.selected, RoutesOf(inputs.config, Elements(s.testIds)), changes.base, changes.head,
                 changes.tested,
                         Sorted(Elements(changes.paths)), inputs.runId, inputs.configSum, inputs.environmentSum, build,
                           inputs.runtimeImage)
    ensures Accepts(r, inputs, changes.tested)
  {
    PathsNonempty(changes.paths);
    SortedIsStrings(Elements(changes.paths));
    hide SafePath, Selects, Routable, RoutesOf, WellFormed, SortedStrings;
  }

  lemma {:induction false} PathsNonempty(paths: seq<string>)
    requires forall p :: p in paths ==> SafePath(p)
    ensures "" !in Elements(paths)
  {
    EmptyIsUnsafe();
  }

  /** Reporting an unqualified environment instead of a changed one keeps the lists in order. */
  lemma {:induction false} ReasonsReplaced(config: Config, s: Selected)
    requires WellFormed(config, s)
    ensures WellFormed(config,
              s.(reasons := Sorted(Elements(s.reasons) - {"environment_changed"} + {"environment_unqualified"})))
  {
    hide SafePath;
    SortedIsStrings(Elements(s.reasons) - {"environment_changed"} + {"environment_unqualified"});
  }

  lemma {:induction false} NotFullFlags(config: Config, paths: set<string>, flags: Flags)
    requires Selects(config, paths, flags).mode != Full
    ensures flags == Flags(true, false, true)
  {
  }

  /** Whatever the validator accepts runs at least the tests that the rules call for, on all boards that can run them;
      and a selection that is not full comes from a qualified environment and is exactly the one of the rules. */
  lemma {:induction false} AcceptedIsSafe(r: Record, inputs: Inputs, tested: string)
    requires Accepts(r, inputs, tested)
    ensures Elements(Selects(inputs.config, Elements(r.changed),
              Flags(true, false, true)).testIds) <= Elements(r.selected.testIds)
    ensures r.tested == tested && r.runId == inputs.runId && r.runtimeImage == inputs.runtimeImage
            && r.configSum == inputs.configSum && r.environmentSum == inputs.environmentSum
            && r.build.image == inputs.image && r.build.commit == inputs.commit
    ensures r.selected.mode != Full ==>
              && inputs.environment.qualified && inputs.environment.build == Some(r.build)
              && inputs.environment.runtimeImage == Some(r.runtimeImage) && r.base.Some? && r.head.Some?
              && r.selected == Selects(inputs.config, Elements(r.changed), Flags(true, false, true))
    ensures r.selected.mode == Full ==> Elements(r.selected.testIds) == inputs.config.RunnableIds()
    ensures forall id, b :: id in r.selected.testIds ==>
              (RunsOn(inputs.config, Elements(r.selected.testIds), id, b)
               <==> exists g :: g in r.routes.groups && g.board == b && id in g.testIds)
  {
    OnlyRunnable(inputs.config, Elements(r.changed), Flags(true, false, true));
    SortedIncreasing(inputs.config.RunnableIds());
    forall id, b | id in r.selected.testIds
      ensures RunsOn(inputs.config, Elements(r.selected.testIds), id, b)
          <==> exists g :: g in r.routes.groups && g.board == b && id in g.testIds
    {
      RoutedExactlyOnce(inputs.config, Elements(r.selected.testIds), id, b);
    }
  }

  // ---------------------------------------------------------------- what exactly is accepted

  /** The diff that a record names. */
  function ChangesOf(r: Record, tested: string, complete: bool): Changes
  {
    Changes(r.base, r.head, tested, complete, r.changed)
  }

  /** The build is the expected one. */
  predicate BuiltAs(r: Record, inputs: Inputs)
  {
    r.build.image == inputs.image && r.build.commit == inputs.commit
  }

  lemma {:induction false} IncreasingIsDistinct(q: seq<string>)
    requires Increasing(q)
    ensures NoDuplicates(q) && Sorted(Elements(q)) == q
  {
    IncreasingIsSorted(q);
    forall i, j | 0 <= i < j < |q|
      ensures q[i] != q[j]
    {
      BeforeIrreflexive(q[i]);
    }
  }

  /** A record that is not full is accepted exactly when it is what make_selection yields for the diff it names, without
      force and with the expected build. */
  lemma {:induction false} PartialExactly(r: Record, inputs: Inputs, tested: string)
    requires inputs.config.Valid() && r.selected.mode != Full
    ensures Accepts(r, inputs, tested) <==>
              && MakeSelection(inputs, ChangesOf(r, tested, true), r.build, false) == Ok(r)
              && BuiltAs(r, inputs)
  {
    hide Selects, Routable, RoutesOf, WellFormed, SafePath, Sorted, Before, Config.Valid;
    if Accepts(r, inputs, tested) {
      IncreasingIsDistinct(r.changed);
      hide NoDuplicates, Increasing;
    }
    if MakeSelection(inputs, ChangesOf(r, tested, true), r.build, false) == Ok(r) && BuiltAs(r, inputs) {
      MadeIsAccepted(inputs, ChangesOf(r, tested, true), r.build, false);
    }
  }

  /** The record with the tests, files and mode of `s`, and its own reasons, rules and unexplained paths. */
  function WithTests(r: Record, s: Selected): Record
  {
    r.(selected := s.(reasons := r.selected.reasons, matched := r.selected.matched, unmapped := r.selected.unmapped))
  }

  /** The lists that a full record may fill as it likes are sorted, and its unexplained paths are safe. */
  predicate FreeLists(s: Selected)
  {
    && SortedStrings(s.reasons) && SortedStrings(s.matched) && SortedStrings(s.unmapped)
    && forall p :: p in s.unmapped ==> SafePath(p)
  }

  lemma {:induction false} ForcedTests(config: Config, paths: set<string>, complete: bool, matched: bool)
    ensures var s := Selects(config, paths, Flags(complete, true, matched));
            && s.mode == Full && s.testIds == Sorted(config.RunnableIds())
            && s.files == Sorted(FilesOf(config, config.RunnableIds()))
  {
    assert config.RunnableIds() <= config.Ids();
    assert Chosen(config, FoundIn(config, paths, Flags(complete, true, matched))) == config.RunnableIds();
  }

  /** The record that force yields for the diff that `r` names. */
  lemma {:induction false} ForcedRecord(r: Record, inputs: Inputs, tested: string)
    requires inputs.config.Valid()
    ensures var made := MakeSelection(inputs, ChangesOf(r, tested, false), r.build, true);
            var config := inputs.config;
            && (made.Ok? <==>
                  ValidChanges(ChangesOf(r, tested, false)) && IsDecimal(inputs.runId) && IsSha(inputs.commit))
            && (made.Ok? ==>
                  && made.value == Record(made.value.selected, RoutesOf(config, config.RunnableIds()), r.base, r.head,
                                          tested, Sorted(Elements(r.changed)), inputs.runId, inputs.configSum,
                                          inputs.environmentSum, r.build, inputs.runtimeImage)
                  && made.value.selected.mode == Full
                  && made.value.selected.testIds == Sorted(config.RunnableIds())
                  && made.value.selected.files == Sorted(FilesOf(config, config.RunnableIds())))
  {
    var config, paths := inputs.config, Elements(r.changed);
    hide *;
    ForcedTests(config, paths, false, Matched(inputs, r.build));
    SelectionRoutable(config, paths, Flags(false, true, Matched(inputs, r.build)));
    SortedIncreasing(config.RunnableIds());
    FieldsOfChanges(r, tested, false);
    MadeFields(inputs, ChangesOf(r, tested, false), r.build, true,
      Selects(config, paths, Flags(false, true, Matched(inputs, r.build))));
  }

  lemma {:induction false} FieldsOfChanges(r: Record, tested: string, complete: bool)
    ensures ChangesOf(r, tested, complete) == Changes(r.base, r.head, tested, complete, r.changed)
  {
  }

  /** What make_selection checks, which fields it copies, and that it reports an unqualified environment as such instead
      of as a changed one. */
  lemma {:induction false} MadeFields(inputs: Inputs, changes: Changes, build: Fingerprint, force: bool, s: Selected)
    requires s == Selects(inputs.config, Elements(changes.paths),
                          Flags(changes.complete, force, Matched(inputs, build)))
    ensures var made := MakeSelection(inputs, changes, build, force);
            && (made.Ok? <==> ValidChanges(changes) && IsDecimal(inputs.runId) && IsSha(inputs.commit)
                              && Routable(inputs.config, Elements(s.testIds)))
            && (made.Ok? ==>
                  && made.value == Record(made.value.selected, RoutesOf(inputs.config, Elements(s.testIds)),
                                          changes.base, changes.head, changes.tested, Sorted(Elements(changes.paths)),
                                          inputs.runId, inputs.configSum, inputs.environmentSum, build,
                                          inputs.runtimeImage)
                  && made.value.selected == s.(reasons := made.value.selected.reasons)
                  && Increasing(made.value.selected.reasons)
                  && forall x :: x in made.value.selected.reasons <==>
                       if inputs.environment.qualified then x in s.reasons
                       else x == "environment_unqualified" || (x in s.reasons && x != "environment_changed"))
  {
    SelectsSorted(inputs.config, Elements(changes.paths), Flags(changes.complete, force, Matched(inputs, build)));
    SortedIncreasing(Elements(s.reasons) - {"environment_changed"} + {"environment_unqualified"});
    hide Selects, Routable, RoutesOf, ValidChanges, Sorted, Matched, IsDecimal, IsSha, Increasing;
  }

  lemma {:induction false} SelectsSorted(config: Config, paths: set<string>, flags: Flags)
    ensures Increasing(Selects(config, paths, flags).reasons)
  {
    SortedIncreasing(GivenReasons(config, FoundIn(config, paths, flags)));
    hide FoundIn, GivenReasons, Sorted, Increasing, Chosen;
  }

  /** A full record is accepted exactly when, apart from those lists, it is what make_selection yields under force for
      the diff it names. */
  lemma {:induction false} FullExactly(r: Record, inputs: Inputs, tested: string)
    requires inputs.config.Valid() && r.selected.mode == Full
    ensures Accepts(r, inputs, tested) <==>
              var made := MakeSelection(inputs, ChangesOf(r, tested, false), r.build, true);
              && made.Ok? && r == WithTests(made.value.(selected := r.selected), made.value.selected)
              && FreeLists(r.selected) && BuiltAs(r, inputs)
  {
    ForcedRecord(r, inputs, tested);
    hide MakeSelection;
    if Accepts(r, inputs, tested) {
      FullAccepted(r, inputs, tested);
    }
    hide Accepts, FreeLists, BuiltAs;
    var made := MakeSelection(inputs, ChangesOf(r, tested, false), r.build, true);
    if && made.Ok? && r == WithTests(made.value.(selected := r.selected), made.value.selected)
       && FreeLists(r.selected) && BuiltAs(r, inputs) {
      FullMade(r, inputs, tested);
    }
  }

  lemma {:induction false} FullAccepted(r: Record, inputs: Inputs, tested: string)
    requires Accepts(r, inputs, tested) && r.selected.mode == Full
    ensures ValidChanges(ChangesOf(r, tested, false)) && IsDecimal(inputs.runId) && IsSha(inputs.commit)
    ensures var config := inputs.config;
            && r == Record(r.selected, RoutesOf(config, config.RunnableIds()), r.base, r.head,
                           tested, Sorted(Elements(r.changed)), inputs.runId, inputs.configSum,
                           inputs.environmentSum, r.build, inputs.runtimeImage)
            && r.selected.testIds == Sorted(config.RunnableIds())
            && r.selected.files == Sorted(FilesOf(config, config.RunnableIds()))
            && FreeLists(r.selected) && BuiltAs(r, inputs)
  {
    var config := inputs.config;
    SortedIncreasing(config.RunnableIds());
    IncreasingIsDistinct(r.changed);
    hide Selects, Routable, RoutesOf, SafePath, Sorted, Before, Config.RunnableIds, FilesOf, Matched, NoDuplicates,
      Increasing;
  }

  lemma {:induction false} FullMade(r: Record, inputs: Inputs, tested: string)
    requires ValidChanges(ChangesOf(r, tested, false)) && IsDecimal(inputs.runId) && IsSha(inputs.commit)
    requires inputs.config.Valid() && r.selected.mode == Full && FreeLists(r.selected) && BuiltAs(r, inputs)
    requires var config := inputs.config;
             && r == Record(r.selected, RoutesOf(config, config.RunnableIds()), r.base, r.head,
                            tested, Sorted(Elements(r.changed)), inputs.runId, inputs.configSum,
                            inputs.environmentSum, r.build, inputs.runtimeImage)
             && r.selected.testIds == Sorted(config.RunnableIds())
             && r.selected.files == Sorted(FilesOf(config, config.RunnableIds()))
    ensures Accepts(r, inputs, tested)
  {
    var config := inputs.config;
    RunnableRoutable(config);
    SortedIncreasing(config.RunnableIds());
    PathsNonempty(r.changed);
    SortedIsStrings(Elements(r.changed));
    FullWellFormed(r, inputs);
    hide Selects, Routable, RoutesOf, SafePath, Sorted, Increasing, Config.Valid, Config.RunnableIds, FilesOf, Matched,
      NoDuplicates, SortedStrings, WellFormed;
  }

  lemma {:induction false} FullWellFormed(r: Record, inputs: Inputs)
    requires inputs.config.Valid() && r.selected.mode == Full && FreeLists(r.selected)
    requires r.selected.testIds == Sorted(inputs.config.RunnableIds())
    requires r.selected.files == Sorted(FilesOf(inputs.config, inputs.config.RunnableIds()))
    ensures WellFormed(inputs.config, r.selected)
  {
    FullListsFit(inputs.config);
    SortedIncreasing(inputs.config.RunnableIds());
    hide SafePath, Sorted, Increasing, Config.Valid, Config.RunnableIds, FilesOf, SortedStrings;
  }

  lemma {:induction false} RunnableRoutable(config: Config)
    requires config.Valid()
    ensures Routable(config, config.RunnableIds())
  {
    assert config.RunnableIds() <= config.Ids();
  }

  lemma {:induction false} FullListsFit(config: Config)
    requires config.Valid()
    ensures SortedStrings(Sorted(config.RunnableIds())) && SortedStrings(Sorted(FilesOf(config, config.RunnableIds())))
    ensures forall p :: p in Sorted(FilesOf(config, config.RunnableIds())) ==> SafePath(p)
  {
    NamesNonempty(config, config.RunnableIds());
    SortedIsStrings(config.RunnableIds());
    SortedIsStrings(FilesOf(config, config.RunnableIds()));
  }
}
