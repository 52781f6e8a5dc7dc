/** The selection of device tests for a change: which tests run, on which boards, and what the independent validator
    accepts. */
module Selection {
  import opened Wrappers
  import opened SortedNames


  const BOARDS := {"ppu10", "ppu15"}

  datatype Test = Test(id: string, path: string, boards: set<string>, minDevices: nat)

  /** A path rule: exact paths, directory prefixes, and glob patterns. */
  datatype PathRule = PathRule(paths: set<string>, prefixes: set<string>, globs: set<string>)

  datatype SourceRule = SourceRule(id: string, paths: set<string>, testIds: set<string>)

  /** `devices` gives `nproc_per_node` of each board; `glob` is `fnmatch.fnmatchcase`. */
  datatype Config = Config(devices: map<string, nat>, catalog: seq<Test>, full: PathRule, noEffect: PathRule,
                           sources: seq<SourceRule>, glob: (string, string) -> bool)
  {
    predicate Matches(path: string, rule: PathRule)
    {
      || path in rule.paths
      || (exists p :: p in rule.prefixes && p <= path)
      || (exists g :: g in rule.globs && glob(path, g))
    }

    function Runnable(t: Test): set<string>
    {
      set b | b in devices && b in t.boards && devices[b] >= t.minDevices
    }

    function Ids(): set<string>
    {
      set t | t in catalog :: t.id
    }

    function RunnableIds(): set<string>
    {
      set t | t in catalog && Runnable(t) != {} :: t.id
    }

    /** What the configuration check establishes about the fields used here. */
    ghost predicate Valid()
    {
      && devices.Keys == BOARDS && (forall b :: b in devices ==> devices[b] == 1)
      && (forall i, j ::
         0 <= i < j < |catalog| ==> catalog[i].id != catalog[j].id && catalog[i].path != catalog[j].path)
      && (forall t :: t in catalog ==> t.id != "" && SafePath(t.path) && t.boards != {} && t.boards <= BOARDS)
      && (forall r :: r in sources ==> r.id != "" && r.testIds <= Ids())
    }
  }

  /** A path inside the repository, without glob characters. */
  predicate SafePath(path: string)
  {
    && path != "" && path[0] !in {'/', '-'}
    && (forall c :: c in path ==> c !in {'\\', '\0', ':', '\n', '\r', '*', '?', '[', ']'})
    && ProperComponents(WithoutSlashes(path), "")
  }

  function WithoutSlashes(path: string): string
  {
    if |path| > 0 && path[|path| - 1] == '/' then WithoutSlashes(path[..|path| - 1]) else path
  }

  /** Every component between slashes is proper; `current` is the part of the current one that has been read. */
  predicate ProperComponents(path: string, current: string)
  {
    if |path| == 0 then current !in {"", ".", ".."}
    else if path[0] == '/' then current !in {"", ".", ".."} && ProperComponents(path[1..], "")
    else ProperComponents(path[1..], current + [path[0]])
  }

  // ---------------------------------------------------------------- selection

  datatype Selected = Selected(mode: Mode, testIds: seq<string>, files: seq<string>, reasons: seq<string>,
                               matched: seq<string>, unmapped: seq<string>)

  /** The tests a changed path selects, as a test file or through source rules. */
  function TestsOf(config: Config, path: string): set<string>
  {
    (set t | t in config.catalog && t.path == path :: t.id)
    + (set r, id | r in config.sources && path in r.paths && id in r.testIds :: id)
  }

  function RulesOf(config: Config, path: string): set<string>
  {
    set r | r in config.sources && path in r.paths :: r.id
  }

  predicate IsTestFile(config: Config, path: string)
  {
    exists t :: t in config.catalog && t.path == path
  }

  predicate IsMapped(config: Config, path: string)
  {
    IsTestFile(config, path) || exists r :: r in config.sources && path in r.paths
  }

  predicate IsGlobal(config: Config, path: string)
  {
    config.Matches(path, config.full)
  }

  /** A path that no rule explains. */
  predicate IsUnmapped(config: Config, path: string)
  {
    !IsGlobal(config, path) && !IsMapped(config, path) && !config.Matches(path, config.noEffect)
  }

  /** Why a path is mentioned among the reasons. */
  function ReasonsOf(config: Config, path: string): set<string>
  {
    if IsGlobal(config, path) then {if "csrc/" <= path then "native_change" else "global_dependency"}
    else (if IsTestFile(config, path) then {"test_changed"} else {})
         + (if RulesOf(config, path) != {} then {"mapped_source"} else {})
         + (if IsUnmapped(config, path) then {"unmapped_path"} else {})
  }

  datatype Flags = Flags(complete: bool, force: bool, environment: bool)
  {
    predicate Full() { force || !complete || !environment }

    function Reasons(): set<string>
    {
      (if force then {"forced_full"} else {}) + (if !complete then {"incomplete_diff"} else {})
      + (if !environment then {"environment_changed"} else {})
    }
  }

  /** The sets that the loop over the paths builds up. */
  datatype Found = Found(selected: set<string>, reasons: set<string>, matched: set<string>, unmapped: set<string>,
                         full: bool)

  function FoundIn(config: Config, paths: set<string>, flags: Flags): Found
  {
    Found((set p, id | p in paths && !IsGlobal(config, p) && id in TestsOf(config, p) :: id),
          flags.Reasons() + (set p, r | p in paths && r in ReasonsOf(config, p) :: r),
          (set p, r | p in paths && !IsGlobal(config, p) && r in RulesOf(config, p) :: r),
          (set p | p in paths && IsUnmapped(config, p)),
          flags.Full() || exists p :: p in paths && (IsGlobal(config, p) || IsUnmapped(config, p)))
  }

  function FilesOf(config: Config, ids: set<string>): set<string>
  {
    set t | t in config.catalog && t.id in ids :: t.path
  }

  /** The tests that what was found calls for, those of them that some board can run, and the reasons given. */
  function Wanted(config: Config, f: Found): set<string>
  {
    if f.full then config.Ids() else f.selected
  }

  function Chosen(config: Config, f: Found): set<string>
  {
    Wanted(config, f) * config.RunnableIds()
  }

  function GivenReasons(config: Config, f: Found): set<string>
  {
    var reasons := f.reasons + if Wanted(config, f) - config.RunnableIds() != {} then {"insufficient_devices"} else {};
    if reasons == {} then {"no_device_changes"} else reasons
  }

  datatype Mode = NoTests | Subset | Full

  function Conclude(config: Config, f: Found): Selected
  {
    var chosen := Chosen(config, f);
    Selected(if f.full then Full else if chosen != {} then Subset else NoTests,
             Sorted(chosen), Sorted(FilesOf(config, chosen)), Sorted(GivenReasons(config, f)),
             Sorted(f.matched), Sorted(f.unmapped))
  }

  /** The selection for a set of changed paths. */
  function Selects(config: Config, paths: set<string>, flags: Flags): Selected
  {
    Conclude(config, FoundIn(config, paths, flags))
  }

  /** What one path adds to what has been found. */
  ghost predicate Adds(config: Config, path: string, before: Found, after: Found)
  {
    && after.selected == before.selected + (if IsGlobal(config, path) then {} else TestsOf(config, path))
    && after.reasons == before.reasons + ReasonsOf(config, path)
    && after.matched == before.matched + (if IsGlobal(config, path) then {} else RulesOf(config, path))
    && after.unmapped == before.unmapped + (if IsUnmapped(config, path) then {path} else {})
    && after.full == (before.full || IsGlobal(config, path) || IsUnmapped(config, path))
  }

  /** The source rules that name the path: the tests they select, and their ids. */
  method FindRules(config: Config, path: string) returns (testIds: set<string>, ruleIds: set<string>, found: bool)
    ensures found <==> exists r :: r in config.sources && path in r.paths
    ensures testIds == set r, id | r in config.sources && path in r.paths && id in r.testIds :: id
    ensures ruleIds == RulesOf(config, path)
  {
    testIds, ruleIds, found := {}, {}, false;
    var i := 0;
    while i < |config.sources|
      invariant i <= |config.sources|
      invariant found <==> exists r :: r in config.sources[..i] && path in r.paths
      invariant testIds == set r, id | r in config.sources[..i] && path in r.paths && id in r.testIds :: id
      invariant ruleIds == set r | r in config.sources[..i] && path in r.paths :: r.id
    {
      var rule := config.sources[i];
      assert config.sources[..i + 1] == config.sources[..i] + [rule];
      if path in rule.paths {
        testIds, ruleIds, found := testIds + rule.testIds, ruleIds + {rule.id}, true;
      }
      i := i + 1;
    }
    assert config.sources[..i] == config.sources;
  }

  /** One path of the loop. */
  method FindPath(config: Config, path: string, before: Found) returns (f: Found)
    ensures Adds(config, path, before, f)
  {
    f := before;
    if config.Matches(path, config.full) {
      return f.(full := true,
        reasons := f.reasons + {if "csrc/" <= path then "native_change" else "global_dependency"});
    }
    var isTest := IsTestFile(config, path);
    if isTest {
      f := f.(selected := f.selected + (set t | t in config.catalog && t.path == path :: t.id),
        reasons := f.reasons + {"test_changed"});
    }
    var testIds, ruleIds, isSource := FindRules(config, path);
    if isSource {
      f := f.(selected := f.selected + testIds, matched := f.matched + ruleIds,
        reasons := f.reasons + {"mapped_source"});
    }
    SomeRule(config, path);
    if !isTest && !isSource && !config.Matches(path, config.noEffect) {
      f := f.(full := true, unmapped := f.unmapped + {path}, reasons := f.reasons + {"unmapped_path"});
    }
  }

  lemma {:induction false} SomeRule(config: Config, path: string)
    ensures RulesOf(config, path) != {} <==> exists r :: r in config.sources && path in r.paths
  {
    if r :| r in config.sources && path in r.paths {
      assert r.id in RulesOf(config, path);
    }
  }

  /** select_tests: the loop over the sorted paths, then the conclusion. */
  method SelectTests(config: Config, paths: seq<string>, flags: Flags) returns (r: Result<Selected>)
    ensures r.Ok? <==> forall p :: p in paths ==> SafePath(p)
    ensures r.Ok? ==> r.value == Selects(config, Elements(paths), flags)
  {
    if exists p :: p in paths && !SafePath(p) {
      return Err(ValueError("Invalid path"));
    }
    var todo := Sorted(Elements(paths));
    assert Elements(todo) == Elements(paths);
    var f := FindAll(config, todo, flags);
    r := Ok(Conclude(config, f));
  }

  /** The loop over the paths. */
  method FindAll(config: Config, todo: seq<string>, flags: Flags) returns (f: Found)
    ensures f == FoundIn(config, Elements(todo), flags)
  {
    f := Found({}, flags.Reasons(), {}, {}, flags.Full());
    NothingFound(config, flags);
    hide FoundIn, Adds, Elements;
    for i := 0 to |todo|
      invariant f == FoundIn(config, Elements(todo[..i]), flags)
    {
      var before := f;
      f := FindPath(config, todo[i], f);
      FoundOneMore(config, Elements(todo[..i]), todo[i], flags, before, f);
      ElementsStep(todo, i);
    }
    assert todo[..|todo|] == todo;
  }

  lemma {:induction false} ElementsStep(q: seq<string>, i: nat)
    requires i < |q|
    ensures Elements(q[..i + 1]) == Elements(q[..i]) + {q[i]}
  {
    assert q[..i + 1] == q[..i] + [q[i]];
  }

  lemma {:induction false} NothingFound(config: Config, flags: Flags)
    ensures Found({}, flags.Reasons(), {}, {}, flags.Full()) == FoundIn(config, Elements([]), flags)
  {
    assert Elements([]) == {};
  }

  lemma {:induction false} FoundOneMore(config: Config, paths: set<string>, path: string, flags: Flags, f: Found,
                                        g: Found)
    requires f == FoundIn(config, paths, flags) && Adds(config, path, f, g)
    ensures g == FoundIn(config, paths + {path}, flags)
  {
    hide IsGlobal, TestsOf, ReasonsOf, RulesOf, IsUnmapped;
    var h := FoundIn(config, paths + {path}, flags);
    assert g.selected == h.selected;
    assert g.reasons == h.reasons;
    assert g.matched == h.matched;
    assert g.unmapped == h.unmapped;
    assert g.full == h.full;
  }

  // ---------------------------------------------------------------- routing

  datatype Group = Group(id: string, board: string, testIds: seq<string>, files: seq<string>)

  datatype Cell = Cell(groupId: string, board: string, nproc: nat)

  datatype Routes = Routes(groups: seq<Group>, matrix: seq<Cell>)

  predicate ValidProfiles(config: Config)
  {
    config.devices.Keys == BOARDS && forall b :: b in config.devices ==> config.devices[b] == 1
  }

  /** The tests among `ids` that board `b` can run. */
  function IdsOn(config: Config, ids: set<string>, b: string): set<string>
  {
    set t | t in config.catalog && t.id in ids && b in config.Runnable(t) :: t.id
  }

  /** One group and one matrix cell for every board that can run some of the tests. */
  function RoutesTo(config: Config, ids: set<string>, boards: seq<string>): Routes
  {
    if |boards| == 0 then Routes([], [])
    else
      var rest := RoutesTo(config, ids, boards[..|boards| - 1]);
      var b := boards[|boards| - 1];
      var here := IdsOn(config, ids, b);
      if here == {} then rest
      else Routes(rest.groups + [Group(b + "-0", b, Sorted(here), Sorted(FilesOf(config, here)))],
                  rest.matrix + [Cell(b + "-0", b, 1)])
  }

  function RoutesOf(config: Config, ids: set<string>): Routes
  {
    RoutesTo(config, ids, Sorted(BOARDS))
  }

  predicate Routable(config: Config, ids: set<string>)
  {
    && ValidProfiles(config) && ids <= config.Ids()
    && forall t :: t in config.catalog && t.id in ids ==> t.boards != {} && t.boards <= BOARDS
  }

  /** route_tests. */
  method RouteTests(config: Config, testIds: seq<string>) returns (r: Result<Routes>)
    ensures r.Ok? <==> Routable(config, Elements(testIds))
    ensures r.Ok? ==> r.value == RoutesOf(config, Elements(testIds))
  {
    var ids := Elements(testIds);
    if !ValidProfiles(config) {
      return Err(ValueError("Only one device and one group are currently supported"));
    }
    if !(ids <= config.Ids()) {
      return Err(ValueError("Unknown test ID"));
    }
    if exists t :: t in config.catalog && t.id in ids && !(t.boards != {} && t.boards <= BOARDS) {
      return Err(ValueError("No valid route"));
    }
    var routes := BuildRoutes(config, ids);
    r := Ok(routes);
  }

  lemma {:induction false} OneBoardMore(config: Config, ids: set<string>, boards: seq<string>, i: nat)
    requires i < |boards|
    ensures var rest := RoutesTo(config, ids, boards[..i]);
            var here := IdsOn(config, ids, boards[i]);
            RoutesTo(config, ids, boards[..i + 1]) ==
              if here == {} then rest
              else Routes(rest.groups
                + [Group(boards[i] + "-0", boards[i], Sorted(here), Sorted(FilesOf(config, here)))],
                          rest.matrix + [Cell(boards[i] + "-0", boards[i], 1)])
  {
    hide Sorted, IdsOn, FilesOf;
    assert boards[..i + 1][..i] == boards[..i];
  }

  /** One group and one matrix cell per board, boards in sorted order. */
  method BuildRoutes(config: Config, ids: set<string>) returns (routes: Routes)
    ensures routes == RoutesOf(config, ids)
  {
    var boards := Sorted(BOARDS);
    var groups, matrix := [], [];
    for i := 0 to |boards|
      invariant Routes(groups, matrix) == RoutesTo(config, ids, boards[..i])
    {
      hide Sorted, IdsOn, FilesOf, RoutesTo;
      OneBoardMore(config, ids, boards, i);
      var here := IdsOn(config, ids, boards[i]);
      if here != {} {
        groups := groups + [Group(boards[i] + "-0", boards[i], Sorted(here), Sorted(FilesOf(config, here)))];
        matrix := matrix + [Cell(boards[i] + "-0", boards[i], 1)];
      }
    }
    assert boards[..|boards|] == boards;
    routes := Routes(groups, matrix);
  }
}
