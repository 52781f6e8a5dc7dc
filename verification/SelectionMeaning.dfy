/** What a selection says, in terms of the configuration: which paths are safe, which tests are selected, and why. */
module SelectionMeaning {
  import opened SortedNames
  import opened Selection

  // ---------------------------------------------------------------- safe paths

  /** A component of a path: the text between two slashes, or between a slash and an end. */
  ghost predicate IsComponent(path: string, i: nat, j: nat)
  {
    && i <= j <= |path| && (i == 0 || path[i - 1] == '/') && (j == |path| || path[j] == '/')
    && forall k :: i <= k < j ==> path[k] != '/'
  }

  ghost predicate AllProper(path: string)
  {
    forall i: nat, j: nat :: IsComponent(path, i, j) && i <= j <= |path| ==> Proper(path[i..j])
  }

  ghost predicate Proper(component: string)
  {
    component != "" && component != "." && component != ".."
  }

  /** The path is read up to its last character that is no slash. */
  ghost predicate ReadTo(path: string, n: nat)
  {
    n <= |path| && (forall k :: n <= k < |path| ==> path[k] == '/') && (n > 0 ==> path[n - 1] != '/')
  }

  lemma {:induction false} SlashesDropped(path: string) returns (n: nat)
    ensures ReadTo(path, n) && WithoutSlashes(path) == path[..n]
    decreases |path|
  {
    if |path| > 0 && path[|path| - 1] == '/' {
      n := SlashesDropped(path[..|path| - 1]);
      assert path[..|path| - 1][..n] == path[..n];
      assert forall k :: n <= k < |path| - 1 ==> path[k] == path[..|path| - 1][k];
    } else {
      n := |path|;
      assert path[..n] == path;
    }
  }

  lemma {:induction false} ComponentsRead(path: string, current: string)
    requires forall k :: 0 <= k < |current| ==> current[k] != '/'
    ensures ProperComponents(path, current) <==> AllProper(current + path)
    decreases |path|
  {
    var whole := current + path;
    if |path| == 0 {
      assert whole == current;
      OnlyComponent(current);
    } else if path[0] == '/' {
      ComponentsRead(path[1..], "");
      assert "" + path[1..] == path[1..];
      ComponentsSplit(current, path[1..], whole);
    } else {
      assert current + [path[0]] + path[1..] == whole;
      ComponentsRead(path[1..], current + [path[0]]);
    }
  }

  lemma {:induction false} OnlyComponent(s: string)
    requires forall k :: 0 <= k < |s| ==> s[k] != '/'
    ensures AllProper(s) <==> Proper(s)
  {
    assert IsComponent(s, 0, |s|) && s[0..|s|] == s;
    assert forall i: nat, j: nat :: IsComponent(s, i, j) ==> i == 0 && j == |s|;
  }

  lemma {:induction false} ComponentsSplit(first: string, rest: string, whole: string)
    requires whole == first + ['/'] + rest && forall k :: 0 <= k < |first| ==> first[k] != '/'
    ensures AllProper(whole) <==> AllProper(rest) && Proper(first)
  {
    FirstComponent(first, rest, whole);
    assert whole[0..|first|] == first;
    hide IsComponent;
    if AllProper(whole) {
      forall i: nat, j: nat | IsComponent(rest, i, j) && i <= j <= |rest|
        ensures Proper(rest[i..j])
      {
        ComponentMoves(first, rest, whole, i, j);
      }
    } else if Proper(first) {
      var i: nat, j: nat :| IsComponent(whole, i, j) && i <= j <= |whole| && !Proper(whole[i..j]);
      ComponentMoves(first, rest, whole, i - |first| - 1, j - |first| - 1);
    }
  }

  lemma {:induction false} FirstComponent(first: string, rest: string, whole: string)
    requires whole == first + ['/'] + rest && forall k :: 0 <= k < |first| ==> first[k] != '/'
    ensures IsComponent(whole, 0, |first|)
    ensures forall i: nat, j: nat :: IsComponent(whole, i, j) ==>
              if i == 0 then j == |first| else |first| + 1 <= i <= j <= |whole|
  {
  }

  lemma {:induction false} ComponentMoves(first: string, rest: string, whole: string, i: nat, j: nat)
    requires whole == first + ['/'] + rest && i <= j <= |rest|
    ensures IsComponent(rest, i, j) <==> IsComponent(whole, |first| + 1 + i, |first| + 1 + j)
    ensures whole[|first| + 1 + i..|first| + 1 + j] == rest[i..j]
  {
    SliceMoves(first, rest, whole, i, j);
    var n := |first| + 1;
    assert forall k :: 0 <= k < |rest| ==> whole[n + k] == rest[k];
    assert forall k :: n <= k < |whole| ==> whole[k] == rest[k - n];
  }

  lemma {:induction false} SliceMoves(first: string, rest: string, whole: string, i: nat, j: nat)
    requires whole == first + ['/'] + rest && i <= j <= |rest|
    ensures whole[|first| + 1 + i..|first| + 1 + j] == rest[i..j]
  {
  }

  /** A character that a path may not contain. */
  ghost predicate Forbidden(c: char)
  {
    c == '\\' || c == '\0' || c == ':' || c == '\n' || c == '\r' || c == '*' || c == '?' || c == '[' || c == ']'
  }

  lemma {:induction false} NoneForbidden(path: string)
    ensures (forall c :: c in path ==> c !in {'\\', '\0', ':', '\n', '\r', '*', '?', '[', ']'})
        <==> forall k :: 0 <= k < |path| ==> !Forbidden(path[k])
  {
    assert forall c :: c in {'\\', '\0', ':', '\n', '\r', '*', '?', '[', ']'} <==> Forbidden(c);
    if forall k :: 0 <= k < |path| ==> !Forbidden(path[k]) {
      forall c | c in path
        ensures !Forbidden(c)
      {
        var k :| 0 <= k < |path| && path[k] == c;
      }
    } else {
      var k :| 0 <= k < |path| && Forbidden(path[k]);
      assert path[k] in path;
    }
  }

  /** A path is safe when it starts with neither a slash nor a dash, has no forbidden character, and every component in
      front of trailing slashes is proper. */
  lemma {:induction false} SafePathExactly(path: string, n: nat)
    requires ReadTo(path, n)
    ensures SafePath(path) <==>
              && |path| > 0 && path[0] != '/' && path[0] != '-'
              && (forall k :: 0 <= k < |path| ==> !Forbidden(path[k]))
              && AllProper(path[..n])
  {
    var m := SlashesDropped(path);
    assert m == n;
    ComponentsRead(path[..n], "");
    assert "" + path[..n] == path[..n];
    NoneForbidden(path);
    hide ProperComponents, AllProper, WithoutSlashes, Forbidden, ReadTo;
  }

  // ---------------------------------------------------------------- rules and tests

  ghost predicate Matching(config: Config, path: string, rule: PathRule)
  {
    || path in rule.paths
    || (exists directory, rest :: directory in rule.prefixes && path == directory + rest)
    || (exists g :: g in rule.globs && config.glob(path, g))
  }

  lemma {:induction false} MatchesExactly(config: Config, path: string, rule: PathRule)
    ensures config.Matches(path, rule) <==> Matching(config, path, rule)
  {
    if p :| p in rule.prefixes && p <= path {
      assert path == p + path[|p|..];
    }
  }

  /** Some board has the test and enough devices for it. */
  ghost predicate CanRun(config: Config, id: string)
  {
    exists t, b :: t in config.catalog && t.id == id
                   && b in config.devices && b in t.boards && config.devices[b] >= t.minDevices
  }

  lemma {:induction false} RunnableExactly(config: Config, id: string)
    ensures id in config.RunnableIds() <==> CanRun(config, id)
  {
    if id in config.RunnableIds() {
      var t :| t in config.catalog && config.Runnable(t) != {} && t.id == id;
      var b :| b in config.Runnable(t);
    }
    if t, b :| t in config.catalog && t.id == id
               && b in config.devices && b in t.boards && config.devices[b] >= t.minDevices {
      assert b in config.Runnable(t);
    }
  }

  /** The path is a test file, or a source rule names it. */
  ghost predicate Known(config: Config, path: string)
  {
    (exists t :: t in config.catalog && t.path == path) || exists r :: r in config.sources && path in r.paths
  }

  ghost predicate Unexplained(config: Config, path: string)
  {
    !Matching(config, path, config.full) && !Known(config, path) && !Matching(config, path, config.noEffect)
  }

  /** The path calls for the test of its own file, and for those of the source rules that name it. */
  ghost predicate Calls(config: Config, path: string, id: string)
  {
    && !Matching(config, path, config.full)
    && ((exists t :: t in config.catalog && t.path == path && t.id == id)
        || exists r :: r in config.sources && path in r.paths && id in r.testIds)
  }

  ghost predicate EverythingRuns(config: Config, paths: set<string>, flags: Flags)
  {
    || flags.force || !flags.complete || !flags.environment
    || exists p :: p in paths && (Matching(config, p, config.full) || Unexplained(config, p))
  }

  ghost predicate CalledFor(config: Config, paths: set<string>, flags: Flags, id: string)
  {
    if EverythingRuns(config, paths, flags) then exists t :: t in config.catalog && t.id == id
    else exists p :: p in paths && Calls(config, p, id)
  }

  lemma {:induction false} PathExactly(config: Config, path: string)
    ensures IsGlobal(config, path) <==> Matching(config, path, config.full)
    ensures IsUnmapped(config, path) <==> Unexplained(config, path)
    ensures forall id :: !IsGlobal(config, path) && id in TestsOf(config, path) <==> Calls(config, path, id)
  {
    MatchesExactly(config, path, config.full);
    MatchesExactly(config, path, config.noEffect);
  }

  lemma {:induction false} FoundExactly(config: Config, paths: set<string>, flags: Flags)
    ensures var f := FoundIn(config, paths, flags);
            && (f.full <==> EverythingRuns(config, paths, flags))
            && forall id :: id in Wanted(config, f) <==> CalledFor(config, paths, flags, id)
  {
    hide IsGlobal, IsUnmapped, TestsOf, Calls, Unexplained, Matching, RulesOf, ReasonsOf;
    forall p
      ensures IsGlobal(config, p) <==> Matching(config, p, config.full)
      ensures IsUnmapped(config, p) <==> Unexplained(config, p)
      ensures forall id :: !IsGlobal(config, p) && id in TestsOf(config, p) <==> Calls(config, p, id)
    {
      PathExactly(config, p);
    }
  }

  /** A selection holds exactly the tests that are called for and that some board can run, with their files; it is full
      exactly when everything must run, and names the rules that matched and the paths nothing explains. */
  lemma {:induction false} SelectedExactly(config: Config, paths: set<string>, flags: Flags)
    ensures var s := Selects(config, paths, flags);
            && (s.mode == Full <==> EverythingRuns(config, paths, flags))
            && (s.mode == Subset <==> s.mode != Full && s.testIds != [])
            && (forall id :: id in s.testIds <==> CalledFor(config, paths, flags, id) && CanRun(config, id))
            && (forall file :: file in s.files <==>
                  exists t :: t in config.catalog && t.id in s.testIds && t.path == file)
            && Increasing(s.testIds) && Increasing(s.files)
  {
    var f := FoundIn(config, paths, flags);
    FoundExactly(config, paths, flags);
    var chosen := Chosen(config, f);
    SortedIncreasing(chosen);
    SortedIncreasing(FilesOf(config, chosen));
    hide FoundIn, Wanted, CalledFor, EverythingRuns, CanRun, Sorted, Increasing, Config.RunnableIds;
    forall id
      ensures id in config.RunnableIds() <==> CanRun(config, id)
    {
      RunnableExactly(config, id);
    }
    assert chosen != {} <==> Sorted(chosen) != [];
  }

  /** The rule is among those that name a changed path, and the path does not already make the selection full. */
  ghost predicate Matched(config: Config, paths: set<string>, id: string)
  {
    exists p, r :: && p in paths && !Matching(config, p, config.full)
                   && r in config.sources && p in r.paths && r.id == id
  }

  lemma {:induction false} MatchedExactly(config: Config, paths: set<string>, flags: Flags, id: string)
    ensures id in FoundIn(config, paths, flags).matched <==> Matched(config, paths, id)
  {
    hide Matching, IsGlobal, IsUnmapped, TestsOf, ReasonsOf;
    forall p
      ensures IsGlobal(config, p) <==> Matching(config, p, config.full)
    {
      PathExactly(config, p);
    }
    if p, r :| && p in paths && !Matching(config, p, config.full)
               && r in config.sources && p in r.paths && r.id == id {
      assert id in RulesOf(config, p);
    }
  }

  /** The matched rules and the unexplained paths of a selection. */
  lemma {:induction false} ListsExactly(config: Config, paths: set<string>, flags: Flags)
    ensures var s := Selects(config, paths, flags);
            && (forall id :: id in s.matched <==> Matched(config, paths, id))
            && (forall p :: p in s.unmapped <==> p in paths && Unexplained(config, p))
            && Increasing(s.matched) && Increasing(s.unmapped)
  {
    var f := FoundIn(config, paths, flags);
    SortedIncreasing(f.matched);
    SortedIncreasing(f.unmapped);
    hide IsGlobal, IsUnmapped, TestsOf, RulesOf, Unexplained, Matching, Matched, ReasonsOf, Chosen, Sorted, Increasing;
    forall p
      ensures IsUnmapped(config, p) <==> Unexplained(config, p)
    {
      PathExactly(config, p);
    }
    forall id
      ensures id in f.matched <==> Matched(config, paths, id)
    {
      MatchedExactly(config, paths, flags, id);
    }
  }

  // ---------------------------------------------------------------- reasons

  /** A changed path gives this reason. */
  ghost predicate PathApplies(config: Config, path: string, reason: string)
  {
    if Matching(config, path, config.full) then
      reason == if "csrc/" <= path then "native_change" else "global_dependency"
    else
      || (reason == "test_changed" && exists t :: t in config.catalog && t.path == path)
      || (reason == "mapped_source" && exists r :: r in config.sources && path in r.paths)
      || (reason == "unmapped_path" && Unexplained(config, path))
  }

  /** Whether a reason is to be given. */
  ghost predicate Applies(config: Config, paths: set<string>, flags: Flags, reason: string)
  {
    || (reason == "forced_full" && flags.force)
    || (reason == "incomplete_diff" && !flags.complete)
    || (reason == "environment_changed" && !flags.environment)
    || (exists p :: p in paths && PathApplies(config, p, reason))
    || (reason == "insufficient_devices" && SomeLeftOut(config, paths, flags))
  }

  /** A test is called for that no board can run. */
  ghost predicate SomeLeftOut(config: Config, paths: set<string>, flags: Flags)
  {
    exists id :: CalledFor(config, paths, flags, id) && !CanRun(config, id)
  }

  lemma {:induction false} PathReasons(config: Config, path: string, reason: string)
    ensures reason in ReasonsOf(config, path) <==> PathApplies(config, path, reason)
  {
    PathExactly(config, path);
    SomeRule(config, path);
    hide Matching, Unexplained, IsUnmapped, RulesOf;
  }

  lemma {:induction false} FoundReasons(config: Config, paths: set<string>, flags: Flags, reason: string)
    ensures Applies(config, paths, flags, reason) <==>
              || reason in FoundIn(config, paths, flags).reasons
              || (reason == "insufficient_devices" && SomeLeftOut(config, paths, flags))
  {
    hide SomeLeftOut, ReasonsOf, PathApplies, IsGlobal, IsUnmapped, TestsOf, RulesOf;
    forall p
      ensures reason in ReasonsOf(config, p) <==> PathApplies(config, p, reason)
    {
      PathReasons(config, p, reason);
    }
  }

  lemma {:induction false} LeftOutExactly(config: Config, paths: set<string>, flags: Flags)
    ensures Wanted(config, FoundIn(config, paths, flags)) - config.RunnableIds() != {}
        <==> SomeLeftOut(config, paths, flags)
  {
    FoundExactly(config, paths, flags);
    hide FoundIn, Wanted, CalledFor, CanRun, Config.RunnableIds;
    forall id
      ensures id in config.RunnableIds() <==> CanRun(config, id)
    {
      RunnableExactly(config, id);
    }
    var missing := Wanted(config, FoundIn(config, paths, flags)) - config.RunnableIds();
    if id :| id in missing {
      assert CalledFor(config, paths, flags, id) && !CanRun(config, id);
    }
    if id :| CalledFor(config, paths, flags, id) && !CanRun(config, id) {
      assert id in missing;
    }
  }

  /** A selection gives exactly the reasons that apply, or says that no device test is concerned when none does. */
  lemma {:induction false} ReasonsExactly(config: Config, paths: set<string>, flags: Flags, reason: string)
    ensures var s := Selects(config, paths, flags);
            && (reason in s.reasons <==>
                  || Applies(config, paths, flags, reason)
                  || (reason == "no_device_changes" && forall other :: !Applies(config, paths, flags, other)))
            && Increasing(s.reasons)
  {
    var f := FoundIn(config, paths, flags);
    SortedIncreasing(GivenReasons(config, f));
    LeftOutExactly(config, paths, flags);
    hide FoundIn, Wanted, SomeLeftOut, Applies, Sorted, Increasing, Config.RunnableIds, Chosen, FilesOf;
    forall other
      ensures Applies(config, paths, flags, other) <==>
                other in f.reasons || (other == "insufficient_devices" && SomeLeftOut(config, paths, flags))
    {
      FoundReasons(config, paths, flags, other);
    }
  }

  // ---------------------------------------------------------------- routing

  /** What the router asks for: one device on each of the two boards, and known tests with known boards. */
  lemma {:induction false} RoutableExactly(config: Config, ids: set<string>)
    ensures Routable(config, ids) <==>
              && config.devices == map["ppu10" := 1, "ppu15" := 1]
              && (forall id :: id in ids ==> exists t :: t in config.catalog && t.id == id)
              && (forall t :: t in config.catalog && t.id in ids ==>
                    t.boards == {"ppu10"} || t.boards == {"ppu15"} || t.boards == {"ppu10", "ppu15"})
  {
    assert ValidProfiles(config) <==> config.devices == map["ppu10" := 1, "ppu15" := 1];
    forall boards: set<string>
      ensures boards != {} && boards <= BOARDS
          <==> boards == {"ppu10"} || boards == {"ppu15"} || boards == {"ppu10", "ppu15"}
    {
      if boards != {} && boards <= BOARDS {
        assert "ppu10" in boards && "ppu15" in boards ==> boards == {"ppu10", "ppu15"};
        assert "ppu10" !in boards ==> boards == {"ppu15"};
        assert "ppu15" !in boards ==> boards == {"ppu10"};
      }
    }
  }
}
