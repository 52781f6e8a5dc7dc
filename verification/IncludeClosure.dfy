/** The include closure of the ported sources: a worklist over a finite tree of files. Reading a file yields the names
    it includes; where a name is found is decided by the file system and given here as two lookups. */
module IncludeClosure {
  import opened Wrappers
  import opened SortedNames

  /** `includes` lists the names that each file includes; `own` looks a name up next to the including file, `shared`
      under `csrc/`. */
  datatype Tree = Tree(includes: map<string, seq<string>>, own: (string, string) -> Option<string>,
                       shared: string -> Option<string>)
  {
    /** Lookups find files of the tree. */
    ghost predicate Valid()
    {
      && (forall f, name :: f in includes && own(f, name).Some? ==> own(f, name).value in includes)
      && (forall name :: shared(name).Some? ==> shared(name).value in includes)
    }

    /** The including file's own directory first, then `csrc/`. */
    function Resolve(f: string, name: string): Option<string>
    {
      if own(f, name).Some? then own(f, name) else shared(name)
    }

    /** `name`, included by `f`, is the file `g`: next to `f`, or under `csrc/` when nothing of that name is there. */
    ghost predicate Means(f: string, name: string, g: string)
    {
      own(f, name) == Some(g) || (own(f, name) == None && shared(name) == Some(g))
    }

    ghost predicate Edge(f: string, g: string)
    {
      f in includes && exists name :: name in includes[f] && Means(f, name, g)
    }
  }

  /** `path.startswith("csrc/")`: the path consists of that and something behind it. */
  predicate InCsrc(path: string): (inside: bool)
    ensures inside <==> exists rest: string :: path == "csrc/" + rest
  {
    assert "csrc/" <= path ==> path == "csrc/" + path[5..];
    "csrc/" <= path
  }

  /** `f` is `n` includes away from one of the sources. */
  ghost predicate ReachedIn(tree: Tree, sources: seq<string>, f: string, n: nat)
    decreases n
  {
    if n == 0 then f in sources
    else InCsrc(f) && exists g :: ReachedIn(tree, sources, g, n - 1) && tree.Edge(g, f)
  }

  ghost predicate Reached(tree: Tree, sources: seq<string>, f: string)
  {
    exists n: nat :: ReachedIn(tree, sources, f, n)
  }

  /** A file of the closure includes one outside `csrc/`. */
  ghost predicate Escapes(tree: Tree, sources: seq<string>, f: string, g: string)
  {
    Reached(tree, sources, f) && tree.Edge(f, g) && !InCsrc(g)
  }

  /** A file of the closure includes a name that is found nowhere. */
  ghost predicate Dangling(tree: Tree, sources: seq<string>, f: string, name: string)
  {
    Reached(tree, sources, f) && f in tree.includes && name in tree.includes[f]
      && tree.own(f, name) == None && tree.shared(name) == None
  }

  lemma {:induction false} SourceReached(tree: Tree, sources: seq<string>, f: string)
    requires f in sources
    ensures Reached(tree, sources, f)
  {
    assert ReachedIn(tree, sources, f, 0);
  }

  lemma {:induction false} StepReached(tree: Tree, sources: seq<string>, f: string, g: string)
    requires Reached(tree, sources, f) && tree.Edge(f, g) && InCsrc(g)
    ensures Reached(tree, sources, g)
  {
    var n: nat :| ReachedIn(tree, sources, f, n);
    assert ReachedIn(tree, sources, g, n + 1);
  }

  /** A set that contains the sources and is closed under includes contains all that is reached. */
  lemma {:induction false} ClosedContains(tree: Tree, sources: seq<string>, closed: set<string>, f: string, n: nat)
    requires (forall g :: g in sources ==> g in closed)
    requires forall g, h :: g in closed && tree.Edge(g, h) && InCsrc(h) ==> h in closed
    requires ReachedIn(tree, sources, f, n)
    ensures f in closed
    decreases n
  {
    if n > 0 {
      var g :| ReachedIn(tree, sources, g, n - 1) && tree.Edge(g, f);
      ClosedContains(tree, sources, closed, g, n - 1);
    }
  }

  /** The progress of the worklist: `done` are the files that have been read. */
  ghost predicate Progress(tree: Tree, sources: seq<string>, seen: set<string>, queue: seq<string>, done: set<string>,
                           unresolved: set<string>)
  {
    && (forall f :: f in sources ==> f in seen)
    && seen <= tree.includes.Keys && seen == done + Elements(queue)
    && (forall f :: f in seen ==> Reached(tree, sources, f))
    && (forall f :: f in done ==> Handled(tree, f, seen, |tree.includes[f]|))
    && (forall name :: name in unresolved <==>
       exists f :: f in done && name in tree.includes[f] && tree.Resolve(f, name) == None)
  }

  /** The first `n` includes of `f` lead into `seen`, or nowhere. */
  ghost predicate Handled(tree: Tree, f: string, seen: set<string>, n: nat)
  {
    && f in tree.includes && n <= |tree.includes[f]|
    && forall k :: 0 <= k < n ==>
         var target := tree.Resolve(f, tree.includes[f][k]);
         target.Some? ==> InCsrc(target.value) && target.value in seen
  }

  /** Once the queue is empty the files seen are exactly those reached, and no include escapes. */
  lemma {:induction false} Completed(tree: Tree, sources: seq<string>, seen: set<string>, done: set<string>,
                                     unresolved: set<string>)
    requires Progress(tree, sources, seen, [], done, unresolved)
    ensures forall f :: f in seen <==> Reached(tree, sources, f)
    ensures forall f, g :: !Escapes(tree, sources, f, g)
    ensures forall name :: name in unresolved <==> exists f :: Dangling(tree, sources, f, name)
  {
    assert Elements([]) == {};
    forall f, g | f in seen && tree.Edge(f, g)
      ensures InCsrc(g) && g in seen
    {
      var name :| name in tree.includes[f] && tree.Resolve(f, name) == Some(g);
      var k :| 0 <= k < |tree.includes[f]| && tree.includes[f][k] == name;
      assert Handled(tree, f, seen, |tree.includes[f]|);
    }
    forall f | Reached(tree, sources, f)
      ensures f in seen
    {
      var n: nat :| ReachedIn(tree, sources, f, n);
      ClosedContains(tree, sources, seen, f, n);
    }
    forall name | name in unresolved
      ensures exists f :: Dangling(tree, sources, f, name)
    {
      var f :| f in done && name in tree.includes[f] && tree.Resolve(f, name) == None;
      assert Dangling(tree, sources, f, name);
    }
    forall name, f | Dangling(tree, sources, f, name)
      ensures name in unresolved
    {
      assert f in done;
    }
  }

  datatype Closure = Closure(sources: seq<string>, headers: seq<string>, unresolved: seq<string>)

  /** What reading one file changes: the files seen, those of them that are new, in order, and the dangling names. */
  datatype Work = Work(seen: set<string>, added: seq<string>, unresolved: set<string>)

  /** The state after the first `k` includes of `f`, when it was `w0` before. */
  ghost predicate ReadSoFar(tree: Tree, sources: seq<string>, f: string, k: nat, w0: Work, w: Work)
  {
    && f in tree.includes && k <= |tree.includes[f]| && w0.seen <= w.seen <= tree.includes.Keys
       && Handled(tree, f, w.seen, k)
    && (forall g :: g in w.seen ==> Reached(tree, sources, g))
    && w.seen == w0.seen + Elements(w.added) && |w.added| == |w.seen| - |w0.seen|
    && (forall name :: name in w.unresolved <==>
       name in w0.unresolved || (name in tree.includes[f][..k] && tree.Resolve(f, name) == None))
  }

  lemma {:induction false} ReadDangling(tree: Tree, sources: seq<string>, f: string, k: nat, w0: Work, w: Work)
    requires ReadSoFar(tree, sources, f, k, w0, w) && k < |tree.includes[f]|
             && tree.Resolve(f, tree.includes[f][k]) == None
    ensures ReadSoFar(tree, sources, f, k + 1, w0, w.(unresolved := w.unresolved + {tree.includes[f][k]}))
  {
    hide Reached;
    assert tree.includes[f][..k + 1] == tree.includes[f][..k] + [tree.includes[f][k]];
  }

  lemma {:induction false} ReadKnown(tree: Tree, sources: seq<string>, f: string, k: nat, w0: Work, w: Work,
                                     found: string)
    requires ReadSoFar(tree, sources, f, k, w0, w) && k < |tree.includes[f]|
             && tree.Resolve(f, tree.includes[f][k]) == Some(found)
    requires InCsrc(found) && found in w.seen
    ensures ReadSoFar(tree, sources, f, k + 1, w0, w)
  {
    hide Reached;
    assert tree.includes[f][..k + 1] == tree.includes[f][..k] + [tree.includes[f][k]];
  }

  lemma {:induction false} ReadNew(tree: Tree, sources: seq<string>, f: string, k: nat, w0: Work, w: Work,
                                   found: string)
    requires ReadSoFar(tree, sources, f, k, w0, w) && found !in w.seen && found in tree.includes
             && Reached(tree, sources, found)
    ensures ReadSoFar(tree, sources, f, k, w0, Work(w.seen + {found}, w.added + [found], w.unresolved))
  {
    hide Reached;
    assert Elements(w.added + [found]) == Elements(w.added) + {found};
  }

  /** Reads one file. */
  method ReadFile(tree: Tree, ghost sources: seq<string>, f: string, w0: Work) returns (r: Result<Work>)
    requires tree.Valid() && f in tree.includes && Reached(tree, sources, f)
    requires ReadSoFar(tree, sources, f, 0, w0, w0)
    ensures r.Err? ==> exists g :: Escapes(tree, sources, f, g)
    ensures r.Ok? ==> ReadSoFar(tree, sources, f, |tree.includes[f]|, w0, r.value)
  {
    var w := w0;
    var names := tree.includes[f];
    for k := 0 to |names|
      invariant ReadSoFar(tree, sources, f, k, w0, w)
    {
      var target := tree.Resolve(f, names[k]);
      if target == None {
        ReadDangling(tree, sources, f, k, w0, w);
        w := w.(unresolved := w.unresolved + {names[k]});
      } else {
        var found := target.value;
        assert tree.Means(f, names[k], found);
        assert tree.Edge(f, found);
        if !InCsrc(found) {
          assert Escapes(tree, sources, f, found);
          return Err(PortError("include outside csrc/"));
        }
        if found !in w.seen {
          StepReached(tree, sources, f, found);
          ReadNew(tree, sources, f, k, w0, w, found);
          w := Work(w.seen + {found}, w.added + [found], w.unresolved);
        }
        ReadKnown(tree, sources, f, k, w0, w, found);
      }
    }
    r := Ok(w);
  }

  /** _closure_paths: the sources, the headers reached from them, and the includes that resolve nowhere; an error
      exactly when a source is missing or outside `csrc/`, or the closure includes a file outside `csrc/`. */
  method ClosurePaths(tree: Tree, sources: seq<string>) returns (r: Result<Closure>)
    requires tree.Valid()
    ensures r.Ok? <==>
              (forall f :: f in sources ==> f in tree.includes && InCsrc(f))
                && forall f, g :: !Escapes(tree, sources, f, g)
    ensures r.Ok? ==> r.value.sources == sources
    ensures r.Ok? ==>
              Increasing(r.value.headers)
                && forall f :: f in r.value.headers <==> Reached(tree, sources, f) && f !in sources
    ensures r.Ok? ==>
              Increasing(r.value.unresolved)
                && forall name :: name in r.value.unresolved <==> exists f :: Dangling(tree, sources, f, name)
  {
    for i := 0 to |sources|
      invariant forall f :: f in sources[..i] ==> f in tree.includes && InCsrc(f)
    {
      assert sources[..i + 1] == sources[..i] + [sources[i]];
      if sources[i] !in tree.includes {
        assert sources[i] in sources;
        return Err(PortError("the manifest names a file that does not exist"));
      }
      if !InCsrc(sources[i]) {
        assert sources[i] in sources;
        return Err(PortError("the manifest path is outside csrc/"));
      }
    }
    assert sources[..|sources|] == sources;
    r := Worklist(tree, sources);
  }

  method Worklist(tree: Tree, sources: seq<string>) returns (r: Result<Closure>)
    requires tree.Valid() && forall f :: f in sources ==> f in tree.includes && InCsrc(f)
    ensures r.Ok? <==> forall f, g :: !Escapes(tree, sources, f, g)
    ensures r.Ok? ==> r.value.sources == sources
    ensures r.Ok? ==>
              Increasing(r.value.headers)
                && forall f :: f in r.value.headers <==> Reached(tree, sources, f) && f !in sources
    ensures r.Ok? ==>
              Increasing(r.value.unresolved)
                && forall name :: name in r.value.unresolved <==> exists f :: Dangling(tree, sources, f, name)
  {
    var seen, queue, unresolved := Elements(sources), sources, {};
    ghost var done: set<string> := {};
    ProgressStart(tree, sources);
    while queue != []
      invariant Progress(tree, sources, seen, queue, done, unresolved)
      decreases |tree.includes.Keys - seen|, |queue|
    {
      var f := queue[|queue| - 1];
      var rest := queue[..|queue| - 1];
      assert queue == rest + [f];
      ReadStart(tree, sources, seen, rest, f, done, unresolved);
      var outcome := ReadFile(tree, sources, f, Work(seen, [], unresolved));
      if outcome.Err? {
        return Err(outcome.error);
      }
      var w := outcome.value;
      ProgressStep(tree, sources, seen, rest, f, done, unresolved, w);
      hide Progress, ReadSoFar;
      seen, queue, unresolved, done := w.seen, rest + w.added, w.unresolved, done + {f};
    }
    Completed(tree, sources, seen, done, unresolved);
    SortedIncreasing(seen - Elements(sources));
    SortedIncreasing(unresolved);
    r := Ok(Closure(sources, Sorted(seen - Elements(sources)), Sorted(unresolved)));
  }

  lemma {:induction false} ProgressStart(tree: Tree, sources: seq<string>)
    requires forall f :: f in sources ==> f in tree.includes
    ensures Progress(tree, sources, Elements(sources), sources, {}, {})
  {
    forall f | f in sources
      ensures Reached(tree, sources, f)
    {
      SourceReached(tree, sources, f);
    }
  }

  lemma {:induction false} ReadStart(tree: Tree, sources: seq<string>, seen: set<string>, rest: seq<string>, f: string,
                                     done: set<string>,
                                     unresolved: set<string>)
    requires Progress(tree, sources, seen, rest + [f], done, unresolved)
    ensures f in tree.includes && Reached(tree, sources, f)
    ensures ReadSoFar(tree, sources, f, 0, Work(seen, [], unresolved), Work(seen, [], unresolved))
  {
    hide Reached;
    assert (rest + [f])[|rest|] == f;
    assert f in Elements(rest + [f]);
    assert Elements([]) == {};
  }

  /** Reading a file keeps the worklist in order, and either finds new files or shortens the queue. */
  lemma {:induction false} ProgressStep(tree: Tree, sources: seq<string>, seen: set<string>, rest: seq<string>,
                                        f: string, done: set<string>,
                                        unresolved: set<string>, w: Work)
    requires Progress(tree, sources, seen, rest + [f], done, unresolved) && f in tree.includes
    requires ReadSoFar(tree, sources, f, |tree.includes[f]|, Work(seen, [], unresolved), w)
    ensures Progress(tree, sources, w.seen, rest + w.added, done + {f}, w.unresolved)
    ensures w.added == [] ==> w.seen == seen
    ensures w.added != [] ==> |tree.includes.Keys - w.seen| < |tree.includes.Keys - seen|
  {
    hide Reached, Handled, Elements;
    SeenStep(seen, rest, f, done, w.seen, w.added);
    HandledStep(tree, f, seen, w.seen, done);
    assert tree.includes[f][..|tree.includes[f]|] == tree.includes[f];
    UnresolvedStep(tree, f, done, unresolved, w.unresolved);
    Fewer(tree.includes.Keys, seen, w.seen, w.added);
  }

  lemma {:induction false} SeenStep(seen: set<string>, rest: seq<string>, f: string, done: set<string>,
                                    more: set<string>, added: seq<string>)
    requires seen == done + Elements(rest + [f]) && more == seen + Elements(added)
    ensures more == done + {f} + Elements(rest + added)
  {
    assert Elements(rest + [f]) == Elements(rest) + {f};
    assert Elements(rest + added) == Elements(rest) + Elements(added);
  }

  lemma {:induction false} HandledStep(tree: Tree, f: string, seen: set<string>, more: set<string>, done: set<string>)
    requires f in tree.includes && done <= tree.includes.Keys && seen <= more
    requires forall g :: g in done ==> Handled(tree, g, seen, |tree.includes[g]|)
    requires Handled(tree, f, more, |tree.includes[f]|)
    ensures forall g :: g in done + {f} ==> Handled(tree, g, more, |tree.includes[g]|)
  {
    forall g | g in done + {f}
      ensures Handled(tree, g, more, |tree.includes[g]|)
    {
      assert g in done ==> Handled(tree, g, seen, |tree.includes[g]|);
    }
  }

  lemma {:induction false} UnresolvedStep(tree: Tree, f: string, done: set<string>, before: set<string>,
                                          after: set<string>)
    requires f in tree.includes && done <= tree.includes.Keys
    requires forall name :: name in before <==>
               exists g :: g in done && name in tree.includes[g] && tree.Resolve(g, name) == None
    requires forall name :: name in after <==>
               name in before || (name in tree.includes[f] && tree.Resolve(f, name) == None)
    ensures forall name :: name in after <==>
              exists g :: g in done + {f} && name in tree.includes[g] && tree.Resolve(g, name) == None
  {
    forall name
      ensures name in after <==>
                exists g :: g in done + {f} && name in tree.includes[g] && tree.Resolve(g, name) == None
    {
      if name in tree.includes[f] && tree.Resolve(f, name) == None {
        assert f in done + {f};
      }
      if name in before {
        var g :| g in done && name in tree.includes[g] && tree.Resolve(g, name) == None;
        assert g in done + {f};
      }
    }
  }

  lemma {:induction false} Fewer(all: set<string>, seen: set<string>, more: set<string>, added: seq<string>)
    requires seen <= more <= all && more == seen + Elements(added) && |added| == |more| - |seen|
    ensures added == [] ==> more == seen
    ensures added != [] ==> |all - more| < |all - seen|
  {
    if added == [] {
      assert Elements(added) == {};
    } else {
      assert more == seen + (more - seen);
      assert all - seen == (all - more) + (more - seen);
    }
  }

  lemma {:induction false} ReachedFromSet(tree: Tree, sources: seq<string>, others: seq<string>, f: string, n: nat)
    requires Elements(sources) <= Elements(others) && ReachedIn(tree, sources, f, n)
    ensures ReachedIn(tree, others, f, n)
    decreases n
  {
    if n == 0 {
      assert f in Elements(sources);
    } else {
      var g :| ReachedIn(tree, sources, g, n - 1) && tree.Edge(g, f);
      ReachedFromSet(tree, sources, others, g, n - 1);
    }
  }

  /** A shared file stays out of the closure when every file of the closure that includes it by name finds another one
      of that name next to itself. */
  lemma {:induction false} ShadowedStaysOut(tree: Tree, sources: seq<string>, h: string)
    requires h !in sources
    requires forall f, name :: Reached(tree, sources, f) && f in tree.includes && name in tree.includes[f] ==>
               tree.own(f, name) != Some(h) && (tree.shared(name) == Some(h) ==> tree.own(f, name).Some?)
    ensures !Reached(tree, sources, h)
  {
    if n: nat :| ReachedIn(tree, sources, h, n) {
      var g :| ReachedIn(tree, sources, g, n - 1) && tree.Edge(g, h);
      assert Reached(tree, sources, g);
    }
  }

  /** The headers do not depend on the order in which sources are listed and files are visited. */
  lemma {:induction false} OneHeaderList(tree: Tree, sources: seq<string>, others: seq<string>, headers: seq<string>,
                                         headers': seq<string>)
    requires Elements(sources) == Elements(others)
    requires Increasing(headers) && forall f :: f in headers <==> Reached(tree, sources, f) && f !in sources
    requires Increasing(headers') && forall f :: f in headers' <==> Reached(tree, others, f) && f !in others
    ensures headers == headers'
  {
    forall f
      ensures Reached(tree, sources, f) <==> Reached(tree, others, f)
    {
      if Reached(tree, sources, f) {
        var n: nat :| ReachedIn(tree, sources, f, n);
        ReachedFromSet(tree, sources, others, f, n);
      }
      if Reached(tree, others, f) {
        var n: nat :| ReachedIn(tree, others, f, n);
        ReachedFromSet(tree, others, sources, f, n);
      }
    }
    assert forall f :: f in sources <==> f in Elements(sources);
    assert forall f :: f in others <==> f in Elements(others);
    assert Elements(headers) == Elements(headers');
    OneIncreasing(headers, headers');
  }
}
