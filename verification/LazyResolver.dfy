/** The lazily resolved decode kernels: two module globals and a flag, set once under a lock that is tested twice. Any
    number of threads call the two getters, again and again, and interleave at every read and write of a global. */
module LazyResolver {
  import opened Wrappers

  /** A kernel of the optional package. */
  type Kernel = nat

  datatype Getter = KLast | KLastPacked

  /** Where a thread is. `saw` says that it has found, or made, the flag true during its current call. */
  datatype At =
    | Outside
    | Entered(getter: Getter)
    | FastCheck(getter: Getter)
    | Waiting(getter: Getter)
    | Recheck(getter: Getter)
    | Importing(getter: Getter)
    | SetFirst(getter: Getter, first: Kernel, second: Kernel)
    | SetSecond(getter: Getter, second: Kernel)
    | Publish(getter: Getter)
    | Leaving(getter: Getter, raising: bool, saw: bool)
    | Reading(getter: Getter, saw: bool)

  /** What the world answers in a step: whether the kernels are enabled, what the import yields, whether a failure is
      tolerated, and which getter is called next. */
  datatype Answer = Answer(enabled: bool, imported: Option<(Kernel, Kernel)>, auto: bool, call: Getter)

  /** A finished call: what it returned, and whether it had seen the flag true; or that it raised. */
  datatype Outcome =
    | Returned(getter: Getter, result: Option<Kernel>, saw: bool)
    | Raised(getter: Getter)

  predicate InSection(a: At)
  {
    a.Recheck? || a.Importing? || a.SetFirst? || a.SetSecond? || a.Publish? || a.Leaving?
  }

  /** Between a successful import and the flag. */
  predicate IsWriting(a: At)
  {
    a.SetFirst? || a.SetSecond? || a.Publish?
  }

  predicate IsRaising(a: At)
  {
    a.Leaving? && a.raising
  }

  /** The place a thread moves to, given what the world answers and whether it finds the flag true. */
  function Next(a: At, world: Answer, resolved: bool): At
  {
    match a
    case Outside => if world.enabled then Entered(world.call) else Outside
    case Entered(g) => if world.enabled then FastCheck(g) else Reading(g, false)
    case FastCheck(g) => if resolved then Reading(g, true) else Waiting(g)
    case Waiting(g) => Recheck(g)
    case Recheck(g) =>
      if resolved then Leaving(g, false, true) else if world.enabled then Importing(g) else Leaving(g, false, false)
    case Importing(g) =>
      (match world.imported
       case None => Leaving(g, !world.auto, false)
       case Some(kernels) => SetFirst(g, kernels.0, kernels.1))
    case SetFirst(g, _, second) => SetSecond(g, second)
    case SetSecond(g, _) => Publish(g)
    case Publish(g) => Leaving(g, false, true)
    case Leaving(g, raising, saw) => if raising then Outside else Reading(g, saw)
    case Reading(_, _) => Outside
  }

  /** How many calls raised. */
  ghost function Raises(outcomes: seq<Outcome>): nat
  {
    if |outcomes| == 0 then 0
    else Raises(outcomes[..|outcomes| - 1]) + if outcomes[|outcomes| - 1].Raised? then 1 else 0
  }

  /** The globals, the lock and the places of the threads, with a record of what happened. */
  datatype State = State(resolved: bool, kLast: Option<Kernel>, kLastPacked: Option<Kernel>,
                         holder: Option<nat>,                // the thread that holds the lock
                         threads: seq<At>,
                         imports: seq<(Kernel, Kernel)>,     // what successful imports yielded so far
                         failures: nat,                      // failed imports that were not tolerated
                         writes: nat, writesPacked: nat,     // assignments to each of the two handles so far
                         outcomes: seq<Outcome>)
  {
    /** Only the holder of the lock is in the critical section. */
    ghost predicate Exclusive()
    {
      && (holder.Some? ==> holder.value < |threads| && InSection(threads[holder.value]))
      && forall t :: 0 <= t < |threads| && InSection(threads[t]) ==> holder == Some(t)
    }

    /** The handles are set once, in order, before the flag, and to the two kernels of the only successful import. */
    ghost predicate Ordered()
    {
      && writes == (if kLast.Some? then 1 else 0) && writesPacked == (if kLastPacked.Some? then 1 else 0)
      && (resolved ==> kLast.Some? && kLastPacked.Some?)
      && (kLastPacked.Some? ==> kLast.Some?)
      && |imports| <= 1
      && (kLast.Some? ==> |imports| == 1 && kLast.value == imports[0].0)
      && (kLastPacked.Some? ==> |imports| == 1 && kLastPacked.value == imports[0].1)
    }

    /** What a thread at a given place knows of the globals. */
    ghost predicate Knows(a: At)
    {
      && (a.Importing? ==> kLast == None && !resolved && imports == [])
      && (a.SetFirst? ==> kLast == None && !resolved && imports == [(a.first, a.second)])
      && (a.SetSecond? ==> kLast.Some? && kLastPacked == None && !resolved)
      && (a.SetSecond? ==> |imports| == 1 && imports[0].1 == a.second)
      && (a.Publish? ==> kLastPacked.Some? && !resolved)
      && ((a.Leaving? || a.Reading?) && a.saw ==> resolved)
      && (IsRaising(a) ==> !a.saw)
    }

    ghost predicate SomeWriting()
    {
      exists t :: 0 <= t < |threads| && IsWriting(threads[t])
    }

    ghost predicate SomeRaising()
    {
      exists t :: 0 <= t < |threads| && IsRaising(threads[t])
    }

    /** While nobody is between the import and the flag, an import that succeeded is published; and every failed import
        that was not tolerated has raised unless its thread is about to. */
    ghost predicate Settled()
    {
      && (imports != [] && !SomeWriting() ==> resolved)
      && failures == Raises(outcomes) + if SomeRaising() then 1 else 0
    }

    /** What has been returned so far. */
    ghost predicate Returns()
    {
      forall i :: 0 <= i < |outcomes| && outcomes[i].Returned? ==>
        && (outcomes[i].result.Some? ==>
           outcomes[i].result == if outcomes[i].getter == KLast then kLast else kLastPacked)
        && (outcomes[i].saw ==> outcomes[i].result.Some?)
    }

    ghost predicate Valid()
    {
      Exclusive() && Ordered() && Settled() && Returns() && forall t :: 0 <= t < |threads| ==> Knows(threads[t])
    }

    /** A thread can move unless it waits for a lock that is held. */
    predicate Ready(t: nat)
    {
      t < |threads| && (threads[t].Waiting? ==> holder == None)
    }

    /** Thread `t` makes its next read or write, and nothing else changes. */
    ghost function Moved(t: nat, world: Answer): State
      requires t < |threads|
    {
      var a := threads[t];
      State(
        resolved || a.Publish?,
        if a.SetFirst? then Some(a.first) else kLast,
        if a.SetSecond? then Some(a.second) else kLastPacked,
        if a.Waiting? then Some(t) else if a.Leaving? then None else holder,
        threads[t := Next(a, world, resolved)],
        if a.Importing? && world.imported.Some? then imports + [world.imported.value] else imports,
        failures + (if a.Importing? && world.imported == None && !world.auto then 1 else 0),
        writes + (if a.SetFirst? then 1 else 0),
        writesPacked + (if a.SetSecond? then 1 else 0),
        match a
        case Outside => if world.enabled then outcomes else outcomes + [Returned(world.call, None, false)]
        case Reading(g, saw) => outcomes + [Returned(g, if g == KLast then kLast else kLastPacked, saw)]
        case Leaving(g, raising, _) => if raising then outcomes + [Raised(g)] else outcomes
        case _ => outcomes)
    }

    /** Nothing is ever taken back in the later state `s`: the flag stays true, a handle keeps its value. */
    ghost predicate Grows(s: State)
    {
      && |s.threads| == |threads| && (resolved ==> s.resolved)
      && (kLast.Some? ==> s.kLast == kLast) && (kLastPacked.Some? ==> s.kLastPacked == kLastPacked)
      && outcomes <= s.outcomes && imports <= s.imports
    }
  }

  lemma {:induction false} ExclusiveKept(s: State, t: nat, world: Answer)
    requires s.Valid() && s.Ready(t)
    ensures s.Moved(t, world).Exclusive()
  {
    hide State.Knows, State.Ordered, State.Settled, State.Returns;
  }

  lemma {:induction false} OrderedKept(s: State, t: nat, world: Answer)
    requires s.Valid() && s.Ready(t)
    ensures s.Moved(t, world).Ordered() && s.Moved(t, world).Returns()
  {
    assert s.Knows(s.threads[t]);
    hide State.Exclusive, State.Settled;
  }

  lemma {:induction false} KnowsKept(s: State, t: nat, world: Answer)
    requires s.Valid() && s.Ready(t)
    ensures var m := s.Moved(t, world); forall u :: 0 <= u < |m.threads| ==> m.Knows(m.threads[u])
  {
    var m := s.Moved(t, world);
    hide State.Returns;
    forall u | 0 <= u < |m.threads|
      ensures m.Knows(m.threads[u])
    {
      assert s.Knows(s.threads[u]) && s.Knows(s.threads[t]);
      assert InSection(s.threads[t]) && InSection(s.threads[u]) ==> u == t;
    }
  }

  lemma {:induction false} MoreOutcomes(before: seq<Outcome>, outcome: Outcome)
    ensures Raises(before + [outcome]) == Raises(before) + if outcome.Raised? then 1 else 0
  {
    assert (before + [outcome])[..|before|] == before;
  }

  /** A thread that was about to raise has raised. */
  lemma {:induction false} RaisesCounted(s: State, t: nat, world: Answer)
    requires t < |s.threads|
    ensures Raises(s.Moved(t, world).outcomes) == Raises(s.outcomes) + if IsRaising(s.threads[t]) then 1 else 0
  {
    var outcomes := s.Moved(t, world).outcomes;
    if |outcomes| > |s.outcomes| {
      MoreOutcomes(s.outcomes, outcomes[|s.outcomes|]);
    }
  }

  /** A thread in the section is alone between the import and the flag, and alone in raising; a move outside of it
      changes nothing about that. */
  lemma {:induction false} OthersStay(s: State, t: nat, world: Answer)
    requires s.Exclusive() && s.Ready(t)
    ensures var a, m := s.threads[t], s.Moved(t, world);
            && (m.SomeWriting() <==> IsWriting(m.threads[t]) || (!InSection(a) && s.SomeWriting()))
            && (m.SomeRaising() <==> IsRaising(m.threads[t]) || (!InSection(a) && s.SomeRaising()))
            && (InSection(a) ==> (s.SomeWriting() <==> IsWriting(a)) && (s.SomeRaising() <==> IsRaising(a)))
  {
    var m := s.Moved(t, world);
    assert forall u :: 0 <= u < |s.threads| && u != t ==> m.threads[u] == s.threads[u];
  }

  lemma {:induction false} SettledKept(s: State, t: nat, world: Answer)
    requires s.Valid() && s.Ready(t)
    ensures s.Moved(t, world).Settled()
  {
    assert s.Knows(s.threads[t]);
    RaisesCounted(s, t, world);
    OthersStay(s, t, world);
    hide Raises, State.Returns, State.Exclusive, State.SomeWriting, State.SomeRaising;
  }

  /** A move keeps the state valid and takes nothing back. */
  lemma {:induction false} MoveKeeps(s: State, t: nat, world: Answer)
    requires s.Valid() && s.Ready(t)
    ensures s.Moved(t, world).Valid() && s.Grows(s.Moved(t, world))
  {
    ExclusiveKept(s, t, world);
    OrderedKept(s, t, world);
    KnowsKept(s, t, world);
    SettledKept(s, t, world);
    assert s.Knows(s.threads[t]);
    hide State.Exclusive, State.Ordered, State.Settled, State.Returns;
  }

  /** Some thread can always move: the lock is never held by a thread that waits. */
  lemma {:induction false} NeverStuck(s: State)
    requires s.Valid() && |s.threads| > 0
    ensures exists t :: s.Ready(t)
  {
    if s.holder.Some? {
      assert s.Ready(s.holder.value);
    } else {
      assert s.Ready(0);
    }
  }

  /** The promises of the module, in every state that a run can reach. */
  lemma {:induction false} Promises(s: State, t: nat, u: nat, i: nat)
    requires s.Valid() && t < |s.threads| && u < |s.threads|
    ensures InSection(s.threads[t]) && InSection(s.threads[u]) ==> t == u
    ensures s.writes <= 1 && s.writesPacked <= 1 && |s.imports| <= 1
    ensures s.resolved ==>
              |s.imports| == 1 && s.kLast == Some(s.imports[0].0) && s.kLastPacked == Some(s.imports[0].1)
    ensures i < |s.outcomes| && s.outcomes[i].Returned? && (s.outcomes[i].saw || s.outcomes[i].result.Some?) ==>
              |s.imports| == 1
              && s.outcomes[i].result == Some(if s.outcomes[i].getter == KLast then s.imports[0].0 else s.imports[0].1)
    ensures Raises(s.outcomes) <= s.failures <= Raises(s.outcomes) + 1
    ensures s.holder == None ==> Raises(s.outcomes) == s.failures
  {
  }

  /** The state after a schedule: turns of threads that cannot move are passed over. */
  ghost function After(s: State, schedule: seq<(nat, Answer)>): State
  {
    if |schedule| == 0 then s
    else
      var before, turn := After(s, schedule[..|schedule| - 1]), schedule[|schedule| - 1];
      if before.Ready(turn.0) then before.Moved(turn.0, turn.1) else before
  }

  // ---------------------------------------------------------------- the module

  class Resolver {
    var resolved: bool
    var kLast: Option<Kernel>
    var kLastPacked: Option<Kernel>
    var holder: Option<nat>
    var threads: seq<At>
    ghost var imports: seq<(Kernel, Kernel)>
    ghost var failures: nat
    ghost var writes: nat
    ghost var writesPacked: nat
    ghost var outcomes: seq<Outcome>

    ghost function Now(): State
      reads this
    {
      State(resolved, kLast, kLastPacked, holder, threads, imports, failures, writes, writesPacked, outcomes)
    }

    constructor (n: nat)
      ensures Now() == State(false, None, None, None, seq(n, _ => Outside), [], 0, 0, 0, []) && Now().Valid()
    {
      resolved, kLast, kLastPacked, holder := false, None, None, None;
      threads := seq(n, _ => Outside);
      writes, writesPacked, outcomes, imports, failures := 0, 0, [], [], 0;
    }

    /** Outside the lock: the checks of the getters and the fast path, or the final read. */
    method StepOutside(t: nat, world: Answer)
      requires t < |threads|
      requires threads[t].Outside? || threads[t].Entered? || threads[t].FastCheck? || threads[t].Reading?
      modifies this`threads, this`outcomes
      ensures Now() == old(Now()).Moved(t, world)
    {
      match threads[t]
      case Outside =>
        if world.enabled {
          threads := threads[t := Entered(world.call)];
        } else {
          outcomes := outcomes + [Returned(world.call, None, false)];
          assert threads[t := Outside] == threads;
        }
      case Entered(g) =>
        threads := threads[t := if world.enabled then FastCheck(g) else Reading(g, false)];
      case FastCheck(g) =>
        threads := threads[t := if resolved then Reading(g, true) else Waiting(g)];
      case Reading(g, saw) =>
        outcomes := outcomes + [Returned(g, if g == KLast then kLast else kLastPacked, saw)];
        threads := threads[t := Outside];
    }

    /** Taking and releasing the lock. */
    method StepLock(t: nat, world: Answer)
      requires t < |threads| && (threads[t].Waiting? || threads[t].Leaving?)
      modifies this`threads, this`holder, this`outcomes
      ensures Now() == old(Now()).Moved(t, world)
    {
      match threads[t]
      case Waiting(g) =>
        holder := Some(t);
        threads := threads[t := Recheck(g)];
      case Leaving(g, raising, saw) =>
        holder := None;
        if raising {
          outcomes := outcomes + [Raised(g)];
          threads := threads[t := Outside];
        } else {
          threads := threads[t := Reading(g, saw)];
        }
    }

    /** Under the lock: the second check of the flag, and the import. */
    method StepDecide(t: nat, world: Answer)
      requires t < |threads| && (threads[t].Recheck? || threads[t].Importing?)
      modifies this`threads, this`imports, this`failures
      ensures Now() == old(Now()).Moved(t, world)
    {
      match threads[t]
      case Recheck(g) =>
        if resolved {
          threads := threads[t := Leaving(g, false, true)];
        } else if !world.enabled {
          threads := threads[t := Leaving(g, false, false)];
        } else {
          threads := threads[t := Importing(g)];
        }
      case Importing(g) =>
        if world.imported == None {
          threads := threads[t := Leaving(g, !world.auto, false)];
          failures := failures + if world.auto then 0 else 1;
        } else {
          imports := imports + [world.imported.value];
          threads := threads[t := SetFirst(g, world.imported.value.0, world.imported.value.1)];
        }
    }

    /** Under the lock: the two handles, then the flag. */
    method StepWrite(t: nat, world: Answer)
      requires t < |threads| && IsWriting(threads[t])
      modifies this`threads, this`kLast, this`kLastPacked, this`resolved, this`writes, this`writesPacked
      ensures Now() == old(Now()).Moved(t, world)
    {
      match threads[t]
      case SetFirst(g, first, second) =>
        kLast := Some(first);
        writes := writes + 1;
        threads := threads[t := SetSecond(g, second)];
      case SetSecond(g, second) =>
        kLastPacked := Some(second);
        writesPacked := writesPacked + 1;
        threads := threads[t := Publish(g)];
      case Publish(g) =>
        resolved := true;
        threads := threads[t := Leaving(g, false, true)];
    }

    /** The next read or write of thread `t`. */
    method Step(t: nat, world: Answer)
      requires Now().Valid() && Now().Ready(t)
      modifies this
      ensures Now() == old(Now()).Moved(t, world) && Now().Valid() && old(Now()).Grows(Now())
    {
      hide State.Valid, State.Moved, State.Grows;
      MoveKeeps(Now(), t, world);
      match threads[t]
      case Waiting(_) => StepLock(t, world);
      case Leaving(_, _, _) => StepLock(t, world);
      case Recheck(_) => StepDecide(t, world);
      case Importing(_) => StepDecide(t, world);
      case SetFirst(_, _, _) => StepWrite(t, world);
      case SetSecond(_, _) => StepWrite(t, world);
      case Publish(_) => StepWrite(t, world);
      case _ => StepOutside(t, world);
    }

    /** Every run of any number of threads, whatever imports and settings do. */
    method Run(schedule: seq<(nat, Answer)>)
      requires Now().Valid()
      modifies this
      ensures Now() == After(old(Now()), schedule) && Now().Valid() && old(Now()).Grows(Now())
    {
      hide State.Valid, State.Moved;
      for i := 0 to |schedule|
        invariant Now() == After(old(Now()), schedule[..i]) && Now().Valid() && old(Now()).Grows(Now())
      {
        assert schedule[..i + 1][..i] == schedule[..i];
        if schedule[i].0 < |threads| && (threads[schedule[i].0].Waiting? ==> holder == None) {
          Step(schedule[i].0, schedule[i].1);
        }
      }
      assert schedule[..|schedule|] == schedule;
    }
  }
}
