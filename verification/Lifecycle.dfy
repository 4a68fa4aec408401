/**
 * Starting and stopping an application context. Each method is one run of
 * code between two awaits: a call of `start` or `stop`, or the next step of
 * the one `performStart` or of one of the `performStop` runs. Calls from
 * inside a component's own code, while it holds the turn, are left out.
 */
module Lifecycle {
  import opened Text

  type Component = nat

  datatype Phase = New | Starting | Started | Stopping | Stopped | Failed

  /** Where `performStart` is: at a step of factories then bootstraps, undoing a failed start, or done. */
  datatype StartRun = Idle | Running(step: nat) | Unwinding | Succeeded | Rejected

  /** Where a `performStop` is: awaiting the start, stopping components, or done. */
  datatype StopRun = Waiting | Cleaning(threw: bool) | Settled | Threw

  datatype Promise = Resolved | OfStart | OfStop(run: nat) | Refused

  datatype Entry = Push(component: Component) | Pop(component: Component)

  datatype Event =
    | Start(preflight: bool)
    | Step(ok: bool)
    | Unwind
    | Stop
    | Resume(run: nat)
    | StopStep(run: nat, ok: bool)

  function Reverse(s: seq<Component>): (r: seq<Component>)
    ensures |r| == |s|
  {
    if s == [] then [] else Reverse(s[1..]) + [s[0]]
  }

  lemma {:induction false} ReverseLast(s: seq<Component>, c: Component)
    ensures Reverse(s + [c]) == [c] + Reverse(s)
  {
    if s == [] {
      assert ([] + [c])[1..] == [];
    } else {
      assert (s + [c])[1..] == s[1..] + [c];
      ReverseLast(s[1..], c);
    }
  }

  function Pushes(s: seq<Component>): (r: seq<Entry>)
    ensures |r| == |s|
  {
    seq(|s|, i requires 0 <= i < |s| => Push(s[i]))
  }

  function Pops(s: seq<Component>): (r: seq<Entry>)
    ensures |r| == |s|
  {
    seq(|s|, i requires 0 <= i < |s| => Pop(s[i]))
  }

  /** Popping the last started component extends the stops in reverse start order. */
  lemma PopOrder(pushed: seq<Component>, started: seq<Component>, stopped: seq<Component>)
    requires pushed == started + Reverse(stopped) && started != []
    ensures var c := started[|started| - 1]; pushed == started[..|started| - 1] + Reverse(stopped + [c])
    ensures Pushes(pushed) + Pops(stopped) + [Pop(started[|started| - 1])] ==
      Pushes(pushed) + Pops(stopped + [started[|started| - 1]])
  {
    var c := started[|started| - 1];
    ReverseLast(stopped, c);
    assert started == started[..|started| - 1] + [c];
    assert Pops(stopped) + [Pop(c)] == Pops(stopped + [c]);
  }

  lemma {:induction false} ReversePrefix(started: seq<Component>, stopped: seq<Component>)
    ensures stopped <= Reverse(started + Reverse(stopped))
  {
    if stopped == [] {
    } else {
      ReverseLast(started + Reverse(stopped[1..]), stopped[0]);
      assert started + Reverse(stopped[1..]) + [stopped[0]] == started + Reverse(stopped);
      ReversePrefix(started, stopped[1..]);
    }
  }

  /** All components stopped is the stops being the whole start order reversed. */
  lemma AllStopped(pushed: seq<Component>, stopped: seq<Component>)
    requires pushed == [] + Reverse(stopped)
    ensures stopped == Reverse(pushed)
  {
    assert pushed == Reverse(stopped);
    ReverseTwice(stopped);
  }

  lemma {:induction false} ReverseTwice(s: seq<Component>)
    ensures Reverse(Reverse(s)) == s
  {
    if s != [] {
      ReverseTwice(s[1..]);
      ReverseLast(Reverse(s[1..]), s[0]);
    }
  }

  lemma ReplaceLast(runs: seq<StopRun>, a: StopRun, b: StopRun)
    ensures (runs + [a])[|runs| := b] == runs + [b]
  {
  }

  // ----- the steps as functions of the context -----

  /**
   * A context at one moment, with the calls made so far and what was pushed to and popped from the started components.
   */
  datatype Moment = Moment(
    phase: Phase, started: seq<Component>, startRun: StartRun, stopRuns: seq<StopRun>, stopPromise: Option<nat>,
    factoryCalls: seq<Component>, bootstrapCalls: seq<Component>, pushed: seq<Component>, stopCalls: seq<Component>,
    log: seq<Entry>)

  const FRESH := Moment(New, [], Idle, [], None, [], [], [], [], [])

  function Begun(s: Moment, preflight: bool): Moment {
    if s.phase == New then s.(phase := Starting, startRun := if preflight then Running(0) else Unwinding) else s
  }

  /** The next factory or bootstrap of `performStart`, or its end. A throw turns to undoing the start. */
  function Stepped(factories: seq<Component>, bootstraps: seq<Component>, s: Moment, ok: bool): Moment
    requires s.startRun.Running?
  {
    var step := s.startRun.step;
    var next := if ok then Running(step + 1) else Unwinding;
    if step < |factories| then s.(startRun := next, factoryCalls := s.factoryCalls + [factories[step]])
    else if step - |factories| < |bootstraps| then
      var c := bootstraps[step - |factories|];
      var called := s.(startRun := next, bootstrapCalls := s.bootstrapCalls + [c]);
      if ok then called.(started := s.started + [c], pushed := s.pushed + [c], log := s.log + [Push(c)]) else called
    else s.(phase := Started, startRun := Succeeded)
  }

  /** One pop of `cleanup`. */
  function Popped(s: Moment): Moment
    requires s.started != []
  {
    var c := s.started[|s.started| - 1];
    s.(started := s.started[..|s.started| - 1], stopCalls := s.stopCalls + [c], log := s.log + [Pop(c)])
  }

  /** `cleanup` after a failed start, whatever its stops throw. */
  function Unwound(s: Moment): Moment {
    if s.started != [] then Popped(s) else s.(phase := Failed, startRun := Rejected)
  }

  /** `performStop` once it awaits no start. */
  function RunAfter(phase: Phase): StopRun { if phase == New || phase == Failed then Settled else Cleaning(false) }

  function PhaseAfter(phase: Phase): Phase { match phase case New => Stopped case Failed => Failed case _ => Stopping }

  function StopCalled(s: Moment): Moment {
    if s.phase == Stopped || (s.phase == Stopping && s.stopPromise.Some?) then s
    else s.(phase := if s.phase == Starting then Starting else PhaseAfter(s.phase),
            stopRuns := s.stopRuns + [if s.phase == Starting then Waiting else RunAfter(s.phase)],
              stopPromise := Some(|s.stopRuns|))
  }

  /** The awaited start has settled; a rejected one ends the stop. */
  function Resumed(s: Moment, run: nat): Moment
    requires run < |s.stopRuns|
  {
    if s.startRun == Rejected then s.(stopRuns := s.stopRuns[run := Settled])
    else s.(phase := PhaseAfter(s.phase), stopRuns := s.stopRuns[run := RunAfter(s.phase)])
  }

  /**
   * One turn of a stop's `cleanup`: a component, or the end. It reaches `stopped` unless some stop of this run threw.
   */
  function Cleaned(s: Moment, run: nat, ok: bool): Moment
    requires run < |s.stopRuns| && s.stopRuns[run].Cleaning?
  {
    var threw := s.stopRuns[run].threw;
    if s.started != [] then Popped(s).(stopRuns := s.stopRuns[run := Cleaning(threw || !ok)])
    else if threw && s.phase != Starting then s.(stopRuns := s.stopRuns[run := Threw])
    else s.(phase := Stopped, stopRuns := s.stopRuns[run := Settled])
  }

  /** One event; one that is not possible at its turn does nothing. */
  function Next(factories: seq<Component>, bootstraps: seq<Component>, s: Moment, e: Event): Moment {
    match e
    case Start(preflight) => Begun(s, preflight)
    case Step(ok) => if s.startRun.Running? then Stepped(factories, bootstraps, s, ok) else s
    case Unwind => if s.startRun == Unwinding then Unwound(s) else s
    case Stop => StopCalled(s)
    case Resume(run) =>
      if run < |s.stopRuns| && s.stopRuns[run] == Waiting && s.startRun in {Succeeded, Rejected} then Resumed(s, run)
      else s
    case StopStep(run, ok) => if run < |s.stopRuns| && s.stopRuns[run].Cleaning? then Cleaned(s, run, ok) else s
  }

  function Run(factories: seq<Component>, bootstraps: seq<Component>, s: Moment, events: seq<Event>): Moment
    decreases |events|
  {
    if events == [] then s else Run(factories, bootstraps, Next(factories, bootstraps, s, events[0]), events[1..])
  }

  // ----- what every run keeps -----

  /** Components are stopped in reverse start order, and pushing is over before popping begins. */
  ghost predicate Ordered(s: Moment) {
    s.pushed == s.started + Reverse(s.stopCalls) && s.log == Pushes(s.pushed) + Pops(s.stopCalls)
  }

  /** Factories, then bootstraps, are called in order and not twice. */
  ghost predicate Progress(factories: seq<Component>, bootstraps: seq<Component>, s: Moment) {
    match s.startRun
    case Idle => s.factoryCalls == [] && s.bootstrapCalls == [] && s.pushed == []
    case Running(step) =>
      && step <= |factories| + |bootstraps|
      && s.factoryCalls == (if step <= |factories| then factories[..step] else factories)
      && s.bootstrapCalls == (if step <= |factories| then [] else bootstraps[..step - |factories|])
      && s.pushed == s.bootstrapCalls && s.stopCalls == []
    case Succeeded => s.factoryCalls == factories && s.bootstrapCalls == s.pushed == bootstraps
    case _ => s.factoryCalls <= factories && s.bootstrapCalls <= bootstraps && s.pushed <= s.bootstrapCalls
  }

  ghost predicate Phases(s: Moment) {
    && (s.phase == New ==> s.startRun == Idle)
    && (s.phase == Starting <==> s.startRun.Running? || s.startRun == Unwinding)
    && (s.phase == Failed <==> s.startRun == Rejected)
    && (s.phase == Started ==> s.startRun == Succeeded && s.stopCalls == [])
    && (s.phase == Stopping ==> s.startRun == Succeeded && s.stopRuns != [])
    && (s.phase in {Stopped, Failed} ==> s.started == [])
    && (s.startRun == Idle ==> s.started == [])
  }

  ghost predicate Runs(s: Moment) {
    && (s.stopPromise.Some? <==> s.stopRuns != []) && (s.stopPromise.Some? ==> s.stopPromise.value < |s.stopRuns|)
    && forall i :: 0 <= i < |s.stopRuns| ==>
      && (s.stopRuns[i] == Waiting ==> s.startRun != Idle)
      && (s.stopRuns[i].Cleaning? ==> s.phase in {Stopping, Stopped} && s.startRun == Succeeded)
      && (s.stopRuns[i] == Threw ==> s.started == [] && s.startRun == Succeeded)
  }

  ghost predicate Sound(factories: seq<Component>, bootstraps: seq<Component>, s: Moment) {
    Ordered(s) && Progress(factories, bootstraps, s) && Phases(s) && Runs(s)
  }

  lemma BegunKeeps(factories: seq<Component>, bootstraps: seq<Component>, s: Moment, preflight: bool)
    requires Sound(factories, bootstraps, s)
    ensures Sound(factories, bootstraps, Begun(s, preflight))
  {
    assert s.startRun == Idle ==> Reverse(s.stopCalls) == [];
  }

  lemma SteppedKeeps(factories: seq<Component>, bootstraps: seq<Component>, s: Moment, ok: bool)
    requires Sound(factories, bootstraps, s) && s.startRun.Running?
    ensures Sound(factories, bootstraps, Stepped(factories, bootstraps, s, ok))
  {
    var step := s.startRun.step;
    if step < |factories| {
      assert factories[..step + 1] == factories[..step] + [factories[step]];
    } else if step - |factories| < |bootstraps| {
      var next := step - |factories|;
      assert bootstraps[..next + 1] == bootstraps[..next] + [bootstraps[next]];
      assert Pushes(s.pushed + [bootstraps[next]]) == Pushes(s.pushed) + [Push(bootstraps[next])];
    }
  }

  lemma PoppedOrdered(s: Moment)
    requires Ordered(s) && s.started != []
    ensures Ordered(Popped(s))
  {
    PopOrder(s.pushed, s.started, s.stopCalls);
  }

  lemma UnwoundKeeps(factories: seq<Component>, bootstraps: seq<Component>, s: Moment)
    requires Sound(factories, bootstraps, s) && s.startRun == Unwinding
    ensures Sound(factories, bootstraps, Unwound(s))
  {
    if s.started != [] {
      PoppedOrdered(s);
    }
    hide Ordered;
  }

  lemma StopCalledKeeps(factories: seq<Component>, bootstraps: seq<Component>, s: Moment)
    requires Sound(factories, bootstraps, s)
    ensures Sound(factories, bootstraps, StopCalled(s))
  {
    hide Reverse, Pushes, Pops;
  }

  lemma ResumedKeeps(factories: seq<Component>, bootstraps: seq<Component>, s: Moment, run: nat)
    requires Sound(factories, bootstraps, s) && run < |s.stopRuns| && s.stopRuns[run] == Waiting
    requires s.startRun in {Succeeded, Rejected}
    ensures Sound(factories, bootstraps, Resumed(s, run))
  {
  }

  lemma CleanedKeeps(factories: seq<Component>, bootstraps: seq<Component>, s: Moment, run: nat, ok: bool)
    requires Sound(factories, bootstraps, s) && run < |s.stopRuns| && s.stopRuns[run].Cleaning?
    ensures Sound(factories, bootstraps, Cleaned(s, run, ok))
  {
    if s.started != [] {
      PoppedOrdered(s);
    }
    hide Ordered;
  }

  lemma NextKeeps(factories: seq<Component>, bootstraps: seq<Component>, s: Moment, e: Event)
    requires Sound(factories, bootstraps, s)
    ensures Sound(factories, bootstraps, Next(factories, bootstraps, s, e))
  {
    hide Sound, Begun, Stepped, Unwound, StopCalled, Resumed, Cleaned;
    match e
    case Start(preflight) => BegunKeeps(factories, bootstraps, s, preflight);
    case Step(ok) => if s.startRun.Running? { SteppedKeeps(factories, bootstraps, s, ok); }
    case Unwind => if s.startRun == Unwinding { UnwoundKeeps(factories, bootstraps, s); }
    case Stop => StopCalledKeeps(factories, bootstraps, s);
    case Resume(run) =>
      if run < |s.stopRuns| && s.stopRuns[run] == Waiting && s.startRun in {Succeeded, Rejected} {
        ResumedKeeps(factories, bootstraps, s, run);
      }
    case StopStep(run, ok) =>
      if run < |s.stopRuns| && s.stopRuns[run].Cleaning? { CleanedKeeps(factories, bootstraps, s, run, ok); }
  }

  lemma {:induction false} RunKeeps(
      factories: seq<Component>, bootstraps: seq<Component>, s: Moment, events: seq<Event>)
    requires Sound(factories, bootstraps, s)
    ensures Sound(factories, bootstraps, Run(factories, bootstraps, s, events))
    decreases |events|
  {
    hide Sound, Next;
    if events != [] {
      NextKeeps(factories, bootstraps, s, events[0]);
      RunKeeps(factories, bootstraps, Next(factories, bootstraps, s, events[0]), events[1..]);
    }
  }

  /**
   * What every run of events from a new context satisfies: factories and
   * bootstraps ran at most once each, in order, pushes came before pops,
   * components were stopped in reverse start order, and whichever cleanup has
   * ended, after a failed start or a stop, with or without throws, all of them were.
   */
  lemma Reachable(factories: seq<Component>, bootstraps: seq<Component>, events: seq<Event>)
    ensures var s := Run(factories, bootstraps, FRESH, events);
      && s.factoryCalls <= factories && s.bootstrapCalls <= bootstraps && s.pushed <= s.bootstrapCalls
      && s.log == Pushes(s.pushed) + Pops(s.stopCalls) && s.stopCalls <= Reverse(s.pushed)
      && (s.phase == Failed || (s.phase == Stopped && s.startRun != Idle) ||
          (exists i :: 0 <= i < |s.stopRuns| && s.stopRuns[i] == Threw)
          ==> s.stopCalls == Reverse(s.pushed))
  {
    RunKeeps(factories, bootstraps, FRESH, events);
    hide Run;
    var s := Run(factories, bootstraps, FRESH, events);
    ReversePrefix(s.started, s.stopCalls);
    if s.started == [] {
      AllStopped(s.pushed, s.stopCalls);
    }
  }

  // ----- whether a stop reaches `stopped` -----

  /** What the next event is: the stop of a component, called by `run`, throws. */
  predicate ThrowsNow(s: Moment, e: Event, run: nat) {
    e == StopStep(run, false) && run < |s.stopRuns| && s.stopRuns[run].Cleaning? && s.started != []
  }

  /** One of the components that `run` has stopped threw. */
  ghost predicate Throws(factories: seq<Component>, bootstraps: seq<Component>, events: seq<Event>, run: nat) {
    exists n :: 0 <= n < |events| && ThrowsNow(Run(factories, bootstraps, FRESH, events[..n]), events[n], run)
  }

  /** The start has succeeded, some stop was called, and every stop has ended. */
  ghost predicate AllEnded(s: Moment) {
    && s.startRun == Succeeded && s.stopRuns != []
    && forall i :: 0 <= i < |s.stopRuns| ==> s.stopRuns[i] == Settled || s.stopRuns[i] == Threw
  }

  /**
   * A stop that ends without a throw leaves nothing to stop behind, and the
   * context in `stopped` unless another stop has begun since, which then cannot throw.
   */
  ghost predicate Endings(s: Moment) {
    && (s.phase in {New, Starting, Started} ==> forall i :: 0 <= i < |s.stopRuns| ==> s.stopRuns[i] == Waiting)
    && (s.startRun == Succeeded && Settled in s.stopRuns ==>
        s.started == [] && (s.phase == Stopped || Cleaning(false) in s.stopRuns))
    && (s.startRun == Succeeded && s.phase == Stopped ==> Settled in s.stopRuns)
  }

  lemma Replaced(runs: seq<StopRun>, run: nat, r: StopRun, other: StopRun)
    requires run < |runs|
    ensures r in runs[run := r]
    ensures other != r && other != runs[run] ==> (other in runs[run := r] <==> other in runs)
    ensures other in runs && other != runs[run] ==> other in runs[run := r]
    ensures other in runs[run := r] ==> other == r || other in runs
  {
    assert runs[run := r][run] == r;
    if other in runs && other != runs[run] {
      var i :| 0 <= i < |runs| && runs[i] == other;
      assert runs[run := r][i] == other;
    }
  }

  lemma NextEndings(factories: seq<Component>, bootstraps: seq<Component>, s: Moment, e: Event)
    requires Sound(factories, bootstraps, s) && Endings(s)
    ensures Endings(Next(factories, bootstraps, s, e))
  {
    hide Ordered, Progress;
    match e
    case Resume(run) =>
      if run < |s.stopRuns| {
        Replaced(s.stopRuns, run, Cleaning(false), Settled);
        Replaced(s.stopRuns, run, Settled, Settled);
      }
    case StopStep(run, ok) =>
      if run < |s.stopRuns| && s.stopRuns[run].Cleaning? {
        Replaced(s.stopRuns, run, Cleaning(s.stopRuns[run].threw || !ok), Settled);
        Replaced(s.stopRuns, run, Threw, Settled);
        Replaced(s.stopRuns, run, Threw, Cleaning(false));
        Replaced(s.stopRuns, run, Settled, Settled);
      }
    case _ =>
  }

  lemma {:induction false} RunEndings(
      factories: seq<Component>, bootstraps: seq<Component>, s: Moment, events: seq<Event>)
    requires Sound(factories, bootstraps, s) && Endings(s)
    ensures Endings(Run(factories, bootstraps, s, events))
    decreases |events|
  {
    hide Sound, Next, Endings;
    if events != [] {
      NextKeeps(factories, bootstraps, s, events[0]);
      NextEndings(factories, bootstraps, s, events[0]);
      RunEndings(factories, bootstraps, Next(factories, bootstraps, s, events[0]), events[1..]);
    }
  }

  lemma {:induction false} RunConcat(
      factories: seq<Component>, bootstraps: seq<Component>, s: Moment, a: seq<Event>, b: seq<Event>)
    ensures Run(factories, bootstraps, s, a + b) == Run(factories, bootstraps, Run(factories, bootstraps, s, a), b)
    decreases |a|
  {
    hide Next;
    if a == [] {
      assert a + b == b;
    } else {
      assert (a + b)[0] == a[0] && (a + b)[1..] == a[1..] + b;
      RunConcat(factories, bootstraps, Next(factories, bootstraps, s, a[0]), a[1..], b);
    }
  }

  lemma RunLast(factories: seq<Component>, bootstraps: seq<Component>, events: seq<Event>)
    requires events != []
    ensures Run(factories, bootstraps, FRESH, events)
         == Next(factories, bootstraps, Run(factories, bootstraps, FRESH, events[..|events| - 1]), events[|events| - 1])
  {
    hide Next;
    var last := events[|events| - 1];
    assert events == events[..|events| - 1] + [last];
    RunConcat(factories, bootstraps, FRESH, events[..|events| - 1], [last]);
    var s := Run(factories, bootstraps, FRESH, events[..|events| - 1]);
    assert [last][1..] == [];
    assert Run(factories, bootstraps, s, [last]) == Next(factories, bootstraps, s, last);
  }

  /** A stop run has thrown, as its own record has it. */
  predicate Marked(s: Moment, run: nat) {
    run < |s.stopRuns| && (s.stopRuns[run] == Threw || s.stopRuns[run] == Cleaning(true))
  }

  lemma NextMarked(factories: seq<Component>, bootstraps: seq<Component>, s: Moment, e: Event, run: nat)
    requires Sound(factories, bootstraps, s)
    ensures Marked(Next(factories, bootstraps, s, e), run) <==> Marked(s, run) || ThrowsNow(s, e, run)
  {
    hide Ordered, Progress;
  }

  lemma ThrowsLast(factories: seq<Component>, bootstraps: seq<Component>, events: seq<Event>, run: nat)
    requires events != []
    ensures var before := events[..|events| - 1];
      Throws(factories, bootstraps, events, run) <==>
        Throws(factories, bootstraps, before, run) ||
          ThrowsNow(Run(factories, bootstraps, FRESH, before), events[|events| - 1], run)
  {
    hide Run, ThrowsNow;
    var before := events[..|events| - 1];
    assert forall n :: 0 <= n < |before| ==> before[..n] == events[..n] && before[n] == events[n];
    if Throws(factories, bootstraps, events, run) {
      var n :| 0 <= n < |events| && ThrowsNow(Run(factories, bootstraps, FRESH, events[..n]), events[n], run);
      if n < |before| {
        assert ThrowsNow(Run(factories, bootstraps, FRESH, before[..n]), before[n], run);
      }
    }
    if Throws(factories, bootstraps, before, run) {
      var n :| 0 <= n < |before| && ThrowsNow(Run(factories, bootstraps, FRESH, before[..n]), before[n], run);
      assert ThrowsNow(Run(factories, bootstraps, FRESH, events[..n]), events[n], run);
    }
  }

  /** The record of a stop run says whether a stop it called has thrown. */
  lemma {:induction false} MarkedExactly(
      factories: seq<Component>, bootstraps: seq<Component>, events: seq<Event>, run: nat)
    ensures Marked(Run(factories, bootstraps, FRESH, events), run) <==> Throws(factories, bootstraps, events, run)
    decreases |events|
  {
    hide Next, Marked, ThrowsNow, Sound;
    if events == [] {
      NothingMarked(run);
    } else {
      var before := events[..|events| - 1];
      MarkedExactly(factories, bootstraps, before, run);
      FreshSound(factories, bootstraps);
      RunKeeps(factories, bootstraps, FRESH, before);
      RunLast(factories, bootstraps, events);
      ThrowsLast(factories, bootstraps, events, run);
      hide Run, Throws;
      NextMarked(factories, bootstraps, Run(factories, bootstraps, FRESH, before), events[|events| - 1], run);
    }
  }

  lemma NothingMarked(run: nat)
    ensures !Marked(FRESH, run)
  {
  }

  lemma FreshSound(factories: seq<Component>, bootstraps: seq<Component>)
    ensures Sound(factories, bootstraps, FRESH) && Endings(FRESH)
  {
  }

  /** Once every stop has ended nothing happens any more. */
  lemma {:induction false} StuckForEver(
      factories: seq<Component>, bootstraps: seq<Component>, s: Moment, events: seq<Event>)
    requires AllEnded(s) && s.stopPromise.Some? && s.phase in {Stopping, Stopped}
    ensures Run(factories, bootstraps, s, events) == s
    decreases |events|
  {
    if events != [] {
      StuckForEver(factories, bootstraps, s, events[1..]);
    }
  }

  /**
   * Once the start has succeeded and every stop has ended, the context is in
   * `stopped`, and stays there, exactly when some stop run had no throw among
   * the stops it called. Otherwise it is in `stopping` for ever.
   */
  lemma StoppedExactly(factories: seq<Component>, bootstraps: seq<Component>, events: seq<Event>, later: seq<Event>)
    requires AllEnded(Run(factories, bootstraps, FRESH, events))
    ensures var s := Run(factories, bootstraps, FRESH, events);
      var phase := Run(factories, bootstraps, FRESH, events + later).phase;
      && (phase == Stopped <==> exists run :: 0 <= run < |s.stopRuns| && !Throws(factories, bootstraps, events, run))
      && (phase == Stopped || phase == Stopping)
  {
    hide Next, Run, Throws;
    var s := Run(factories, bootstraps, FRESH, events);
    FreshSound(factories, bootstraps);
    RunKeeps(factories, bootstraps, FRESH, events);
    RunEndings(factories, bootstraps, FRESH, events);
    RunConcat(factories, bootstraps, FRESH, events, later);
    assert s.stopRuns[0] != Waiting;
    StuckForEver(factories, bootstraps, s, later);
    forall run | 0 <= run < |s.stopRuns|
      ensures s.stopRuns[run] == Settled <==> !Throws(factories, bootstraps, events, run)
    {
      MarkedExactly(factories, bootstraps, events, run);
    }
    assert Cleaning(false) !in s.stopRuns;
    if Settled in s.stopRuns {
      var run :| 0 <= run < |s.stopRuns| && s.stopRuns[run] == Settled;
      assert !Throws(factories, bootstraps, events, run);
    }
  }

  /** With one call of `stop`, the context reaches `stopped` exactly when no component's stop throws. */
  lemma StoppedOnce(factories: seq<Component>, bootstraps: seq<Component>, events: seq<Event>, later: seq<Event>)
    requires AllEnded(Run(factories, bootstraps, FRESH, events))
    requires |Run(factories, bootstraps, FRESH, events).stopRuns| == 1
    ensures Run(factories, bootstraps, FRESH, events + later).phase == Stopped <==>
      forall run: nat :: !Throws(factories, bootstraps, events, run)
  {
    hide Next, Run, Throws;
    StoppedExactly(factories, bootstraps, events, later);
    forall run: nat | run > 0 ensures !Throws(factories, bootstraps, events, run) {
      MarkedExactly(factories, bootstraps, events, run);
    }
    if !Throws(factories, bootstraps, events, 0) {
      assert exists run :: 0 <= run < 1 && !Throws(factories, bootstraps, events, run);
    }
  }

  // ----- the context -----

  class ApplicationContext {
    const factories: seq<Component>
    const bootstraps: seq<Component>
    var state: Phase
    var startedComponents: seq<Component>
    var startRun: StartRun
    var stopRuns: seq<StopRun>
    var stopPromise: Option<nat>
    // History: the calls made so far and what was pushed to and popped from the started components.
    ghost var factoryCalls: seq<Component>
    ghost var bootstrapCalls: seq<Component>
    ghost var pushed: seq<Component>
    ghost var stopCalls: seq<Component>
    ghost var log: seq<Entry>

    ghost function Now(): Moment
      reads this
    {
      Moment(state, startedComponents, startRun, stopRuns, stopPromise, factoryCalls, bootstrapCalls, pushed,
        stopCalls, log)
    }

    constructor (factories: seq<Component>, bootstraps: seq<Component>)
      ensures this.factories == factories && this.bootstraps == bootstraps && Now() == FRESH
    {
      this.factories, this.bootstraps := factories, bootstraps;
      state, startedComponents, startRun, stopRuns, stopPromise := New, [], Idle, [], None;
      factoryCalls, bootstrapCalls, pushed, stopCalls, log := [], [], [], [], [];
    }

    method CallStart(preflight: bool) returns (p: Promise)
      modifies this`state, this`startRun
      ensures p ==
        if old(state) == Started then Resolved
        else if old(state) in {New, Starting} then OfStart
        else Refused
      ensures Now() == Begun(old(Now()), preflight)
    {
      if state == Started { return Resolved; }
      if state == Starting { return OfStart; }
      if state == Failed { return Refused; }
      if state != New { return Refused; }
      state := Starting;
      startRun := if preflight then Running(0) else Unwinding;
      return OfStart;
    }

    method RunFactory(ok: bool)
      requires startRun.Running? && startRun.step < |factories|
      modifies this`factoryCalls, this`startRun
      ensures Now() == Stepped(factories, bootstraps, old(Now()), ok)
    {
      var step := startRun.step;
      factoryCalls := factoryCalls + [factories[step]];
      startRun := if ok then Running(step + 1) else Unwinding;
    }

    method RunBootstrap(ok: bool)
      requires startRun.Running? && |factories| <= startRun.step < |factories| + |bootstraps|
      modifies this`bootstrapCalls, this`startRun, this`startedComponents, this`pushed, this`log
      ensures Now() == Stepped(factories, bootstraps, old(Now()), ok)
    {
      var next := startRun.step - |factories|;
      var component := bootstraps[next];
      bootstrapCalls := bootstrapCalls + [component];
      if ok {
        startedComponents := startedComponents + [component];
        pushed := pushed + [component];
        log := log + [Push(component)];
      }
      startRun := if ok then Running(startRun.step + 1) else Unwinding;
    }

    method StartStep(ok: bool)
      requires startRun.Running?
      modifies this`state, this`startRun, this`factoryCalls, this`bootstrapCalls, this`startedComponents, this`pushed,
        this`log
      ensures Now() == Stepped(factories, bootstraps, old(Now()), ok)
    {
      if startRun.step < |factories| {
        RunFactory(ok);
      } else if startRun.step < |factories| + |bootstraps| {
        RunBootstrap(ok);
      } else {
        state := Started;
        startRun := Succeeded;
      }
    }

    method PopComponent()
      requires startedComponents != []
      modifies this`startedComponents, this`stopCalls, this`log
      ensures Now() == Popped(old(Now()))
    {
      var component := startedComponents[|startedComponents| - 1];
      startedComponents := startedComponents[..|startedComponents| - 1];
      stopCalls := stopCalls + [component];
      log := log + [Pop(component)];
    }

    /** `cleanup` after a failed start: what a component's stop throws is dropped, since the state is `starting`. */
    method UnwindStep()
      requires startRun == Unwinding
      modifies this`state, this`startRun, this`startedComponents, this`stopCalls, this`log
      ensures Now() == Unwound(old(Now()))
    {
      if startedComponents != [] {
        PopComponent();
      } else {
        state := Failed;
        startRun := Rejected;
      }
    }

    method CallStop() returns (p: Promise)
      modifies this`state, this`stopRuns, this`stopPromise
      ensures Now() == StopCalled(old(Now()))
      ensures p ==
        if old(state) == Stopped then Resolved
        else if old(state) == Stopping && old(stopPromise).Some? then OfStop(old(stopPromise).value)
        else OfStop(|old(stopRuns)|)
    {
      if state == Stopped { return Resolved; }
      if state == Stopping && stopPromise.Some? { return OfStop(stopPromise.value); }
      p := NewStop();
    }

    method NewStop() returns (p: Promise)
      requires !(state == Stopped || (state == Stopping && stopPromise.Some?))
      modifies this`state, this`stopRuns, this`stopPromise
      ensures p == OfStop(|old(stopRuns)|) && Now() == StopCalled(old(Now()))
    {
      stopRuns := stopRuns + [Waiting];
      var run := |stopRuns| - 1;
      stopPromise := Some(run);
      if state != Starting {
        Continue(run);
        ReplaceLast(old(stopRuns), Waiting, RunAfter(old(state)));
      }
      return OfStop(run);
    }

    /** `performStop` once no start is under way. */
    method Continue(run: nat)
      requires run < |stopRuns| && stopRuns[run] == Waiting
      modifies this`state, this`stopRuns
      ensures stopRuns == old(stopRuns)[run := RunAfter(old(state))] && state == PhaseAfter(old(state))
    {
      if state == New {
        state := Stopped;
        stopRuns := stopRuns[run := Settled];
      } else if state == Failed {
        stopRuns := stopRuns[run := Settled];
      } else {
        state := Stopping;
        stopRuns := stopRuns[run := Cleaning(false)];
      }
    }

    method ResumeStop(run: nat)
      requires run < |stopRuns| && stopRuns[run] == Waiting && startRun in {Succeeded, Rejected}
      modifies this`state, this`stopRuns
      ensures Now() == Resumed(old(Now()), run)
    {
      if startRun == Rejected {
        stopRuns := stopRuns[run := Settled];
      } else {
        Continue(run);
      }
    }

    method CleanStep(run: nat, ok: bool)
      requires run < |stopRuns| && stopRuns[run].Cleaning?
      modifies this`state, this`stopRuns, this`startedComponents, this`stopCalls, this`log
      ensures Now() == Cleaned(old(Now()), run, ok)
    {
      if startedComponents != [] {
        PopComponent();
        stopRuns := stopRuns[run := Cleaning(stopRuns[run].threw || !ok)];
      } else if stopRuns[run].threw && state != Starting {
        stopRuns := stopRuns[run := Threw];
      } else {
        state := Stopped;
        stopRuns := stopRuns[run := Settled];
      }
    }

    /** One event of an interleaving. */
    method Do(e: Event)
      modifies this
      ensures Now() == Next(factories, bootstraps, old(Now()), e)
    {
      match e {
        case Start(preflight) =>
          var p := CallStart(preflight);
        case Step(ok) =>
          if startRun.Running? { StartStep(ok); }
        case Unwind =>
          if startRun == Unwinding { UnwindStep(); }
        case Stop =>
          var p := CallStop();
        case Resume(run) =>
          if run < |stopRuns| && stopRuns[run] == Waiting && startRun in {Succeeded, Rejected} { ResumeStop(run); }
        case StopStep(run, ok) =>
          if run < |stopRuns| && stopRuns[run].Cleaning? { CleanStep(run, ok); }
      }
    }
  }

  /** Any interleaving of events from a new context, and its effect. */
  method Interleaving(factories: seq<Component>, bootstraps: seq<Component>, events: seq<Event>)
    returns (c: ApplicationContext)
    ensures fresh(c) && c.Now() == Run(factories, bootstraps, FRESH, events)
  {
    c := new ApplicationContext(factories, bootstraps);
    var i := 0;
    while i < |events|
      invariant fresh(c) && c.factories == factories && c.bootstraps == bootstraps && i <= |events|
      invariant Run(factories, bootstraps, c.Now(), events[i..]) == Run(factories, bootstraps, FRESH, events)
    {
      hide Next;
      c.Do(events[i]);
      assert events[i..][0] == events[i] && events[i..][1..] == events[i + 1..];
      i := i + 1;
    }
  }

  // ----- two runs -----

  lemma RunFive(bootstraps: seq<Component>, s: Moment, a: Event, b: Event, c: Event, d: Event, e: Event)
    ensures Run([], bootstraps, s, [a, b, c, d, e])
         == Next([], bootstraps,
              Next([], bootstraps, Next([], bootstraps, Next([], bootstraps, Next([], bootstraps, s, a), b), c), d), e)
  {
    hide Next, Run;
    var s1 := Next([], bootstraps, s, a);
    var s2 := Next([], bootstraps, s1, b);
    var s3 := Next([], bootstraps, s2, c);
    var s4 := Next([], bootstraps, s3, d);
    var s5 := Next([], bootstraps, s4, e);
    RunFirst(bootstraps, s, a, [b, c, d, e]);
    RunFirst(bootstraps, s1, b, [c, d, e]);
    RunFirst(bootstraps, s2, c, [d, e]);
    RunFirst(bootstraps, s3, d, [e]);
    RunFirst(bootstraps, s4, e, []);
    RunNothing(bootstraps, s5);
    assert [a] + [b, c, d, e] == [a, b, c, d, e] && [b] + [c, d, e] == [b, c, d, e] && [c] + [d, e] == [c, d, e] &&
      [d] + [e] == [d, e] && [e] + [] == [e];
  }

  lemma RunFirst(bootstraps: seq<Component>, s: Moment, e: Event, rest: seq<Event>)
    ensures Run([], bootstraps, s, [e] + rest) == Run([], bootstraps, Next([], bootstraps, s, e), rest)
  {
    assert ([e] + rest)[1..] == rest;
  }

  lemma RunNothing(bootstraps: seq<Component>, s: Moment)
    ensures Run([], bootstraps, s, []) == s
  {
  }

  /** One component is started, and then a stop in which it throws. */
  function ThrowingStop(): seq<Event> {
    [Start(true), Step(true), Step(true), Stop, StopStep(0, false)] + [StopStep(0, true)]
  }

  /** The context when that stop has thrown and the run is about to end. */
  function Thrown(component: Component): Moment {
    Cleaned(StopCalled(Stepped([], [component], Stepped([], [component], Begun(FRESH, true), true), true)), 0, false)
  }

  lemma ThrownIs(component: Component)
    ensures var t := Thrown(component);
      && t.started == [] && t.startRun == Succeeded && t.stopRuns == [Cleaning(true)]
      && t.stopPromise.Some? && t.phase == Stopping
    ensures Run([], [component], FRESH, [Start(true), Step(true), Step(true), Stop, StopStep(0, false)]) ==
      Thrown(component)
  {
    var one := [component];
    var s := Stepped([], one, Stepped([], one, Begun(FRESH, true), true), true);
    assert s.phase == Started && s.started == one && s.stopRuns == [];
    hide Run, Stepped, Begun;
    RunFive(one, FRESH, Start(true), Step(true), Step(true), Stop, StopStep(0, false));
  }

  lemma AfterThrowingStop(component: Component)
    ensures var s := Run([], [component], FRESH, ThrowingStop());
      AllEnded(s) && s.stopPromise.Some? && s.phase == Stopping && s.stopRuns == [Threw]
  {
    hide Run, Stepped, Begun, StopCalled, Thrown;
    var t := Thrown(component);
    ThrownIs(component);
    var before := [Start(true), Step(true), Step(true), Stop, StopStep(0, false)];
    RunConcat([], [component], FRESH, before, [StopStep(0, true)]);
    RunFirst([component], t, StopStep(0, true), []);
    RunNothing([component], Cleaned(t, 0, true));
    assert [StopStep(0, true)] + [] == [StopStep(0, true)];
  }

  /** Its context is in `stopping` whatever comes later. */
  lemma StopThrows(component: Component, later: seq<Event>)
    ensures Run([], [component], FRESH, ThrowingStop() + later).phase == Stopping
  {
    hide *;
    AfterThrowingStop(component);
    StuckForEver([], [component], Run([], [component], FRESH, ThrowingStop()), later);
    RunConcat([], [component], FRESH, ThrowingStop(), later);
  }

  /** Two stops are called while starting; the first one throws, the second finds nothing left. */
  function TwoStopsCalled(): seq<Event> { [Start(true), Stop, Stop, Step(true), Step(true)] }

  function TwoStopsRun(): seq<Event> {
    [Resume(0), Resume(1), StopStep(0, false), StopStep(1, true), StopStep(0, true)]
  }

  lemma AfterTwoStopsCalled(component: Component)
    ensures var s := Run([], [component], FRESH, TwoStopsCalled());
      s.phase == Started && s.startRun == Succeeded && s.started == [component] && s.stopRuns == [Waiting, Waiting]
  {
    var one := [component];
    var s := Stepped([], one, Stepped([], one, StopCalled(StopCalled(Begun(FRESH, true))), true), true);
    assert s.stopRuns == [Waiting, Waiting];
    hide Run;
    RunFive(one, FRESH, Start(true), Stop, Stop, Step(true), Step(true));
  }

  lemma AfterTwoStopsRun(component: Component, s: Moment)
    requires s.phase == Started && s.startRun == Succeeded && s.started == [component]
    requires s.stopRuns == [Waiting, Waiting]
    ensures var t := Run([], [component], s, TwoStopsRun()); t.phase == Stopped && t.stopRuns == [Threw, Settled]
  {
    var u := Resumed(Resumed(s, 0), 1);
    assert u.stopRuns == [Cleaning(false), Cleaning(false)];
    var v := Cleaned(u, 0, false);
    assert v.started == [] && v.stopRuns == [Cleaning(true), Cleaning(false)];
    var w := Cleaned(v, 1, true);
    assert w.phase == Stopped && w.stopRuns == [Cleaning(true), Settled];
    hide Run;
    RunFive([component], s, Resume(0), Resume(1), StopStep(0, false), StopStep(1, true), StopStep(0, true));
  }

  /** The context reaches `stopped` although a stop threw. */
  lemma TwoStops(component: Component)
    ensures var s := Run([], [component], FRESH, TwoStopsCalled() + TwoStopsRun());
      s.phase == Stopped && s.stopRuns == [Threw, Settled]
  {
    hide *;
    AfterTwoStopsCalled(component);
    AfterTwoStopsRun(component, Run([], [component], FRESH, TwoStopsCalled()));
    RunConcat([], [component], FRESH, TwoStopsCalled(), TwoStopsRun());
  }
}
