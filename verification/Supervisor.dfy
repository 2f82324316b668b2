/**
 The process supervisor as a concurrent protocol (internal/supervisor/manager_linux.go).

 Each step is one segment that the code runs while holding `mu`, or one event
 of the operating system. `World` holds the manager's fields together with the
 goroutines it has spawned (waits and restart timers), the processes that are
 alive and the channels that have been closed. Steps interleave in any order;
 a step that is not enabled leaves the world as it is, so the theorems below
 quantify over every sequence of steps.
 */
module Supervisor {
  import opened Common

  datatype State = Stopped | Starting | Running | Stopping | Failed

  /** A spawned process, and the `wait` goroutine that waits for it. */
  datatype Command = Command(id: nat, generation: nat)

  /** A pending restart timer with what its closure captured, and the delay it waits for, without its jitter. */
  datatype Timer = Timer(id: nat, generation: nat, done: nat, delay: nat)

  datatype Policy = Policy(maxRestarts: nat, initialDelay: nat, maxDelay: nat)

  datatype World = World(
    // fields of the manager
    state: State,
    generation: nat,
    command: Option<Command>,
    done: Option<nat>,
    stopWanted: bool,
    restartCount: nat,
    // processes and goroutines
    alive: set<Command>,
    waiting: set<Command>,
    timers: set<Timer>,
    spawned: nat,
    armed: nat,
    // channels: `made` counts the ones made, `panicked` records a second close
    made: nat,
    closed: set<nat>,
    panicked: bool,
    // what one Start has done so far
    attempts: nat,
    stableExits: nat)

  const INITIAL := World(
    Stopped, 0, None, None, false, 0,
    {}, {}, {}, 0, 0,
    0, {}, false,
    0, 0)

  // ----- the restart delay

  /** The un-jittered delay before restart number `count`: doubled each time, never above the maximum. */
  function ExpectedDelay(initial: nat, maximum: nat, count: nat): nat {
    if initial > maximum then initial else Min(initial * Pow2(count), maximum)
  }

  /** restartDelayLocked after `count` restarts. */
  function DelayAfter(policy: Policy, count: nat): nat {
    ExpectedDelay(policy.initialDelay, policy.maxDelay, count)
  }

  // ----- the lock-held segments

  function FinishLocked(w: World): World {
    match w.done
    case None => w
    case Some(d) => w.(done := None, closed := w.closed + {d}, panicked := w.panicked || d in w.closed)
  }

  /** startProcessLocked; `ok` is whether the operating system started the process. */
  function StartProcessLocked(w: World, generation: nat, ok: bool): World {
    var tried := w.(attempts := w.attempts + 1);
    if !ok then tried
    else
      var c := Command(w.spawned, generation);
      tried.(command := Some(c), state := Running, alive := w.alive + {c}, waiting := w.waiting + {c},
             spawned := w.spawned + 1)
  }

  function ScheduleRestartLocked(w: World, generation: nat, policy: Policy): World {
    if w.restartCount >= policy.maxRestarts then
      FinishLocked(w.(state := Failed))
    else
      var armed := w.(restartCount := w.restartCount + 1, state := Starting, armed := w.armed + 1);
      match w.done
      case Some(d) =>
        armed.(timers := w.timers + {Timer(w.armed, generation, d, DelayAfter(policy, w.restartCount))})
      // a timer over a nil channel can only be woken by the clock and then finds m.done == done
      case None => armed
  }

  function StartAccepted(w: World): bool {
    w.state != Running && w.state != Starting && w.state != Stopping
  }

  /** The locked part of Start, when it is not refused with ErrAlreadyRunning. */
  function Start(w: World, ok: bool): World
    requires StartAccepted(w)
  {
    var g := w.generation + 1;
    var begun := w.(generation := g, state := Starting, stopWanted := false, restartCount := 0,
                    done := Some(w.made), made := w.made + 1, attempts := 0, stableExits := 0);
    var launched := StartProcessLocked(begun, g, ok);
    if ok then launched else FinishLocked(launched.(state := Failed))
  }

  /** The locked part of Stop; the signal it sends afterwards only makes a process exit. */
  function Stop(w: World): World {
    if w.state == Stopped then w
    else if w.command.None? then
      FinishLocked(w.(stopWanted := true, state := Stopped))
    else
      w.(state := Stopping, stopWanted := true)
  }

  /** The locked part of wait, after command `c` exited; `stable` is whether it outlived the stable window. */
  function Wait(w: World, c: Command, stable: bool, policy: Policy): World {
    var woken := w.(waiting := w.waiting - {c});
    if c.generation != w.generation then woken
    else
      var idle := woken.(command := None);
      if w.stopWanted then
        FinishLocked(idle.(state := Stopped))
      else
        var counted := if stable then idle.(restartCount := 0, stableExits := w.stableExits + 1) else idle;
        ScheduleRestartLocked(counted, c.generation, policy)
  }

  function Live(w: World, t: Timer): bool {
    t.generation == w.generation && !w.stopWanted && w.done == Some(t.done)
  }

  /** The locked part of a restart timer that fired. */
  function Fire(w: World, t: Timer, ok: bool, policy: Policy): World {
    var woken := w.(timers := w.timers - {t});
    if !Live(w, t) then woken
    else
      var launched := StartProcessLocked(woken, t.generation, ok);
      if ok then launched else ScheduleRestartLocked(launched, t.generation, policy)
  }

  // ----- runs

  datatype Event =
    | DoStart(launchOk: bool)
    | DoStop
    | ProcessExits(c: Command)
    | DoWait(c: Command, stable: bool)
    | DoFire(t: Timer, launchOk: bool)
    | TimerSeesDone(t: Timer)

  predicate Enabled(w: World, e: Event) {
    match e
    case DoStart(_) => StartAccepted(w)
    case DoStop => true
    case ProcessExits(c) => c in w.alive
    case DoWait(c, _) => c in w.waiting && c !in w.alive
    case DoFire(t, _) => t in w.timers
    case TimerSeesDone(t) => t in w.timers && t.done in w.closed
  }

  function Step(w: World, e: Event, policy: Policy): World {
    if !Enabled(w, e) then w
    else
      match e
      case DoStart(ok) => Start(w, ok)
      case DoStop => Stop(w)
      case ProcessExits(c) => w.(alive := w.alive - {c})
      case DoWait(c, stable) => Wait(w, c, stable, policy)
      case DoFire(t, ok) => Fire(w, t, ok, policy)
      case TimerSeesDone(t) => w.(timers := w.timers - {t})
  }

  function RunFrom(w: World, events: seq<Event>, policy: Policy): World
    decreases |events|
  {
    if events == [] then w
    else Step(RunFrom(w, events[..|events| - 1], policy), events[|events| - 1], policy)
  }

  function Run(events: seq<Event>, policy: Policy): World {
    RunFrom(INITIAL, events, policy)
  }

  // ----- the invariant

  predicate HoldsDone(s: State) {
    s == Starting || s == Running || s == Stopping
  }

  ghost predicate ChannelsOk(w: World) {
    && !w.panicked
    && (w.done.Some? <==> HoldsDone(w.state))
    && (w.done.Some? ==> w.done.value < w.made && w.done.value !in w.closed)
    && (forall d :: d in w.closed ==> d < w.made)
  }

  ghost predicate ProcessesOk(w: World) {
    && (w.command.Some? <==> w.state == Running || w.state == Stopping)
    && (w.command.Some? ==> w.command.value.generation == w.generation)
    && w.waiting == (if w.command.Some? then {w.command.value} else {})
    && w.alive <= w.waiting
    && (forall c :: c in w.waiting ==> c.id < w.spawned)
  }

  ghost predicate TimersOk(w: World, policy: Policy) {
    && (forall t :: t in w.timers ==> t.id < w.armed && t.generation <= w.generation && t.done < w.made)
    && (forall t :: t in w.timers && Live(w, t) ==> w.state == Starting)
    && (forall t, u :: t in w.timers && u in w.timers && Live(w, t) && Live(w, u) ==> t == u)
    && (w.state == Starting ==> exists t :: t in w.timers && Live(w, t))
    && (forall t :: t in w.timers && Live(w, t) ==>
          w.restartCount > 0 && t.delay == DelayAfter(policy, w.restartCount - 1))
  }

  ghost predicate FlagsOk(w: World) {
    && (w.state == Stopping ==> w.stopWanted)
    && (w.state == Starting || w.state == Running || w.state == Failed ==> !w.stopWanted)
  }

  ghost predicate BudgetOk(w: World, policy: Policy) {
    var paid := if w.state == Starting then 0 else 1;
    && w.restartCount <= policy.maxRestarts
    && w.attempts <= policy.maxRestarts * w.stableExits + w.restartCount + paid
    && (w.stableExits == 0 && w.generation > 0 && w.state != Stopped ==> w.attempts == w.restartCount + paid)
    && (w.state == Failed ==> w.attempts == 1 || w.restartCount == policy.maxRestarts)
  }

  ghost predicate Inv(w: World, policy: Policy) {
    && ChannelsOk(w)
    && ProcessesOk(w)
    && TimersOk(w, policy)
    && FlagsOk(w)
    && BudgetOk(w, policy)
  }

  lemma StartKeepsInv(w: World, ok: bool, policy: Policy)
    requires Inv(w, policy) && StartAccepted(w)
    ensures Inv(Start(w, ok), policy)
  {
    var v := Start(w, ok);
    assert v.timers == w.timers;
    assert forall t :: t in v.timers ==> !Live(v, t);
  }

  lemma StopKeepsInv(w: World, policy: Policy)
    requires Inv(w, policy)
    ensures Inv(Stop(w), policy)
  {
  }

  /** Arming a timer from a world without a live one gives exactly one live timer. */
  lemma ScheduleKeepsInv(w: World, policy: Policy)
    requires ChannelsOk(w) && w.done.Some? && !w.stopWanted
    requires w.command.None? && w.waiting == {} && w.alive == {}
    requires forall t :: t in w.timers ==>
      t.id < w.armed && t.generation <= w.generation && t.done < w.made && !Live(w, t)
    requires w.restartCount <= policy.maxRestarts
    requires w.attempts <= policy.maxRestarts * w.stableExits + w.restartCount + 1
    requires w.stableExits == 0 && w.generation > 0 ==> w.attempts == w.restartCount + 1
    ensures Inv(ScheduleRestartLocked(w, w.generation, policy), policy)
  {
    var v := ScheduleRestartLocked(w, w.generation, policy);
    if w.restartCount < policy.maxRestarts {
      var begun := Timer(w.armed, w.generation, w.done.value, DelayAfter(policy, w.restartCount));
      assert begun in v.timers && Live(v, begun);
      assert forall t :: t in v.timers && Live(v, t) ==> t == begun;
    }
  }

  lemma WaitKeepsInv(w: World, c: Command, stable: bool, policy: Policy)
    requires Inv(w, policy) && c in w.waiting && c !in w.alive
    ensures Inv(Wait(w, c, stable, policy), policy)
  {
    assert w.command == Some(c);
    assert w.waiting - {c} == {} && w.alive == {};
    if !w.stopWanted {
      var idle := w.(waiting := {}, command := None);
      var counted := if stable then idle.(restartCount := 0, stableExits := w.stableExits + 1) else idle;
      assert policy.maxRestarts * (w.stableExits + 1) == policy.maxRestarts * w.stableExits + policy.maxRestarts;
      forall t | t in counted.timers ensures !Live(counted, t) {
        assert Live(counted, t) == Live(w, t);
      }
      ScheduleKeepsInv(counted, policy);
    }
  }

  lemma FireKeepsInv(w: World, t: Timer, ok: bool, policy: Policy)
    requires Inv(w, policy) && t in w.timers
    ensures Inv(Fire(w, t, ok, policy), policy)
  {
    var woken := w.(timers := w.timers - {t});
    forall u | u in woken.timers ensures Live(woken, u) == Live(w, u) {}
    if Live(w, t) {
      assert forall u :: u in woken.timers ==> !Live(woken, u);
      var launched := StartProcessLocked(woken, t.generation, ok);
      assert forall u :: u in launched.timers ==> Live(launched, u) == Live(woken, u);
      if !ok {
        ScheduleKeepsInv(launched, policy);
      }
    } else if w.state == Starting {
      var live :| live in w.timers && Live(w, live);
      assert live in woken.timers && Live(woken, live);
    }
  }

  lemma QuitKeepsInv(w: World, t: Timer, policy: Policy)
    requires Inv(w, policy) && t in w.timers && t.done in w.closed
    ensures Inv(w.(timers := w.timers - {t}), policy)
  {
    var v := w.(timers := w.timers - {t});
    assert !Live(w, t);
    assert forall u :: u in v.timers ==> Live(v, u) == Live(w, u);
    if w.state == Starting {
      var live :| live in w.timers && Live(w, live);
      assert live in v.timers && Live(v, live);
    }
  }

  lemma StepKeepsInv(w: World, e: Event, policy: Policy)
    requires Inv(w, policy)
    ensures Inv(Step(w, e, policy), policy)
  {
    if Enabled(w, e) {
      match e
      case DoStart(ok) => StartKeepsInv(w, ok, policy);
      case DoStop => StopKeepsInv(w, policy);
      case ProcessExits(c) =>
        var v := w.(alive := w.alive - {c});
        assert forall t :: Live(v, t) == Live(w, t);
      case DoWait(c, stable) => WaitKeepsInv(w, c, stable, policy);
      case DoFire(t, ok) => FireKeepsInv(w, t, ok, policy);
      case TimerSeesDone(t) => QuitKeepsInv(w, t, policy);
    }
  }

  lemma {:induction false} RunKeepsInv(events: seq<Event>, policy: Policy)
    ensures Inv(Run(events, policy), policy)
    decreases |events|
  {
    if events != [] {
      RunKeepsInv(events[..|events| - 1], policy);
      StepKeepsInv(Run(events[..|events| - 1], policy), events[|events| - 1], policy);
    }
  }

  // ----- theorems over every run

  /** At most one child is alive, and it is the recorded command of the current generation. */
  lemma AtMostOneChild(events: seq<Event>, policy: Policy)
    ensures
      var w := Run(events, policy);
      && |w.alive| <= 1
      && forall c :: c in w.alive ==> w.command == Some(c) && c.generation == w.generation
  {
    RunKeepsInv(events, policy);
    var w := Run(events, policy);
    if w.alive != {} {
      assert w.alive == {w.command.value};
    }
  }

  /**
   The channel is held exactly in starting, running and stopping; it is then
   open, and no channel is closed twice (which would panic in Go).
   */
  lemma DoneIsHeldExactlyWhileBusy(events: seq<Event>, policy: Policy)
    ensures
      var w := Run(events, policy);
      && (w.done.Some? <==> w.state == Starting || w.state == Running || w.state == Stopping)
      && (w.done.Some? ==> w.done.value !in w.closed)
      && !w.panicked
  {
    RunKeepsInv(events, policy);
  }

  /**
   A timer of another generation, or of this generation before a Stop, only
   goes away when it fires. No wait is ever stale: each pending one is for the
   recorded command of the current generation.
   */
  lemma StaleGoroutinesAreInert(events: seq<Event>, policy: Policy)
    ensures
      var w := Run(events, policy);
      && (forall t, ok :: t in w.timers && (t.generation != w.generation || w.stopWanted || w.done != Some(t.done)) ==>
            Step(w, DoFire(t, ok), policy) == w.(timers := w.timers - {t}))
      && (forall c :: c in w.waiting ==> c.generation == w.generation && w.command == Some(c))
  {
    RunKeepsInv(events, policy);
  }

  /**
   One Start makes at most maxRestarts launches plus maxRestarts more for each
   exit after a stable run, plus the first one. Without a stable run it is
   exactly maxRestarts + 1 launches that end in failure after a launch succeeded.
   */
  lemma RestartBudget(events: seq<Event>, policy: Policy)
    ensures
      var w := Run(events, policy);
      && w.attempts <= policy.maxRestarts * (w.stableExits + 1) + 1
      && (w.stableExits == 0 && w.state == Failed ==> w.attempts == 1 || w.attempts == policy.maxRestarts + 1)
  {
    RunKeepsInv(events, policy);
    var w := Run(events, policy);
    assert policy.maxRestarts * (w.stableExits + 1) == policy.maxRestarts * w.stableExits + policy.maxRestarts;
    GenerationZeroIsStopped(events, policy);
  }

  lemma {:induction false} GenerationZeroIsStopped(events: seq<Event>, policy: Policy)
    ensures Run(events, policy).generation == 0 ==>
              Run(events, policy).state == Stopped && Run(events, policy).timers == {}
    decreases |events|
  {
    if events != [] {
      var before := events[..|events| - 1];
      GenerationZeroIsStopped(before, policy);
      RunKeepsInv(before, policy);
    }
  }

  /**
   Something always remains to be done for a busy manager: a starting one has
   exactly one live timer, whose firing launches the process; a running or
   stopping one has exactly one wait, which once the process exits leaves
   stopping for stopped.
   */
  lemma BusyManagerIsNeverStuck(events: seq<Event>, policy: Policy)
    ensures
      var w := Run(events, policy);
      && (w.state == Starting ==>
            exists t :: t in w.timers && Live(w, t) && Step(w, DoFire(t, true), policy).state == Running)
      && (w.state == Running || w.state == Stopping ==>
            w.command.Some? && w.waiting == {w.command.value})
      && (w.state == Stopping && w.alive == {} ==>
            forall stable :: Step(w, DoWait(w.command.value, stable), policy).state == Stopped)
  {
    RunKeepsInv(events, policy);
    var w := Run(events, policy);
    if w.state == Starting {
      var t :| t in w.timers && Live(w, t);
      assert Step(w, DoFire(t, true), policy).state == Running;
    }
  }

  /**
   The only timer that can still launch waits for the delay that belongs to the restarts before it; without an exit
   after a stable run that is the initial delay doubled once for each launch but the first, up to the maximum.
   */
  lemma RestartsBackOff(events: seq<Event>, policy: Policy, t: Timer)
    requires t in Run(events, policy).timers && Live(Run(events, policy), t)
    ensures
      var w := Run(events, policy);
      && w.restartCount > 0 && t.delay == DelayAfter(policy, w.restartCount - 1)
      && (w.stableExits == 0 ==> w.attempts > 0 && t.delay == DelayAfter(policy, w.attempts - 1))
      && forall u :: u in w.timers && Live(w, u) ==> u == t
  {
    RunKeepsInv(events, policy);
    GenerationZeroIsStopped(events, policy);
  }

  // ----- the restarts of a stretch, counted from the events

  /** The event leaves the manager without a process although nobody wanted it to stop. */
  predicate NeedsRestart(w: World, e: Event) {
    match e
    case DoWait(c, _) => Enabled(w, e) && c.generation == w.generation && !w.stopWanted
    case DoFire(t, ok) => Enabled(w, e) && Live(w, t) && !ok
    case _ => false
  }

  /**
   How many restarts the current stretch has asked for: those since the last Start, or since the last exit after a
   stable run, that exit included.
   */
  function Asked(events: seq<Event>, policy: Policy): nat
    decreases |events|
  {
    if events == [] then 0
    else
      var before, e := events[..|events| - 1], events[|events| - 1];
      var w := Run(before, policy);
      if e.DoStart? && Enabled(w, e) then 0
      else if NeedsRestart(w, e) then (if e.DoWait? && e.stable then 1 else Asked(before, policy) + 1)
      else Asked(before, policy)
  }

  ghost predicate CountsAsked(w: World, asked: nat) {
    w.state == Starting || w.state == Running ==> w.restartCount == asked
  }

  lemma StepCountsAsked(w: World, e: Event, policy: Policy, asked: nat)
    requires Inv(w, policy) && CountsAsked(w, asked)
    ensures
      CountsAsked(
        Step(w, e, policy),
        if e.DoStart? && Enabled(w, e) then 0
        else if NeedsRestart(w, e) then (if e.DoWait? && e.stable then 1 else asked + 1)
        else asked)
  {
  }

  lemma {:induction false} CountMatchesEvents(events: seq<Event>, policy: Policy)
    ensures CountsAsked(Run(events, policy), Asked(events, policy))
    decreases |events|
  {
    if events != [] {
      var before := events[..|events| - 1];
      CountMatchesEvents(before, policy);
      RunKeepsInv(before, policy);
      StepCountsAsked(Run(before, policy), events[|events| - 1], policy, Asked(before, policy));
    }
  }

  lemma RunMore(events: seq<Event>, e: Event, policy: Policy)
    ensures Run(events + [e], policy) == Step(Run(events, policy), e, policy)
  {
    DropLast(events, e);
  }

  lemma NeedMeansBusy(w: World, e: Event, policy: Policy)
    requires Inv(w, policy) && NeedsRestart(w, e)
    ensures w.state == Starting || w.state == Running
    ensures w.restartCount < policy.maxRestarts || (e.DoWait? && e.stable && policy.maxRestarts > 0) ==>
              Step(w, e, policy).state == Starting
    ensures !(w.restartCount < policy.maxRestarts || (e.DoWait? && e.stable && policy.maxRestarts > 0)) ==>
              Step(w, e, policy).state == Failed
  {
  }

  /** The initial delay, doubled `count` times and cut off at the maximum; one above the maximum stays as it is. */
  predicate IsBackOff(delay: nat, initial: nat, maximum: nat, count: nat) {
    if initial > maximum then delay == initial
    else if initial * Pow2(count) <= maximum then delay == initial * Pow2(count)
    else delay == maximum
  }

  /**
   Restart number k of a stretch, counted from the events, is granted exactly if k <= maxRestarts, and then waits
   for min(initial * 2^(k-1), max), or the initial delay if that is above the maximum; otherwise the manager fails.
   */
  lemma RestartsFollowTheEvents(events: seq<Event>, e: Event, policy: Policy)
    requires NeedsRestart(Run(events, policy), e)
    ensures
      var v, k := Run(events + [e], policy), Asked(events + [e], policy);
      && k > 0
      && (v.state == Starting <==> k <= policy.maxRestarts) && (v.state == Failed <==> k > policy.maxRestarts)
      && (k <= policy.maxRestarts ==>
            exists t :: t in v.timers && Live(v, t) && IsBackOff(t.delay, policy.initialDelay, policy.maxDelay, k - 1))
  {
    var w := Run(events, policy);
    RunKeepsInv(events, policy);
    RunMore(events, e, policy);
    DropLast(events, e);
    CountMatchesEvents(events, policy);
    NeedMeansBusy(w, e, policy);
    RunKeepsInv(events + [e], policy);
    CountMatchesEvents(events + [e], policy);
  }

  /** An exit after a stable run starts afresh: it is answered by a restart after the first delay. */
  lemma StableExitStartsAfresh(events: seq<Event>, c: Command, policy: Policy)
    requires policy.maxRestarts > 0
    requires NeedsRestart(Run(events, policy), DoWait(c, true))
    ensures
      var v := Run(events + [DoWait(c, true)], policy);
      v.state == Starting && exists t :: t in v.timers && Live(v, t) && t.delay == policy.initialDelay
  {
    RestartsFollowTheEvents(events, DoWait(c, true), policy);
    DropLast(events, DoWait(c, true));
    assert ExpectedDelay(policy.initialDelay, policy.maxDelay, 0) == policy.initialDelay;
  }

  /** The event is one that puts a process into the world. */
  predicate Launches(w: World, e: Event) {
    match e
    case DoStart(ok) => Enabled(w, e) && ok
    case DoFire(t, ok) => Enabled(w, e) && Live(w, t) && ok
    case _ => false
  }

  /** Which state each event leads to, and that a process appears exactly where one is launched. */
  lemma StateFollowsTheEvents(events: seq<Event>, e: Event, policy: Policy)
    ensures
      var w, v := Run(events, policy), Run(events + [e], policy);
      && (e.DoStart? ==> (Enabled(w, e) <==> w.state == Stopped || w.state == Failed))
      && v.state ==
          (if Launches(w, e) then Running
           else if e.DoStart? && (w.state == Stopped || w.state == Failed) then Failed
           else if e.DoStop? then (if w.state == Running || w.state == Stopping then Stopping else Stopped)
           else if NeedsRestart(w, e) then
             (if Asked(events + [e], policy) <= policy.maxRestarts then Starting else Failed)
           else if e.DoWait? && Enabled(w, e) then Stopped
           else w.state)
      && v.spawned == w.spawned + (if Launches(w, e) then 1 else 0)
      && (Launches(w, e) ==> v.command == Some(Command(w.spawned, v.generation)) && v.alive == {v.command.value})
      && v.generation == w.generation + (if e.DoStart? && Enabled(w, e) then 1 else 0)
  {
    RunKeepsInv(events, policy);
    RunMore(events, e, policy);
    if NeedsRestart(Run(events, policy), e) {
      RestartsFollowTheEvents(events, e, policy);
    }
  }

  predicate NoStart(events: seq<Event>) {
    forall i :: 0 <= i < |events| ==> !events[i].DoStart?
  }

  /** After Stop nothing is launched and the state stays stopping or stopped until the next Start. */
  lemma {:induction false} StopIsFinal(w: World, later: seq<Event>, policy: Policy)
    requires Inv(w, policy) && NoStart(later)
    ensures
      var v := RunFrom(Stop(w), later, policy);
      && Inv(v, policy)
      && (v.state == Stopping || v.state == Stopped)
      && v.spawned == w.spawned && v.attempts == w.attempts && v.generation == w.generation
    decreases |later|
  {
    if later == [] {
      StopKeepsInv(w, policy);
    } else {
      var before := later[..|later| - 1];
      StopIsFinal(w, before, policy);
      StepKeepsInv(RunFrom(Stop(w), before, policy), later[|later| - 1], policy);
    }
  }

  // ----- the manager itself

  class Manager {
    const policy: Policy

    var state: State
    var generation: nat
    var command: Option<Command>
    var done: Option<nat>
    var stopWanted: bool
    var restartCount: nat

    // processes, goroutines and channels that the methods create
    var os: World

    /** The manager's own fields over the processes and goroutines around it. */
    ghost function View(): World
      reads this
    {
      os.(state := state, generation := generation, command := command, done := done,
          stopWanted := stopWanted, restartCount := restartCount)
    }

    constructor (policy: Policy)
      ensures View() == INITIAL && this.policy == policy
    {
      this.policy := policy;
      state, generation, command, done, stopWanted, restartCount := Stopped, 0, None, None, false, 0;
      os := INITIAL;
    }

    method Finish()
      modifies this
      ensures View() == FinishLocked(old(View()))
    {
      if done.Some? {
        os := os.(closed := os.closed + {done.value}, panicked := os.panicked || done.value in os.closed);
        done := None;
      }
    }

    method StartProcess(g: nat, ok: bool)
      modifies this
      ensures View() == StartProcessLocked(old(View()), g, ok)
    {
      os := os.(attempts := os.attempts + 1);
      if ok {
        var c := Command(os.spawned, g);
        os := os.(alive := os.alive + {c}, waiting := os.waiting + {c}, spawned := os.spawned + 1);
        command := Some(c);
        state := Running;
      }
    }

    /** The delay before the next restart, without its jitter. */
    method RestartDelay() returns (delay: nat)
      ensures delay == DelayAfter(policy, restartCount)
    {
      delay := policy.initialDelay;
      var attempt := 0;
      while attempt < restartCount && delay < policy.maxDelay
        invariant attempt <= restartCount
        invariant delay == DelayAfter(policy, attempt)
      {
        DelayDoubles(policy.initialDelay, policy.maxDelay, attempt);
        delay := delay * 2;
        if delay > policy.maxDelay {
          delay := policy.maxDelay;
        }
        attempt := attempt + 1;
      }
      DelaySettles(policy.initialDelay, policy.maxDelay, attempt, restartCount);
    }

    method ScheduleRestart(g: nat)
      modifies this
      ensures View() == ScheduleRestartLocked(old(View()), g, policy)
    {
      if restartCount >= policy.maxRestarts {
        state := Failed;
        Finish();
        return;
      }
      var delay := RestartDelay();
      restartCount := restartCount + 1;
      state := Starting;
      if done.Some? {
        os := os.(timers := os.timers + {Timer(os.armed, g, done.value, delay)});
      }
      os := os.(armed := os.armed + 1);
    }

    /** Start up to the release of the lock; `launchOk` is whether the process could be started. */
    method StartLocked(launchOk: bool) returns (accepted: bool)
      modifies this
      ensures accepted == StartAccepted(old(View()))
      ensures View() == Step(old(View()), DoStart(launchOk), policy)
    {
      if state == Running || state == Starting || state == Stopping {
        return false;
      }
      generation := generation + 1;
      state := Starting;
      stopWanted := false;
      restartCount := 0;
      done := Some(os.made);
      os := os.(made := os.made + 1, attempts := 0, stableExits := 0);
      StartProcess(generation, launchOk);
      if !launchOk {
        state := Failed;
        Finish();
      }
      accepted := true;
    }

    /** Stop up to the release of the lock. */
    method StopLocked()
      modifies this
      ensures View() == Step(old(View()), DoStop, policy)
    {
      if state == Stopped {
        return;
      }
      if command.None? {
        stopWanted := true;
        state := Stopped;
        Finish();
        return;
      }
      state := Stopping;
      stopWanted := true;
    }

    /** The goroutine that waited for `c`, once it holds the lock. */
    method WaitLocked(c: Command, stable: bool)
      requires Enabled(View(), DoWait(c, stable))
      modifies this
      ensures View() == Step(old(View()), DoWait(c, stable), policy)
    {
      os := os.(waiting := os.waiting - {c});
      if c.generation != generation {
        return;
      }
      command := None;
      if stopWanted {
        state := Stopped;
        Finish();
        return;
      }
      if stable {
        restartCount := 0;
        os := os.(stableExits := os.stableExits + 1);
      }
      ScheduleRestart(c.generation);
    }

    /** The goroutine of restart timer `t`, once it holds the lock. */
    method FireLocked(t: Timer, launchOk: bool)
      requires Enabled(View(), DoFire(t, launchOk))
      modifies this
      ensures View() == Step(old(View()), DoFire(t, launchOk), policy)
    {
      os := os.(timers := os.timers - {t});
      if t.generation != generation || stopWanted || done != Some(t.done) {
        return;
      }
      StartProcess(t.generation, launchOk);
      if !launchOk {
        ScheduleRestart(t.generation);
      }
    }
  }

  lemma DelayDoubles(initial: nat, maximum: nat, count: nat)
    requires ExpectedDelay(initial, maximum, count) < maximum
    ensures ExpectedDelay(initial, maximum, count + 1) == Min(2 * ExpectedDelay(initial, maximum, count), maximum)
  {
    assert initial * Pow2(count + 1) == 2 * (initial * Pow2(count));
  }

  lemma {:induction false} DelaySettles(initial: nat, maximum: nat, reached: nat, count: nat)
    requires reached <= count
    requires reached == count || ExpectedDelay(initial, maximum, reached) >= maximum
    ensures ExpectedDelay(initial, maximum, count) == ExpectedDelay(initial, maximum, reached)
    decreases count - reached
  {
    if reached < count {
      assert initial * Pow2(reached + 1) == 2 * (initial * Pow2(reached));
      DelaySettles(initial, maximum, reached + 1, count);
    }
  }
}
