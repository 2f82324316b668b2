/**
 What holds of the traffic policy on every run, in every interleaving of the
 ticker with any number of Updates.
 */
module TrafficPolicyRuns {
  import opened Common
  import opened TrafficPolicy

  // ----- sustained rates

  /** The rate that event `e` computes in state `w`, if it computes one. */
  function RateOf(w: World, e: Event): Option<int> {
    if e.Tick? && Enabled(w, e) then RateSeen(w.policy, e.now, e.runtime) else None
  }

  predicate Meets(c: Config, rate: int, high: bool) {
    if high then rate >= c.triggerRate else rate <= c.releaseRate
  }

  /** The configuration is `c`, and a rate computed here is on the required side. */
  predicate Holds(w: World, e: Event, c: Config, high: bool) {
    w.policy.config == c && (RateOf(w, e).Some? ==> Meets(c, RateOf(w, e).value, high))
  }

  /** A rate was computed at `since`, and from then on every computed rate met the bound of the unchanged `c`. */
  ghost predicate Sustained(loaded: Config, events: seq<Event>, c: Config, since: int, high: bool) {
    exists j :: 0 <= j < |events| && SustainedFrom(loaded, events, j, c, since, high)
  }

  ghost predicate SustainedFrom(loaded: Config, events: seq<Event>, j: nat, c: Config, since: int, high: bool)
    requires j < |events|
  {
    && events[j].Tick? && events[j].now == since && RateOf(Run(loaded, events[..j]), events[j]).Some?
    && forall k :: j <= k < |events| ==> Holds(Run(loaded, events[..k]), events[k], c, high)
  }

  lemma SustainedExtends(loaded: Config, events: seq<Event>, e: Event, c: Config, since: int, high: bool)
    requires Sustained(loaded, events, c, since, high) && Holds(Run(loaded, events), e, c, high)
    ensures Sustained(loaded, events + [e], c, since, high)
  {
    var all := events + [e];
    var j :| 0 <= j < |events| && SustainedFrom(loaded, events, j, c, since, high);
    forall k | j <= k <= |events| ensures all[..k] == events[..k] {}
    assert events[..|events|] == events;
    assert SustainedFrom(loaded, all, j, c, since, high);
  }

  lemma SustainedStarts(loaded: Config, events: seq<Event>, e: Event, c: Config, high: bool)
    requires e.Tick? && RateOf(Run(loaded, events), e).Some? && Holds(Run(loaded, events), e, c, high)
    ensures Sustained(loaded, events + [e], c, e.now, high)
  {
    DropLast(events, e);
    assert SustainedFrom(loaded, events + [e], |events|, c, e.now, high);
  }

  lemma AboveTick(p: Policy, now: int, r: Runtime)
    requires p.phase == Active ==> p.aboveSince.None?
    requires TickStart(p, now, r).0.aboveSince.Some?
    ensures
      var q := TickStart(p, now, r).0;
      && q.config == p.config
      && (RateSeen(p, now, r).Some? ==> RateSeen(p, now, r).value >= p.config.triggerRate)
      && (q.aboveSince == p.aboveSince || (RateSeen(p, now, r).Some? && q.aboveSince.value == now))
  {
  }

  /** An open high stretch was open before, or this event's rate opened it. */
  lemma AboveStep(w: World, e: Event)
    requires Inv(w) && Step(w, e).policy.aboveSince.Some?
    ensures
      var v := Step(w, e);
      && v.policy.config == w.policy.config && Holds(w, e, w.policy.config, true)
      && (v.policy.aboveSince == w.policy.aboveSince || (RateOf(w, e).Some? && v.policy.aboveSince.value == e.now))
  {
    if e.Tick? && Enabled(w, e) {
      AboveTick(w.policy, e.now, e.runtime);
    }
  }

  predicate StaysLow(v: World) {
    (v.policy.phase == Active || v.tick.Restoring?) && v.policy.belowSince.Some?
  }

  /** A tick leaves a low stretch open only in an active policy, and with a low rate if it computes one. */
  lemma BelowTick(p: Policy, now: int, r: Runtime)
    requires
      var (q, t) := TickStart(p, now, r);
      (q.phase == Active || t.Restoring?) && q.belowSince.Some?
    ensures
      var q := TickStart(p, now, r).0;
      && p.phase == Active && q.config == p.config
      && (RateSeen(p, now, r).Some? ==> RateSeen(p, now, r).value <= p.config.releaseRate)
      && (q.belowSince == p.belowSince || (RateSeen(p, now, r).Some? && q.belowSince.value == now))
  {
  }

  lemma BelowStep(w: World, e: Event)
    requires w.tick.Nothing? || Step(w, e).policy.phase == Active
    requires StaysLow(Step(w, e))
    ensures
      var v := Step(w, e);
      && w.policy.phase == Active
      && v.policy.config == w.policy.config && Holds(w, e, w.policy.config, false)
      && (v.policy.belowSince == w.policy.belowSince || (RateOf(w, e).Some? && v.policy.belowSince.value == e.now))
  {
    if e.Tick? && Enabled(w, e) {
      BelowTick(w.policy, e.now, e.runtime);
    } else {
      assert Step(w, e) == w;
    }
  }

  lemma {:induction false} SinceIsSustained(loaded: Config, events: seq<Event>)
    requires InRange(loaded)
    ensures
      var p := Run(loaded, events).policy;
      && (p.aboveSince.Some? ==> Sustained(loaded, events, p.config, p.aboveSince.value, true))
      && (p.phase == Active && p.belowSince.Some? ==> Sustained(loaded, events, p.config, p.belowSince.value, false))
    decreases |events|
  {
    if events != [] {
      var rest, e := events[..|events| - 1], events[|events| - 1];
      SinceIsSustained(loaded, rest);
      SplitLast(events);
      AboveGoesOn(loaded, rest, e);
      BelowGoesOn(loaded, rest, e);
    }
  }

  lemma AboveGoesOn(loaded: Config, rest: seq<Event>, e: Event)
    requires InRange(loaded)
    requires
      var p := Run(loaded, rest).policy;
      p.aboveSince.Some? ==> Sustained(loaded, rest, p.config, p.aboveSince.value, true)
    ensures
      var v := Run(loaded, rest + [e]).policy;
      v.aboveSince.Some? ==> Sustained(loaded, rest + [e], v.config, v.aboveSince.value, true)
  {
    RunKeepsInv(loaded, rest);
    RunOneMore(loaded, rest, e);
    var w := Run(loaded, rest);
    var v := Step(w, e);
    if v.policy.aboveSince.Some? {
      AboveStep(w, e);
      if v.policy.aboveSince == w.policy.aboveSince {
        SustainedExtends(loaded, rest, e, v.policy.config, v.policy.aboveSince.value, true);
      } else {
        SustainedStarts(loaded, rest, e, v.policy.config, true);
      }
    }
  }

  lemma BelowGoesOn(loaded: Config, rest: seq<Event>, e: Event)
    requires
      var p := Run(loaded, rest).policy;
      p.phase == Active && p.belowSince.Some? ==> Sustained(loaded, rest, p.config, p.belowSince.value, false)
    ensures
      var v := Run(loaded, rest + [e]);
      StaysLow(v) && (v.policy.phase == Active || Run(loaded, rest).tick.Nothing?) ==>
        Sustained(loaded, rest + [e], v.policy.config, v.policy.belowSince.value, false)
  {
    RunOneMore(loaded, rest, e);
    var w := Run(loaded, rest);
    var v := Step(w, e);
    if StaysLow(v) && (v.policy.phase == Active || w.tick.Nothing?) {
      BelowStep(w, e);
      if v.policy.belowSince == w.policy.belowSince {
        SustainedExtends(loaded, rest, e, v.policy.config, v.policy.belowSince.value, false);
      } else {
        SustainedStarts(loaded, rest, e, v.policy.config, false);
      }
    }
  }

  /** Event `e` makes a tick call Apply: it leaves the lock with an Apply to do. */
  predicate TickLeaves(w: World, e: Event) {
    w.tick.Nothing? && !Step(w, e).tick.Nothing?
  }

  /**
   A tick switches to the download pool only after TriggerDurationSeconds in which
   every computed rate reached the trigger under one configuration, and switches
   back only after ReleaseDurationSeconds of rates at or below the release rate.
   */
  lemma SwitchesNeedSustainedRates(loaded: Config, events: seq<Event>, e: Event)
    requires InRange(loaded) && TickLeaves(Run(loaded, events), e)
    ensures
      var c, high := Run(loaded, events).policy.config, Step(Run(loaded, events), e).tick.Switching?;
      && e.Tick?
      && exists since ::
          && Sustained(loaded, events + [e], c, since, high)
          && e.now - since >= (if high then c.triggerSeconds else c.releaseSeconds) * SECOND
  {
    var w := Run(loaded, events);
    var v, c := Step(w, e), w.policy.config;
    RunKeepsInv(loaded, events);
    RunOneMore(loaded, events, e);
    SinceIsSustained(loaded, events);
    if v.tick.Switching? {
      AboveGoesOn(loaded, events, e);
      WholeSecondsReach(e.now - v.policy.aboveSince.value, c.triggerSeconds);
    } else {
      BelowGoesOn(loaded, events, e);
      WholeSecondsReach(e.now - v.policy.belowSince.value, c.releaseSeconds);
    }
  }

  // ----- the cooldown

  /** The end of the cooldown that event `e` starts by finishing a cycle, if it does. */
  function CycleEnd(w: World, e: Event): Option<int> {
    var until := w.policy.config.cooldownSeconds * SECOND;
    if !Enabled(w, e) then None
    else
      match e
      case Tick(now, r) =>
        if w.policy.config.enabled && !CoolingDown(w.policy, now) && Usable(r) && MovedAway(w.policy, r) then
          Some(now + until)
        else None
      case RollbackReturns(ok) => if ok then Some(w.tick.now + until) else None
      case RestoreReturns(ok) => if ok then Some(w.tick.now + until) else None
      case _ => None
  }

  /** The end of the cooldown of the last finished cycle. */
  function LastUntil(loaded: Config, events: seq<Event>): Option<int>
    decreases |events|
  {
    if events == [] then None
    else
      var rest, e := events[..|events| - 1], events[|events| - 1];
      var end := CycleEnd(Run(loaded, rest), e);
      if end.Some? then end else LastUntil(loaded, rest)
  }

  /** The clock that ticks carry never goes back. */
  ghost predicate ClockRuns(events: seq<Event>) {
    forall i, j :: 0 <= i < j < |events| && events[i].Tick? && events[j].Tick? ==> events[i].now <= events[j].now
  }

  ghost predicate ClockReached(events: seq<Event>, t: int) {
    exists j :: 0 <= j < |events| && events[j].Tick? && events[j].now >= t
  }

  lemma CooldownStep(w: World, e: Event)
    ensures
      var v := Step(w, e).policy.cooldownUntil;
      if CycleEnd(w, e).Some? then v == CycleEnd(w, e)
      else
        || v == w.policy.cooldownUntil
        || (v.None? && e.Tick? && w.policy.cooldownUntil.Some? && e.now >= w.policy.cooldownUntil.value)
  {
  }

  ghost predicate CooldownKnown(loaded: Config, events: seq<Event>) {
    var last := LastUntil(loaded, events);
    last.Some? ==>
      || Run(loaded, events).policy.cooldownUntil == last
      || (Run(loaded, events).policy.cooldownUntil.None? && ClockReached(events, last.value))
  }

  lemma {:induction false} CooldownIsKnown(loaded: Config, events: seq<Event>)
    ensures CooldownKnown(loaded, events)
    decreases |events|
  {
    if events != [] {
      var rest, e := events[..|events| - 1], events[|events| - 1];
      CooldownIsKnown(loaded, rest);
      CooldownStep(Run(loaded, rest), e);
      var last := LastUntil(loaded, events);
      if last.Some? && Run(loaded, events).policy.cooldownUntil != last {
        if Run(loaded, rest).policy.cooldownUntil == last {
          assert events[|events| - 1].now >= last.value;
        } else {
          var j :| 0 <= j < |rest| && rest[j].Tick? && rest[j].now >= last.value;
          assert events[j] == rest[j];
        }
        assert ClockReached(events, last.value);
      }
    }
  }

  /** No tick calls Apply before the cooldown of the last finished cycle is over. */
  lemma NoApplyDuringCooldown(loaded: Config, events: seq<Event>, e: Event)
    requires ClockRuns(events + [e]) && TickLeaves(Run(loaded, events), e)
    requires LastUntil(loaded, events).Some?
    ensures e.Tick? && e.now >= LastUntil(loaded, events).value
  {
    CooldownIsKnown(loaded, events);
    var last := LastUntil(loaded, events).value;
    if Run(loaded, events).policy.cooldownUntil.None? {
      var all := events + [e];
      var j :| 0 <= j < |events| && events[j].Tick? && events[j].now >= last;
      assert all[j] == events[j] && all[|events|] == e;
    }
  }

  // ----- the windows without the lock

  function RunFrom(w: World, events: seq<Event>): World
    decreases |events|
  {
    if events == [] then w else Step(RunFrom(w, events[..|events| - 1]), events[|events| - 1])
  }

  /** tick is still in its Apply. */
  ghost predicate StillOut(events: seq<Event>) {
    forall k :: 0 <= k < |events| ==>
      !events[k].SwitchReturns? && !events[k].RollbackReturns? && !events[k].RestoreReturns?
  }

  predicate InWindow(w: World) {
    && !w.tick.Nothing?
    && w.policy.phase == if w.tick.Switching? then Triggering else Recovering
  }

  lemma {:induction false} WindowStays(w: World, events: seq<Event>)
    requires InWindow(w) && w.updates == multiset{} && StillOut(events)
    ensures RunFrom(w, events) == w
    decreases |events|
  {
    if events != [] {
      WindowStays(w, events[..|events| - 1]);
    }
  }

  /**
   While tick is out of its lock nobody changes configuration, original or state,
   exactly if no Update was still in its own Apply when tick left.
   */
  lemma WindowIsExclusiveExactly(w: World, e: Event)
    requires Enabled(w, e) && (e.Tick? || e.SwitchReturns?) && !Step(w, e).tick.Nothing?
    ensures
      var v := Step(w, e);
      w.updates == multiset{} <==> forall events :: StillOut(events) ==> RunFrom(v, events).policy == v.policy
  {
    var v := Step(w, e);
    assert InWindow(v) && v.updates == w.updates;
    if w.updates == multiset{} {
      forall events | StillOut(events) ensures RunFrom(v, events).policy == v.policy {
        WindowStays(v, events);
      }
    } else {
      var t :| t in w.updates;
      var events := [UpdateReturns(t, true)];
      assert events[..0] == [] && StillOut(events);
      assert RunFrom(v, events).policy.phase == Disabled;
    }
  }

  /** A tick never starts to switch while an Update is in its Apply. */
  ghost predicate Disciplined(loaded: Config, events: seq<Event>) {
    forall k :: 0 <= k < |events| ==>
      Switches(Run(loaded, events[..k]), events[k]) ==> Run(loaded, events[..k]).updates == multiset{}
  }

  predicate Switches(w: World, e: Event) {
    TickLeaves(w, e) && Step(w, e).tick.Switching?
  }

  /** The policy is active, and will go back to this target. */
  predicate ActiveFrom(w: World, target: Target) {
    w.policy.phase == Active && w.policy.original == target
  }

  lemma RunFromMore(w: World, events: seq<Event>, e: Event)
    ensures RunFrom(w, events + [e]) == Step(RunFrom(w, events), e)
  {
    DropLast(events, e);
  }

  predicate Forgotten(w: World) {
    w.tick.Switching? && w.policy.original == NO_TARGET
  }

  lemma UpdateForgets(p: Policy, input: Config, poolReady: bool, persisted: bool)
    requires p.original == NO_TARGET
    ensures UpdateStart(p, input, poolReady, persisted).0.original == NO_TARGET
  {
  }

  lemma ForgottenStep(w: World, e: Event)
    requires Forgotten(w) && !e.SwitchReturns?
    ensures Forgotten(Step(w, e))
  {
    if e.Update? {
      UpdateForgets(w.policy, e.input, e.poolReady, e.persisted);
    }
  }

  /** While a tick is out, nothing gives the policy an original target other than none at all. */
  lemma {:induction false} ForgottenStaysForgotten(w: World, events: seq<Event>)
    requires Forgotten(w) && StillOut(events)
    ensures Forgotten(RunFrom(w, events))
    decreases |events|
  {
    if events != [] {
      ForgottenStaysForgotten(w, events[..|events| - 1]);
      ForgottenStep(RunFrom(w, events[..|events| - 1]), events[|events| - 1]);
    }
  }

  /** An Update that comes back while the tick is out makes the policy forget what the tick noted. */
  lemma ReturningUpdateForgets(v: World, t: Target)
    requires v.tick.Switching? && t in v.updates
    ensures ActiveFrom(RunFrom(v, [UpdateReturns(t, true)] + [SwitchReturns(true)]), NO_TARGET)
  {
    assert RunFrom(v, []) == v;
    RunFromMore(v, [], UpdateReturns(t, true));
    assert [] + [UpdateReturns(t, true)] == [UpdateReturns(t, true)];
    RunFromMore(v, [UpdateReturns(t, true)], SwitchReturns(true));
  }

  /**
   Whatever happens until the switch returns successfully, the policy is then active and knows the target
   it left, exactly if no Update was in its Apply when the tick left (or there was no target to remember).
   */
  lemma SwitchKnowsItsOriginalExactly(w: World, e: Event)
    requires Switches(w, e) && e.Tick?
    ensures
      w.updates == multiset{} || e.runtime.target == NO_TARGET <==>
        forall events :: StillOut(events) ==>
          ActiveFrom(RunFrom(Step(w, e), events + [SwitchReturns(true)]), e.runtime.target)
  {
    var v := Step(w, e);
    assert v.policy.original == e.runtime.target && v.updates == w.updates && InWindow(v);
    forall events | StillOut(events) && (w.updates == multiset{} || e.runtime.target == NO_TARGET)
      ensures ActiveFrom(RunFrom(v, events + [SwitchReturns(true)]), e.runtime.target)
    {
      RunFromMore(v, events, SwitchReturns(true));
      if w.updates == multiset{} {
        WindowStays(v, events);
      } else {
        ForgottenStaysForgotten(v, events);
      }
    }
    if w.updates != multiset{} {
      var t :| t in w.updates;
      ReturningUpdateForgets(v, t);
      assert StillOut([UpdateReturns(t, true)]);
    }
  }

  /** The runtime's target that the last switching tick saw. */
  function LastSwitchedFrom(loaded: Config, events: seq<Event>): Option<Target>
    decreases |events|
  {
    if events == [] then None
    else
      var rest, e := events[..|events| - 1], events[|events| - 1];
      if Switches(Run(loaded, rest), e) && e.Tick? then Some(e.runtime.target) else LastSwitchedFrom(loaded, rest)
  }

  predicate Remembered(w: World, from: Option<Target>) {
    && (w.tick.Switching? ==>
          && InWindow(w) && w.updates == multiset{}
          && from == Some(w.policy.original) && w.policy.original.pool != w.policy.config.downloadPool)
    && (w.tick.RollingBack? || w.tick.Restoring? ==>
          InWindow(w) && w.updates == multiset{} && from == Some(w.tick.target))
    && (w.policy.phase == Active ==>
          && w.tick.Nothing? && w.updates == multiset{}
          && from == Some(w.policy.original) && w.policy.original.pool != w.policy.config.downloadPool)
    && (w.updates == multiset{} || (from.Some? && w.updates == multiset{from.value}))
  }

  lemma TickRemembers(w: World, e: Event, from: Option<Target>)
    requires Remembered(w, from) && e.Tick? && (Switches(w, e) ==> w.updates == multiset{})
    ensures Remembered(Step(w, e), if Switches(w, e) then Some(e.runtime.target) else from)
  {
  }

  lemma ReturnsRemember(w: World, e: Event, from: Option<Target>)
    requires Remembered(w, from) && (e.SwitchReturns? || e.RollbackReturns? || e.RestoreReturns?)
    ensures Remembered(Step(w, e), from)
  {
  }

  lemma UpdatesRemember(w: World, e: Event, from: Option<Target>)
    requires Remembered(w, from) && e.Update?
    ensures Remembered(Step(w, e), from)
  {
    var v := Step(w, e);
    assert v == w || w.policy.phase != Active || v.updates == multiset{w.policy.original};
    assert v == w || w.tick.Nothing?;
  }

  lemma UpdateReturnsRemember(w: World, e: Event, from: Option<Target>)
    requires Remembered(w, from) && e.UpdateReturns?
    ensures Remembered(Step(w, e), from)
  {
    if Enabled(w, e) {
      assert e.target in w.updates && w.updates == multiset{from.value};
      assert Step(w, e).updates == multiset{};
    }
  }

  lemma {:induction false} OriginalIsRemembered(loaded: Config, events: seq<Event>)
    requires Disciplined(loaded, events)
    ensures Remembered(Run(loaded, events), LastSwitchedFrom(loaded, events))
    decreases |events|
  {
    if events != [] {
      var rest, e := events[..|events| - 1], events[|events| - 1];
      forall k | 0 <= k < |rest| ensures rest[..k] == events[..k] && rest[k] == events[k] {}
      OriginalIsRemembered(loaded, rest);
      if e.Tick? {
        TickRemembers(Run(loaded, rest), e, LastSwitchedFrom(loaded, rest));
      } else if e.Update? {
        UpdatesRemember(Run(loaded, rest), e, LastSwitchedFrom(loaded, rest));
      } else if e.UpdateReturns? {
        UpdateReturnsRemember(Run(loaded, rest), e, LastSwitchedFrom(loaded, rest));
      } else {
        ReturnsRemember(Run(loaded, rest), e, LastSwitchedFrom(loaded, rest));
      }
    }
  }

  /**
   If no tick switches while an Update is in its Apply: an active policy holds the
   target it switched away from, which is not the download pool, and whoever
   leaves the download pool, be it a recovery, a roll-back or an Update, applies
   exactly that target.
   */
  lemma ActivePolicyKnowsItsOriginal(loaded: Config, events: seq<Event>)
    requires Disciplined(loaded, events)
    ensures
      var w, from := Run(loaded, events), LastSwitchedFrom(loaded, events);
      && (w.policy.phase == Active ==>
            && from == Some(w.policy.original) && w.policy.original.pool != w.policy.config.downloadPool
            && w.tick.Nothing? && w.updates == multiset{})
      && (w.tick.Restoring? || w.tick.RollingBack? ==> from == Some(w.tick.target))
      && (forall t :: t in w.updates ==> from == Some(t))
      && |w.updates| <= 1
  {
    OriginalIsRemembered(loaded, events);
  }

  predicate SomebodyIsOut(w: World) {
    w.policy.phase == Triggering || w.policy.phase == Recovering ==> !w.tick.Nothing? || w.updates != multiset{}
  }

  lemma SomebodyStaysOut(w: World, e: Event)
    requires SomebodyIsOut(w)
    ensures SomebodyIsOut(Step(w, e))
  {
    if e.Update? {
      var o := UpdateStart(w.policy, e.input, e.poolReady, e.persisted).1;
      assert o.Restore? ==> o.target in Step(w, e).updates;
    }
  }

  /** A policy in triggering or recovering always has somebody in an Apply who will end that. */
  lemma {:induction false} SwitchingAlwaysEnds(loaded: Config, events: seq<Event>)
    ensures SomebodyIsOut(Run(loaded, events))
    decreases |events|
  {
    if events != [] {
      SwitchingAlwaysEnds(loaded, events[..|events| - 1]);
      SomebodyStaysOut(Run(loaded, events[..|events| - 1]), events[|events| - 1]);
    }
  }

  // ----- without the discipline

  const DEMO := Config(true, "download", 0x1_0000, 2, 0, 5, 0)
  const HOME := Target("tun", "home", false)

  /** A tick at second `s`, with the runtime on its home pool and a total that grows by 0x1_0000 each second. */
  function HomeTick(s: nat): Event {
    Tick(s * SECOND, Runtime(true, true, HOME, Some(Sample(s * 0x1_0000, s * SECOND))))
  }

  const FIRST_SWITCH: seq<Event> := [HomeTick(1), HomeTick(2), HomeTick(4), SwitchReturns(true)]

  lemma FirstSwitch()
    ensures
      var w := Run(DEMO, FIRST_SWITCH);
      && w.policy.phase == Active && w.policy.original == HOME && w.policy.config == DEMO
      && w.policy.cooldownUntil.None? && w.tick.Nothing? && w.updates == multiset{}
  {
    var w0 := Run(DEMO, []);
    var w1 := Step(w0, HomeTick(1));
    var w2 := Step(w1, HomeTick(2));
    var w3 := Step(w2, HomeTick(4));
    assert w1.policy.last == Some(Sample(0x1_0000, SECOND));
    assert w2.policy.aboveSince == Some(2 * SECOND);
    assert w3.tick.Switching?;
    RunOneMore(DEMO, [], HomeTick(1));
    RunOneMore(DEMO, [HomeTick(1)], HomeTick(2));
    RunOneMore(DEMO, [HomeTick(1), HomeTick(2)], HomeTick(4));
    RunOneMore(DEMO, [HomeTick(1), HomeTick(2), HomeTick(4)], SwitchReturns(true));
    assert FIRST_SWITCH == [HomeTick(1), HomeTick(2), HomeTick(4)] + [SwitchReturns(true)];
  }

  const TURN_OFF := Update(DEMO.(enabled := false), true, true)
  const TURN_ON := Update(DEMO, true, true)

  /** The first Update still waits for its Apply while the second turns the policy on again and a tick triggers. */
  const OVERLAP: seq<Event> :=
    FIRST_SWITCH + [TURN_OFF] + [HomeTick(5)] + [TURN_ON] + [HomeTick(6)] + [HomeTick(7)] + [HomeTick(9)]

  lemma OverlapTriggers()
    ensures
      var w := Run(DEMO, OVERLAP);
      w.tick.Switching? && w.policy.phase == Triggering && w.updates == multiset{HOME}
  {
    FirstSwitch();
    var w := Run(DEMO, FIRST_SWITCH);
    var off := Step(w, TURN_OFF);
    assert off.policy.phase == Recovering && off.updates == multiset{HOME};
    var on := Step(Step(off, HomeTick(5)), TURN_ON);
    assert on.policy.phase == Waiting && on.policy.last.None? && on.updates == multiset{HOME}
      && on.policy.cooldownUntil.None?;
    RunOneMore(DEMO, FIRST_SWITCH, TURN_OFF);
    RunOneMore(DEMO, FIRST_SWITCH + [TURN_OFF], HomeTick(5));
    RunOneMore(DEMO, FIRST_SWITCH + [TURN_OFF] + [HomeTick(5)], TURN_ON);
    ThreeTicks(FIRST_SWITCH + [TURN_OFF] + [HomeTick(5)] + [TURN_ON]);
  }

  predicate Watching(w: World) {
    && w.policy.config == DEMO && w.policy.cooldownUntil.None? && w.tick.Nothing?
    && (w.policy.phase == Waiting || w.policy.phase == Monitoring)
  }

  lemma BaseTick(w: World)
    requires Watching(w) && w.policy.last.None? && w.policy.aboveSince.None?
    ensures
      var v := Step(w, HomeTick(6));
      Watching(v) && v.policy.last == Some(Sample(6 * 0x1_0000, 6 * SECOND)) && v.policy.aboveSince.None?
          && v.updates == w.updates
  {
  }

  lemma HighTick(w: World)
    requires Watching(w) && w.policy.last == Some(Sample(6 * 0x1_0000, 6 * SECOND)) && w.policy.aboveSince.None?
    ensures
      var v := Step(w, HomeTick(7));
      && Watching(v) && v.policy.last == Some(Sample(7 * 0x1_0000, 7 * SECOND))
        && v.policy.aboveSince == Some(7 * SECOND)
      && v.updates == w.updates
  {
    assert RateSeen(w.policy, 7 * SECOND, HomeTick(7).runtime) == Some(0x1_0000);
  }

  lemma TriggeringTick(w: World)
    requires Watching(w) && w.policy.last == Some(Sample(7 * 0x1_0000, 7 * SECOND))
      && w.policy.aboveSince == Some(7 * SECOND)
    ensures
      var v := Step(w, HomeTick(9));
      v.tick.Switching? && v.policy.phase == Triggering && v.updates == w.updates
  {
    assert RateSeen(w.policy, 9 * SECOND, HomeTick(9).runtime) == Some(0x1_0000);
  }

  lemma ThreeTicks(events: seq<Event>)
    requires
      var w := Run(DEMO, events);
      Watching(w) && w.policy.last.None? && w.policy.aboveSince.None?
    ensures
      var v := Run(DEMO, events + [HomeTick(6)] + [HomeTick(7)] + [HomeTick(9)]);
      v.tick.Switching? && v.policy.phase == Triggering && v.updates == Run(DEMO, events).updates
  {
    RunOneMore(DEMO, events, HomeTick(6));
    RunOneMore(DEMO, events + [HomeTick(6)], HomeTick(7));
    RunOneMore(DEMO, events + [HomeTick(6)] + [HomeTick(7)], HomeTick(9));
    BaseTick(Run(DEMO, events));
    HighTick(Run(DEMO, events + [HomeTick(6)]));
    TriggeringTick(Run(DEMO, events + [HomeTick(6)] + [HomeTick(7)]));
  }

  /** Without the discipline an active policy can forget where it came from. */
  lemma OverlapLosesTheOriginal()
    ensures
      var w := Run(DEMO, OVERLAP + [UpdateReturns(HOME, true)] + [SwitchReturns(true)]);
      w.policy.phase == Active && w.policy.original == NO_TARGET
  {
    OverlapTriggers();
    RunOneMore(DEMO, OVERLAP, UpdateReturns(HOME, true));
    RunOneMore(DEMO, OVERLAP + [UpdateReturns(HOME, true)], SwitchReturns(true));
  }
}
