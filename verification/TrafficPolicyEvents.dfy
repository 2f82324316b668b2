/**
 The traffic policy read off the events alone: which sample a rate is measured from,
 since when the rate has been high or low, exactly when a tick switches, and what it
 applies.
 */
module TrafficPolicyEvents {
  import opened Common
  import opened TrafficPolicy
  import opened TrafficPolicyRuns

  // ----- ticks

  /** A tick that gets as far as the traffic total. */
  predicate Samples(w: World, e: Event) {
    && e.Tick? && Enabled(w, e) && w.policy.config.enabled
    && !(w.policy.cooldownUntil.Some? && e.now < w.policy.cooldownUntil.value)
    && e.runtime.running && e.runtime.onPool && e.runtime.traffic.Some?
    && !(w.policy.phase == Active && e.runtime.target.pool != w.policy.config.downloadPool)
  }

  /** A tick that finds nothing to measure, or that the runtime was moved away by hand. */
  predicate LosesTrack(w: World, e: Event) {
    && e.Tick? && Enabled(w, e) && w.policy.config.enabled
    && !(w.policy.cooldownUntil.Some? && e.now < w.policy.cooldownUntil.value) && !Samples(w, e)
  }

  /** What Update refuses: bad values, a switch under way, a change of an active policy, or a failed write. */
  predicate Accepts(w: World, e: Event) {
    && e.Update? && e.persisted
    && 65536 <= e.input.triggerRate <= 10737418240 && 0 <= e.input.releaseRate < e.input.triggerRate
    && 2 <= e.input.triggerSeconds <= 300 && 5 <= e.input.releaseSeconds <= 3600
    && 0 <= e.input.cooldownSeconds <= 86400 && (e.input.enabled ==> e.poolReady)
    && w.policy.phase != Triggering && w.policy.phase != Recovering && !(w.policy.phase == Active && e.input.enabled)
  }

  /** The events after which measuring starts afresh. */
  predicate Forgets(w: World, e: Event) {
    || LosesTrack(w, e)
    || (e.SwitchReturns? && Enabled(w, e) && e.ok)
    || ((e.RollbackReturns? || e.RestoreReturns? || e.UpdateReturns?) && Enabled(w, e))
    || (Accepts(w, e) && w.policy.phase != Active)
  }

  /** The traffic total that the next rate is measured from. */
  function BaseAfter(before: Option<Sample>, w: World, e: Event): Option<Sample> {
    if Forgets(w, e) then None else if Samples(w, e) then e.runtime.traffic else before
  }

  function Base(loaded: Config, events: seq<Event>): Option<Sample>
    decreases |events|
  {
    if events == [] then None
    else
      var rest, e := events[..|events| - 1], events[|events| - 1];
      BaseAfter(Base(loaded, rest), Run(loaded, rest), e)
  }

  lemma TickKeepsBase(w: World, e: Event)
    requires e.Tick?
    ensures Step(w, e).policy.last == BaseAfter(w.policy.last, w, e)
  {
  }

  lemma ReturnKeepsBase(w: World, e: Event)
    requires e.SwitchReturns? || e.RollbackReturns? || e.RestoreReturns? || e.UpdateReturns?
    ensures Step(w, e).policy.last == BaseAfter(w.policy.last, w, e)
  {
  }

  lemma UpdateKeepsBase(w: World, e: Event)
    requires e.Update?
    ensures Step(w, e).policy.last == BaseAfter(w.policy.last, w, e)
  {
  }

  /** A rate is measured from the traffic total of the last tick that read one, if nothing was forgotten since. */
  lemma {:induction false} LastSampleIsBase(loaded: Config, events: seq<Event>)
    ensures Run(loaded, events).policy.last == Base(loaded, events)
    decreases |events|
  {
    if events != [] {
      var rest, e := events[..|events| - 1], events[|events| - 1];
      LastSampleIsBase(loaded, rest);
      if e.Tick? {
        TickKeepsBase(Run(loaded, rest), e);
      } else if e.Update? {
        UpdateKeepsBase(Run(loaded, rest), e);
      } else {
        ReturnKeepsBase(Run(loaded, rest), e);
      }
    }
  }

  /** `rate` is the growth of the total in bytes per second, rounded down. */
  predicate IsRate(rate: int, before: Sample, s: Sample) {
    && before.at < s.at && before.total <= s.total
    && rate * (s.at - before.at) <= (s.total - before.total) * 1_000_000_000 < (rate + 1) * (s.at - before.at)
  }

  lemma QuotientIsRate(before: Sample, s: Sample)
    requires before.at < s.at && before.total <= s.total
    ensures IsRate(RateSince(before, s), before, s)
  {
    var d, n := s.at - before.at, (s.total - before.total) * SECOND;
    var q := n / d;
    assert q * d <= n < q * d + d;
    assert (q + 1) * d == q * d + d;
  }

  /** A tick computes a rate exactly if it reads a total that came later and is no smaller than the one before. */
  lemma RateFromEvents(loaded: Config, events: seq<Event>, e: Event)
    ensures
      var w, base := Run(loaded, events), Base(loaded, events);
      && (RateOf(w, e).Some? <==>
            && Samples(w, e) && base.Some?
            && base.value.at < e.runtime.traffic.value.at && base.value.total <= e.runtime.traffic.value.total)
      && (RateOf(w, e).Some? ==> IsRate(RateOf(w, e).value, base.value, e.runtime.traffic.value))
  {
    LastSampleIsBase(loaded, events);
    var w, base := Run(loaded, events), Base(loaded, events);
    if RateOf(w, e).Some? {
      QuotientIsRate(base.value, e.runtime.traffic.value);
    }
  }

  // ----- since when

  function HighAfter(before: Option<int>, w: World, e: Event): Option<int> {
    if Forgets(w, e) then None
    else if RateOf(w, e).None? || w.policy.phase == Active then before
    else if e.runtime.target.pool == w.policy.config.downloadPool then None
    else if RateOf(w, e).value < w.policy.config.triggerRate then None
    else if before.Some? then before
    else Some(e.now)
  }

  /** The tick since which every rate has reached the trigger, away from the download pool. */
  function HighSince(loaded: Config, events: seq<Event>): Option<int>
    decreases |events|
  {
    if events == [] then None
    else
      var rest, e := events[..|events| - 1], events[|events| - 1];
      HighAfter(HighSince(loaded, rest), Run(loaded, rest), e)
  }

  function LowAfter(before: Option<int>, w: World, e: Event): Option<int> {
    if Forgets(w, e) then None
    else if RateOf(w, e).None? || w.policy.phase != Active then before
    else if RateOf(w, e).value > w.policy.config.releaseRate then None
    else if before.Some? then before
    else Some(e.now)
  }

  /** The tick since which every rate of the active policy has been at or below the release rate. */
  function LowSince(loaded: Config, events: seq<Event>): Option<int>
    decreases |events|
  {
    if events == [] then None
    else
      var rest, e := events[..|events| - 1], events[|events| - 1];
      LowAfter(LowSince(loaded, rest), Run(loaded, rest), e)
  }

  lemma TickKeepsSince(w: World, e: Event)
    requires e.Tick?
    ensures Step(w, e).policy.aboveSince == HighAfter(w.policy.aboveSince, w, e)
    ensures Step(w, e).policy.belowSince == LowAfter(w.policy.belowSince, w, e)
  {
  }

  lemma ReturnKeepsSince(w: World, e: Event)
    requires e.SwitchReturns? || e.RollbackReturns? || e.RestoreReturns? || e.UpdateReturns?
    ensures Step(w, e).policy.aboveSince == HighAfter(w.policy.aboveSince, w, e)
    ensures Step(w, e).policy.belowSince == LowAfter(w.policy.belowSince, w, e)
  {
  }

  lemma UpdateKeepsSince(w: World, e: Event)
    requires e.Update?
    ensures Step(w, e).policy.aboveSince == HighAfter(w.policy.aboveSince, w, e)
    ensures Step(w, e).policy.belowSince == LowAfter(w.policy.belowSince, w, e)
  {
  }

  lemma {:induction false} SinceFromEvents(loaded: Config, events: seq<Event>)
    ensures Run(loaded, events).policy.aboveSince == HighSince(loaded, events)
    ensures Run(loaded, events).policy.belowSince == LowSince(loaded, events)
    decreases |events|
  {
    if events != [] {
      var rest, e := events[..|events| - 1], events[|events| - 1];
      SinceFromEvents(loaded, rest);
      if e.Tick? {
        TickKeepsSince(Run(loaded, rest), e);
      } else if e.Update? {
        UpdateKeepsSince(Run(loaded, rest), e);
      } else {
        ReturnKeepsSince(Run(loaded, rest), e);
      }
    }
  }

  // ----- when, and what

  predicate LastedFor(since: Option<int>, now: int, seconds: int) {
    since.Some? && now - since.value >= seconds * 1_000_000_000
  }

  lemma TickSwitchesExactly(w: World, e: Event)
    requires InRange(w.policy.config) && e.Tick?
    ensures
      var c := w.policy.config;
      Switches(w, e) <==>
        && RateOf(w, e).Some? && w.policy.phase != Active
        && LastedFor(HighAfter(w.policy.aboveSince, w, e), e.now, c.triggerSeconds)
    ensures
      var c := w.policy.config;
      TickLeaves(w, e) && Step(w, e).tick.Restoring? <==>
        && RateOf(w, e).Some? && w.policy.phase == Active
        && LastedFor(LowAfter(w.policy.belowSince, w, e), e.now, c.releaseSeconds)
  {
    TickKeepsSince(w, e);
    var high, low := HighAfter(w.policy.aboveSince, w, e), LowAfter(w.policy.belowSince, w, e);
    if high.Some? {
      WholeSecondsReach(e.now - high.value, w.policy.config.triggerSeconds);
    }
    if low.Some? {
      WholeSecondsReach(e.now - low.value, w.policy.config.releaseSeconds);
    }
  }

  /**
   A tick switches to the download pool exactly if it computes a rate, the policy is not active, and the rates have
   been high for the trigger duration; and back exactly if it is active and they have been low for the release duration.
   */
  lemma SwitchesExactly(loaded: Config, events: seq<Event>, e: Event)
    requires InRange(loaded) && e.Tick?
    ensures
      var w, all := Run(loaded, events), events + [e];
      && (Switches(w, e) <==>
            && RateOf(w, e).Some? && w.policy.phase != Active
            && LastedFor(HighSince(loaded, all), e.now, w.policy.config.triggerSeconds))
      && (TickLeaves(w, e) && Step(w, e).tick.Restoring? <==>
            && RateOf(w, e).Some? && w.policy.phase == Active
            && LastedFor(LowSince(loaded, all), e.now, w.policy.config.releaseSeconds))
  {
    RunKeepsInv(loaded, events);
    SinceFromEvents(loaded, events);
    DropLast(events, e);
    TickSwitchesExactly(Run(loaded, events), e);
  }

  /** A tick that leaves the lock notes where it leaves and applies the download pool, or goes back. */
  lemma TickApplies(w: World, e: Event)
    requires e.Tick? && TickLeaves(w, e)
    ensures
      var v := Step(w, e);
      && (v.tick.Switching? ==>
            && v.tick.now == e.now && v.policy.phase == Triggering
            && v.tick.target.mode == e.runtime.target.mode && v.tick.target.lan == e.runtime.target.lan
            && v.tick.target.pool == w.policy.config.downloadPool
            && v.policy.original == e.runtime.target && v.policy.shownPool == e.runtime.target.pool)
      && (!v.tick.Switching? ==> v.tick == Restoring(e.now, w.policy.original) && v.policy.phase == Recovering)
      && v.policy.config == w.policy.config && v.updates == w.updates
  {
  }

  /** Event `k` is the tick that is still in its Apply. */
  ghost predicate OutSince(loaded: Config, events: seq<Event>, k: int) {
    && 0 <= k < |events| && events[k].Tick?
    && Switches(Run(loaded, events[..k]), events[k])
    && forall j :: k < j <= |events| ==> Run(loaded, events[..j]).tick.Switching?
  }

  lemma OutLonger(loaded: Config, events: seq<Event>, e: Event, k: int)
    requires OutSince(loaded, events, k) && Run(loaded, events + [e]).tick.Switching?
    ensures OutSince(loaded, events + [e], k)
  {
    var all := events + [e];
    assert all[k] == events[k] && all[..|all|] == all;
    forall j | 0 <= j <= |events| ensures all[..j] == events[..j] {}
    assert Switches(Run(loaded, all[..k]), all[k]);
  }

  /**
   On every run, the Apply that a switching tick is in has the mode and the LAN setting of the runtime that this tick
   saw, and the download pool that was configured then.
   */
  lemma {:induction false} SwitchAppliesTheDownloadPool(loaded: Config, events: seq<Event>) returns (k: int)
    requires Run(loaded, events).tick.Switching?
    ensures OutSince(loaded, events, k)
    ensures
      var pending, seen := Run(loaded, events).tick, events[k].runtime.target;
      && pending.now == events[k].now
      && pending.target == Target(seen.mode, Run(loaded, events[..k]).policy.config.downloadPool, seen.lan)
    decreases |events|
  {
    var rest, e := events[..|events| - 1], events[|events| - 1];
    var w := Run(loaded, rest);
    SplitLast(events);
    if w.tick.Switching? {
      k := SwitchAppliesTheDownloadPool(loaded, rest);
      OutLonger(loaded, rest, e, k);
      assert rest[k] == events[k] && rest[..k] == events[..k];
      SwitchStays(w, e);
    } else {
      k := |rest|;
      assert events[..k] == rest && events[..|events|] == events;
      LeavesByTick(w, e);
      TickApplies(w, e);
    }
  }

  lemma SwitchStays(w: World, e: Event)
    requires w.tick.Switching? && Step(w, e).tick.Switching?
    ensures Step(w, e).tick == w.tick
  {
  }

  lemma LeavesByTick(w: World, e: Event)
    requires !w.tick.Switching? && Step(w, e).tick.Switching?
    ensures e.Tick? && TickLeaves(w, e)
  {
  }

  // ----- the state after each event

  /** Nothing of a cycle is left: no target to go back to, no activation, no rate and no progress. */
  predicate ShowsNothing(p: Policy) {
    && p.original == NO_TARGET && p.shownPool == "" && p.activatedAt.None?
    && p.rate == 0 && p.triggerProgress == 0 && p.releaseProgress == 0
  }

  /** A cycle that a manual change of the target ends is over as if it had recovered. */
  lemma ManualChangeEndsTheCycle(w: World, e: Event)
    requires e.Tick? && Enabled(w, e) && w.policy.config.enabled && w.policy.phase == Active
    requires w.policy.cooldownUntil.Some? ==> e.now >= w.policy.cooldownUntil.value
    requires e.runtime.running && e.runtime.onPool && e.runtime.traffic.Some?
    requires e.runtime.target.pool != w.policy.config.downloadPool
    ensures
      var v := Step(w, e).policy;
      && v.phase == Cooldown && ShowsNothing(v)
      && v.cooldownUntil == Some(e.now + w.policy.config.cooldownSeconds * 1_000_000_000)
  {
  }

  /** The state that a tick shows when it does not leave the lock. */
  lemma TickShows(w: World, e: Event)
    requires e.Tick? && Enabled(w, e) && !TickLeaves(w, e)
    ensures
      var p, v := w.policy, Step(w, e);
      && v.policy.phase ==
          (if !p.config.enabled then Disabled
           else if p.cooldownUntil.Some? && e.now < p.cooldownUntil.value then Cooldown
           else if !(e.runtime.running && e.runtime.onPool && e.runtime.traffic.Some?) then Waiting
           else if !Samples(w, e) then Cooldown
           else if p.phase == Active then Active
           else Monitoring)
      && v.policy.config == p.config && v.updates == w.updates && v.tick.Nothing?
      && v.policy.original == (if LosesTrack(w, e) then NO_TARGET else p.original)
  {
  }

  /** A tick forgets a cooldown that it finds over, and starts one when a manual change ends a cycle. */
  lemma TickMovesTheCooldown(w: World, e: Event)
    requires e.Tick? && Enabled(w, e)
    ensures
      var p, v := w.policy, Step(w, e).policy;
      v.cooldownUntil ==
        if !Samples(w, e) && !LosesTrack(w, e) then p.cooldownUntil
        else if LosesTrack(w, e) && v.phase == Cooldown then Some(e.now + p.config.cooldownSeconds * 1_000_000_000)
        else if p.phase == Cooldown then None
        else p.cooldownUntil
  {
  }

  /** A policy that was just loaded waits if it is enabled, and knows nothing yet. */
  lemma StartsAfresh(loaded: Config)
    ensures
      var w := Run(loaded, []);
      && w.policy.config == loaded && w.policy.phase == (if loaded.enabled then Waiting else Disabled)
      && ShowsNothing(w.policy) && w.policy.cooldownUntil.None? && w.policy.last.None?
      && w.policy.aboveSince.None? && w.policy.belowSince.None? && w.tick.Nothing? && w.updates == multiset{}
  {
  }

  /** The rate and the progress that are shown after a tick that computed a rate. */
  lemma TickShowsProgress(w: World, e: Event)
    requires e.Tick? && RateOf(w, e).Some?
    ensures
      var v, high, low := Step(w, e).policy, HighAfter(w.policy.aboveSince, w, e), LowAfter(w.policy.belowSince, w, e);
      && v.rate == RateOf(w, e).value
      && (w.policy.phase == Active ==>
            v.releaseProgress == if low.Some? then WholeSeconds(e.now - low.value) else 0)
      && (w.policy.phase != Active ==>
            v.triggerProgress == if high.Some? then WholeSeconds(e.now - high.value) else 0)
  {
  }

  /** What the end of an Apply leaves: an active policy, a roll-back, a finished cycle, or a failure. */
  lemma ReturnsLead(w: World, e: Event)
    requires Enabled(w, e) && (e.SwitchReturns? || e.RollbackReturns? || e.RestoreReturns?)
    ensures
      var v := Step(w, e);
      && v.policy.config == w.policy.config && v.updates == w.updates
      && (e.SwitchReturns? && e.ok ==>
            && v.policy.phase == Active && v.policy.activatedAt == Some(w.tick.now)
            && v.policy.original == w.policy.original && v.policy.shownPool == w.policy.shownPool && v.tick.Nothing?)
      && (e.SwitchReturns? && !e.ok ==>
            v.policy.phase == Recovering && v.tick == RollingBack(w.tick.now, w.policy.original))
      && (!e.SwitchReturns? && e.ok ==>
            && v.policy.phase == Cooldown && v.tick.Nothing? && ShowsNothing(v.policy)
            && v.policy.cooldownUntil == Some(w.tick.now + w.policy.config.cooldownSeconds * 1_000_000_000))
      && (!e.SwitchReturns? && !e.ok ==>
            v.policy.phase == Failed && v.policy.original == w.policy.original && v.tick.Nothing?)
  {
  }

  /** An accepted Update takes effect at once, and restores the original target if it turns an active policy off. */
  lemma UpdateTakesEffect(w: World, e: Event)
    requires e.Update?
    ensures
      var v := Step(w, e);
      && (!Accepts(w, e) ==> v == w)
      && (Accepts(w, e) ==>
            && v.policy.config == e.input && v.tick == w.tick
            && v.policy.phase ==
                (if w.policy.phase == Active then Recovering else if e.input.enabled then Waiting else Disabled)
            && v.updates == (if w.policy.phase == Active then w.updates + multiset{w.policy.original} else w.updates)
            && v.policy.original == (if w.policy.phase == Active then w.policy.original else NO_TARGET))
  {
  }

  lemma UpdateEnds(w: World, e: Event)
    requires e.UpdateReturns? && Enabled(w, e)
    ensures
      var v := Step(w, e);
      && v.policy.config == w.policy.config && v.tick == w.tick && v.updates == w.updates - multiset{e.target}
      && v.policy.phase == (if e.ok then Disabled else Failed)
      && (e.ok ==> ShowsNothing(v.policy) && v.policy.cooldownUntil == w.policy.cooldownUntil)
      && (!e.ok ==> v.policy.original == w.policy.original && v.policy.shownPool == w.policy.shownPool)
  {
  }
}
