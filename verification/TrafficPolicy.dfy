/**
 The traffic policy (internal/trafficpolicy/manager.go): a sustained download
 rate moves the runtime to a download pool, a sustained drop moves it back, and
 a cooldown follows. `tick` and `Update` both give up the lock while they call
 Apply, so each is modelled as the locked segments it consists of.
 */
module TrafficPolicy {
  import opened Common

  const SECOND := 1_000_000_000

  datatype Phase = Disabled | Waiting | Monitoring | Triggering | Active | Recovering | Cooldown | Failed

  datatype Config = Config(
    enabled: bool,
    downloadPool: string,
    triggerRate: int,
    triggerSeconds: int,
    releaseRate: int,
    releaseSeconds: int,
    cooldownSeconds: int)

  /** control.ApplyInput */
  datatype Target = Target(mode: string, pool: string, lan: bool)

  const NO_TARGET := Target("", "", false)

  /** A traffic total and the time it was read at, in nanoseconds. */
  datatype Sample = Sample(total: int, at: int)

  /** What Status reports; no traffic means that pool health has none to show yet. */
  datatype Runtime = Runtime(running: bool, onPool: bool, target: Target, traffic: Option<Sample>)

  datatype Policy = Policy(
    config: Config,
    phase: Phase,
    original: Target,
    shownPool: string,
    activatedAt: Option<int>,
    cooldownUntil: Option<int>,
    last: Option<Sample>,
    aboveSince: Option<int>,
    belowSince: Option<int>,
    rate: int,
    triggerProgress: int,
    releaseProgress: int)

  /** What tick still has to do when it gives up the lock: the Apply call it is in. */
  datatype Pending =
    | Nothing
    | Switching(now: int, target: Target)
    | RollingBack(now: int, target: Target)
    | Restoring(now: int, target: Target)

  predicate InRange(c: Config) {
    && 0x1_0000 <= c.triggerRate <= 0x2_8000_0000
    && 0 <= c.releaseRate < c.triggerRate
    && 2 <= c.triggerSeconds <= 300
    && 5 <= c.releaseSeconds <= 3600
    && 0 <= c.cooldownSeconds <= 86400
  }

  /** validate; `poolReady` says whether the download pool exists with two usable nodes. */
  predicate Validates(c: Config, poolReady: bool) {
    InRange(c) && (c.enabled ==> poolReady)
  }

  /** int(d.Seconds()): whole seconds, towards zero. */
  function WholeSeconds(d: int): int {
    if d >= 0 then d / SECOND else -((-d) / SECOND)
  }

  lemma WholeSecondsReach(d: int, n: int)
    requires n >= 1
    ensures WholeSeconds(d) >= n <==> d >= n * SECOND
  {
  }

  // ----- the locked segments

  function ResetRate(p: Policy): Policy {
    p.(last := None, aboveSince := None, belowSince := None)
  }

  function ResetSamples(p: Policy): Policy {
    ResetRate(p).(original := NO_TARGET, rate := 0, triggerProgress := 0, releaseProgress := 0)
  }

  function FinishCycle(p: Policy, now: int): Policy {
    ResetSamples(p.(phase := Cooldown, cooldownUntil := Some(now + p.config.cooldownSeconds * SECOND),
        activatedAt := None, shownPool := ""))
  }

  function Fail(p: Policy): Policy {
    ResetRate(p.(phase := Failed))
  }

  predicate CoolingDown(p: Policy, now: int) {
    p.cooldownUntil.Some? && now < p.cooldownUntil.value
  }

  predicate Usable(r: Runtime) {
    r.running && r.onPool && r.traffic.Some?
  }

  /** No rate can be taken: there is no older sample, or the counter went back. */
  predicate NeedsNewBase(p: Policy, s: Sample) {
    p.last.None? || s.at <= p.last.value.at || s.total < p.last.value.total
  }

  /** Bytes per second since the last sample. */
  function RateSince(last: Sample, s: Sample): int
    requires s.at > last.at
  {
    (s.total - last.total) * SECOND / (s.at - last.at)
  }

  /** The manual change that ends an active cycle. */
  predicate MovedAway(p: Policy, r: Runtime) {
    p.phase == Active && r.target.pool != p.config.downloadPool
  }

  /** The rate that a tick computes, if it gets that far. */
  function RateSeen(p: Policy, now: int, r: Runtime): Option<int> {
    if !p.config.enabled || CoolingDown(p, now) || !Usable(r) || MovedAway(p, r) then None
    else if NeedsNewBase(p, r.traffic.value) then None
    else Some(RateSince(p.last.value, r.traffic.value))
  }

  /** The tick of an active policy at a new rate. */
  function TickActive(p: Policy, now: int, rate: int): (Policy, Pending) {
    var since := if rate > p.config.releaseRate then None else if p.belowSince.None? then Some(now) else p.belowSince;
    var progress := if since.Some? then WholeSeconds(now - since.value) else 0;
    var q := p.(belowSince := since, releaseProgress := progress);
    if progress >= p.config.releaseSeconds then (q.(phase := Recovering), Restoring(now, p.original)) else (q, Nothing)
  }

  /** The tick of a policy that waits for a high rate. */
  function TickMonitoring(p: Policy, now: int, rate: int, target: Target): (Policy, Pending) {
    if target.pool == p.config.downloadPool then (p.(aboveSince := None, triggerProgress := 0), Nothing)
    else
      var since := if rate < p.config.triggerRate then None else if p.aboveSince.None? then Some(now) else p.aboveSince;
      var progress := if since.Some? then WholeSeconds(now - since.value) else 0;
      var q := p.(aboveSince := since, triggerProgress := progress);
      if progress < p.config.triggerSeconds then (q, Nothing)
      else (q.(original := target, shownPool := target.pool, phase := Triggering),
            Switching(now, target.(pool := p.config.downloadPool)))
  }

  /** The first segment of tick. */
  function TickStart(p: Policy, now: int, r: Runtime): (Policy, Pending) {
    if !p.config.enabled then (p.(phase := Disabled), Nothing)
    else if CoolingDown(p, now) then (p.(phase := Cooldown), Nothing)
    else
      var q := if p.phase == Cooldown then p.(cooldownUntil := None) else p;
      if !Usable(r) then (ResetSamples(q.(phase := Waiting)), Nothing)
      else if MovedAway(q, r) then (FinishCycle(q, now), Nothing)
      else
        var s := r.traffic.value;
        if NeedsNewBase(q, s) then
          (q.(last := Some(s), phase := if q.phase == Active then Active else Monitoring), Nothing)
        else
          var rate := RateSince(q.last.value, s);
          var sampled := q.(last := Some(s), rate := rate);
          if q.phase == Active then TickActive(sampled, now, rate)
          else TickMonitoring(sampled.(phase := Monitoring), now, rate, r.target)
  }

  /** After Apply(download pool). */
  function TickSwitched(p: Policy, now: int, ok: bool): (Policy, Pending) {
    if ok then (ResetRate(p.(phase := Active, activatedAt := Some(now), triggerProgress := 0)), Nothing)
    else (p.(phase := Recovering), RollingBack(now, p.original))
  }

  /** After Apply(original), in a roll-back or in a recovery. */
  function TickReturned(p: Policy, now: int, ok: bool): Policy {
    if ok then FinishCycle(p, now) else Fail(p)
  }

  datatype UpdateOutcome = Refused | Updated | Restore(target: Target)

  /** The first segment of Update; `persisted` is the outcome of writing the file. */
  function UpdateStart(p: Policy, input: Config, poolReady: bool, persisted: bool): (Policy, UpdateOutcome) {
    if !Validates(input, poolReady) then (p, Refused)
    else if p.phase == Triggering || p.phase == Recovering then (p, Refused)
    else if p.phase == Active && input.enabled then (p, Refused)
    else if !persisted then (p, Refused)
    else if p.phase == Active then (p.(config := input, phase := Recovering), Restore(p.original))
    else (ResetSamples(p.(config := input)).(phase := if input.enabled then Waiting else Disabled), Updated)
  }

  /** The second segment of an Update that turned an active policy off. */
  function UpdateReturned(p: Policy, ok: bool): Policy {
    if ok then ResetSamples(p.(phase := Disabled, activatedAt := None, shownPool := "")) else Fail(p)
  }

  // ----- the manager

  class Manager {
    var config: Config
    var phase: Phase
    var original: Target
    var shownPool: string
    var activatedAt: Option<int>
    var cooldownUntil: Option<int>
    var last: Option<Sample>
    var aboveSince: Option<int>
    var belowSince: Option<int>
    var rate: int
    var triggerProgress: int
    var releaseProgress: int

    function View(): Policy
      reads this
    {
      Policy(config, phase, original, shownPool, activatedAt, cooldownUntil, last, aboveSince, belowSince, rate,
          triggerProgress, releaseProgress)
    }

    /** Open, with the configuration read and validated. */
    constructor (loaded: Config)
      ensures View() == Opened(loaded)
    {
      config := loaded;
      phase := if loaded.enabled then Waiting else Disabled;
      original, shownPool := NO_TARGET, "";
      activatedAt, cooldownUntil := None, None;
      last, aboveSince, belowSince := None, None, None;
      rate, triggerProgress, releaseProgress := 0, 0, 0;
    }

    method ResetRateLocked()
      modifies this
      ensures View() == ResetRate(old(View()))
    {
      last := None;
      aboveSince := None;
      belowSince := None;
    }

    method ResetSamplesLocked()
      modifies this
      ensures View() == ResetSamples(old(View()))
    {
      ResetRateLocked();
      original := NO_TARGET;
      rate := 0;
      triggerProgress := 0;
      releaseProgress := 0;
    }

    method FinishCycleLocked(now: int)
      modifies this
      ensures View() == FinishCycle(old(View()), now)
    {
      phase := Cooldown;
      cooldownUntil := Some(now + config.cooldownSeconds * SECOND);
      activatedAt := None;
      shownPool := "";
      ResetSamplesLocked();
    }

    method FailLocked()
      modifies this
      ensures View() == Fail(old(View()))
    {
      phase := Failed;
      ResetRateLocked();
    }

    method Tick(now: int, r: Runtime) returns (pending: Pending)
      modifies this
      ensures (View(), pending) == TickStart(old(View()), now, r)
    {
      pending := Nothing;
      if !config.enabled {
        phase := Disabled;
        return;
      }
      if cooldownUntil.Some? && now < cooldownUntil.value {
        phase := Cooldown;
        return;
      }
      if phase == Cooldown {
        cooldownUntil := None;
      }
      if !r.running || !r.onPool || r.traffic.None? {
        phase := Waiting;
        ResetSamplesLocked();
        return;
      }
      if phase == Active && r.target.pool != config.downloadPool {
        FinishCycleLocked(now);
        return;
      }
      var s := r.traffic.value;
      if last.None? || s.at <= last.value.at || s.total < last.value.total {
        last := Some(s);
        if phase != Active {
          phase := Monitoring;
        }
        return;
      }
      rate := (s.total - last.value.total) * SECOND / (s.at - last.value.at);
      last := Some(s);
      if phase == Active {
        pending := Release(now);
      } else {
        phase := Monitoring;
        pending := Trigger(now, r.target);
      }
    }

    method Release(now: int) returns (pending: Pending)
      modifies this
      ensures (View(), pending) == TickActive(old(View()), now, old(rate))
    {
      pending := Nothing;
      if rate <= config.releaseRate {
        if belowSince.None? {
          belowSince := Some(now);
        }
        releaseProgress := WholeSeconds(now - belowSince.value);
      } else {
        belowSince := None;
        releaseProgress := 0;
      }
      if releaseProgress >= config.releaseSeconds {
        pending := Restoring(now, original);
        phase := Recovering;
      }
    }

    method Trigger(now: int, target: Target) returns (pending: Pending)
      modifies this
      ensures (View(), pending) == TickMonitoring(old(View()), now, old(rate), target)
    {
      pending := Nothing;
      if target.pool == config.downloadPool {
        aboveSince := None;
        triggerProgress := 0;
        return;
      }
      if rate >= config.triggerRate {
        if aboveSince.None? {
          aboveSince := Some(now);
        }
        triggerProgress := WholeSeconds(now - aboveSince.value);
      } else {
        aboveSince := None;
        triggerProgress := 0;
      }
      if triggerProgress < config.triggerSeconds {
        return;
      }
      original := target;
      shownPool := target.pool;
      phase := Triggering;
      pending := Switching(now, Target(target.mode, config.downloadPool, target.lan));
    }

    method Switched(now: int, ok: bool) returns (pending: Pending)
      modifies this
      ensures (View(), pending) == TickSwitched(old(View()), now, ok)
    {
      if !ok {
        phase := Recovering;
        return RollingBack(now, original);
      }
      phase := Active;
      activatedAt := Some(now);
      triggerProgress := 0;
      ResetRateLocked();
      return Nothing;
    }

    method Returned(now: int, ok: bool)
      modifies this
      ensures View() == TickReturned(old(View()), now, ok)
    {
      if !ok {
        FailLocked();
      } else {
        FinishCycleLocked(now);
      }
    }

    method Update(input: Config, poolReady: bool, persisted: bool) returns (outcome: UpdateOutcome)
      modifies this
      ensures (View(), outcome) == UpdateStart(old(View()), input, poolReady, persisted)
    {
      if !Validates(input, poolReady) {
        return Refused;
      }
      if phase == Triggering || phase == Recovering {
        return Refused;
      }
      var wasActive := phase == Active;
      if wasActive && input.enabled {
        return Refused;
      }
      var target, previous := original, config;
      config := input;
      if !persisted {
        config := previous;
        return Refused;
      }
      if !wasActive {
        ResetSamplesLocked();
      }
      if wasActive {
        phase := Recovering;
      } else if input.enabled {
        phase := Waiting;
      } else {
        phase := Disabled;
      }
      return if wasActive then Restore(target) else Updated;
    }

    method UpdateApplied(ok: bool)
      modifies this
      ensures View() == UpdateReturned(old(View()), ok)
    {
      if !ok {
        FailLocked();
        return;
      }
      phase := Disabled;
      activatedAt := None;
      shownPool := "";
      ResetSamplesLocked();
    }
  }

  function Opened(loaded: Config): Policy {
    Policy(loaded, if loaded.enabled then Waiting else Disabled, NO_TARGET, "", None, None, None, None, None, 0, 0, 0)
  }

  // ----- every interleaving

  /** One ticker goroutine, and any number of Updates that wait for their Apply. */
  datatype World = World(policy: Policy, tick: Pending, updates: multiset<Target>)

  datatype Event =
    | Tick(now: int, runtime: Runtime)
    | SwitchReturns(ok: bool)
    | RollbackReturns(ok: bool)
    | RestoreReturns(ok: bool)
    | Update(input: Config, poolReady: bool, persisted: bool)
    | UpdateReturns(target: Target, ok: bool)

  predicate Enabled(w: World, e: Event) {
    match e
    case Tick(_, _) => w.tick.Nothing?
    case SwitchReturns(_) => w.tick.Switching?
    case RollbackReturns(_) => w.tick.RollingBack?
    case RestoreReturns(_) => w.tick.Restoring?
    case Update(_, _, _) => true
    case UpdateReturns(target, _) => target in w.updates
  }

  /** An event that cannot happen changes nothing. */
  function Step(w: World, e: Event): World {
    if !Enabled(w, e) then w
    else
      match e
      case Tick(now, r) => var (p, t) := TickStart(w.policy, now, r); w.(policy := p, tick := t)
      case SwitchReturns(ok) => var (p, t) := TickSwitched(w.policy, w.tick.now, ok); w.(policy := p, tick := t)
      case RollbackReturns(ok) => w.(policy := TickReturned(w.policy, w.tick.now, ok), tick := Nothing)
      case RestoreReturns(ok) => w.(policy := TickReturned(w.policy, w.tick.now, ok), tick := Nothing)
      case Update(input, poolReady, persisted) =>
        var (p, o) := UpdateStart(w.policy, input, poolReady, persisted);
        w.(policy := p, updates := if o.Restore? then w.updates + multiset{o.target} else w.updates)
      case UpdateReturns(target, ok) =>
        w.(policy := UpdateReturned(w.policy, ok), updates := w.updates - multiset{target})
  }

  function Run(loaded: Config, events: seq<Event>): World
    decreases |events|
  {
    if events == [] then World(Opened(loaded), Nothing, multiset{})
    else Step(Run(loaded, events[..|events| - 1]), events[|events| - 1])
  }

  lemma RunOneMore(loaded: Config, events: seq<Event>, e: Event)
    ensures Run(loaded, events + [e]) == Step(Run(loaded, events), e)
  {
    DropLast(events, e);
  }

  /** The configuration is always a validated one, and no high stretch is open while active. */
  ghost predicate Inv(w: World) {
    InRange(w.policy.config) && (w.policy.phase == Active ==> w.policy.aboveSince.None?)
  }

  lemma StepKeepsInv(w: World, e: Event)
    requires Inv(w)
    ensures Inv(Step(w, e))
  {
  }

  lemma {:induction false} RunKeepsInv(loaded: Config, events: seq<Event>)
    requires InRange(loaded)
    ensures Inv(Run(loaded, events))
    decreases |events|
  {
    if events != [] {
      RunKeepsInv(loaded, events[..|events| - 1]);
      StepKeepsInv(Run(loaded, events[..|events| - 1]), events[|events| - 1]);
    }
  }
}
