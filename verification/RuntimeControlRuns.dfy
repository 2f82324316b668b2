/**
 What holds of the recorded runtime, its catalog and the watchers in every
 interleaving of operations, crashes and watcher steps.
 */
module RuntimeControlRuns {
  import opened Common
  import opened RuntimeControl

  /** There is a catalog exactly while a runtime is recorded as running, and it lists that runtime under its key. */
  ghost predicate CatalogOk(r: Recorded) {
    && (r.runtime.state == Running <==> r.catalog != map[])
    && (r.hasController <==> r.runtime.state == Running)
    && (r.runtime.state == Running ==> CurrentKey(r.runtime.target) in r.catalog)
    && (forall k :: k in r.catalog ==> CurrentKey(r.catalog[k].target) == k)
  }

  ghost predicate OperationOk(w: World) {
    && (w.operation.Built? || w.operation.OldStopped? || w.operation.Started? ==> ValidBuild(w.operation.build))
    && (w.operation.Started? ==> w.owner < w.core.generation && w.recorded.controlledStop < w.core.generation)
  }

  /** Watchers are of recorded starts, and one that found its core dead was right. */
  ghost predicate WatchersOk(w: World) {
    && w.owner <= w.core.generation && w.recorded.controlledStop <= w.core.generation
    && (forall g :: g in w.watchers ==> g <= w.owner)
    && (forall g :: g in w.watchers && w.watchers[g] == FoundDead && g == w.core.generation ==> !Alive(w.core.state))
  }

  /** A running runtime that no operation is about to replace has its watcher, armed. */
  predicate Watched(w: World) {
    w.recorded.runtime.state == Running && (w.operation.Idle? || w.operation.Built?) ==>
      w.owner in w.watchers && w.core.generation == w.owner && w.recorded.controlledStop != w.owner
  }

  predicate StoppedMeansDead(w: World) {
    w.recorded.runtime.state == Stopped && (w.operation.Idle? || w.operation.Built?) ==> !Alive(w.core.state)
  }

  ghost predicate Inv(w: World) {
    CatalogOk(w.recorded) && OperationOk(w) && WatchersOk(w) && Watched(w) && StoppedMeansDead(w)
  }

  lemma CatalogStaysOk(w: World, e: Event)
    requires CatalogOk(w.recorded) && OperationOk(w)
    ensures CatalogOk(Step(w, e).recorded)
  {
    if e.Commit? && Enabled(w, e) {
      assert w.operation.build.selected in w.operation.build.targets;
    }
  }

  lemma OperationStaysOk(w: World, e: Event)
    requires OperationOk(w) && WatchersOk(w)
    ensures OperationOk(Step(w, e))
  {
  }

  lemma WatchersStayOk(w: World, e: Event)
    requires OperationOk(w) && WatchersOk(w)
    ensures WatchersOk(Step(w, e))
  {
  }

  lemma WatchedStays(w: World, e: Event)
    requires Inv(w)
    ensures Watched(Step(w, e))
  {
  }

  lemma StoppedStaysDead(w: World, e: Event)
    requires Inv(w)
    ensures StoppedMeansDead(Step(w, e))
  {
  }

  lemma StepKeepsInv(w: World, e: Event)
    requires Inv(w)
    ensures Inv(Step(w, e))
  {
    CatalogStaysOk(w, e);
    OperationStaysOk(w, e);
    WatchersStayOk(w, e);
    WatchedStays(w, e);
    StoppedStaysDead(w, e);
  }

  lemma {:induction false} RunKeepsInv(allowLan: bool, events: seq<Event>)
    ensures Inv(Run(allowLan, events))
    decreases |events|
  {
    if events != [] {
      RunKeepsInv(allowLan, events[..|events| - 1]);
      StepKeepsInv(Run(allowLan, events[..|events| - 1]), events[|events| - 1]);
    }
  }

  /** On every run the catalog is there exactly while the recorded state is running, and lists the running target. */
  lemma CatalogMatchesState(allowLan: bool, events: seq<Event>)
    ensures
      var r := Run(allowLan, events).recorded;
      && (r.catalog != map[] <==> r.runtime.state == Running)
      && (r.runtime.state == Running ==> CurrentKey(r.runtime.target) in r.catalog)
      && (forall k :: k in r.catalog ==> CurrentKey(r.catalog[k].target) == k)
  {
    RunKeepsInv(allowLan, events);
  }

  /** A watcher changes the record only of its own generation, and only if that core is dead. */
  lemma WatcherFailsOnlyItsOwn(allowLan: bool, events: seq<Event>, generation: nat)
    ensures
      var w := Run(allowLan, events);
      Step(w, Decide(generation)).recorded != w.recorded ==>
        generation == w.owner && generation == w.core.generation && !Alive(w.core.state)
  {
    RunKeepsInv(allowLan, events);
  }

  /**
   While a runtime is recorded as running and nothing replaces it, its generation's watcher is there
   and not disarmed.
   */
  lemma RunningIsWatched(allowLan: bool, events: seq<Event>)
    ensures
      var w := Run(allowLan, events);
      w.recorded.runtime.state == Running && w.operation.Idle? ==>
        w.owner in w.watchers && !WatcherLeaves(w.recorded, w.core, w.owner)
  {
    RunKeepsInv(allowLan, events);
  }

  /** So a dead core is reported: two steps of that watcher record the failure and drop the catalog. */
  lemma CrashIsReported(allowLan: bool, events: seq<Event>)
    requires
      var w := Run(allowLan, events);
      w.recorded.runtime.state == Running && w.operation.Idle? && !Alive(w.core.state)
    ensures
      var w := Run(allowLan, events);
      Step(Step(w, Poll(w.owner)), Decide(w.owner)).recorded == FailureRecorded(w.recorded)
  {
    RunKeepsInv(allowLan, events);
    var w := Run(allowLan, events);
    assert w.owner in w.watchers;
    var polled := Step(w, Poll(w.owner));
    assert polled.watchers[w.owner] == FoundDead && polled.recorded == w.recorded && polled.core == w.core;
  }

  /** When the service records that it is stopped and no operation runs, no core is alive. */
  lemma {:induction false} StoppedLeavesNoCore(allowLan: bool, events: seq<Event>)
    ensures
      var w := Run(allowLan, events);
      w.recorded.runtime.state == Stopped && w.operation.Idle? ==> !Alive(w.core.state)
  {
    RunKeepsInv(allowLan, events);
  }

  /** A hot switch moves the record to another entry of the same catalog and touches nothing else. */
  lemma HotSwitchKeepsTheCore(allowLan: bool, events: seq<Event>, e: Event)
    requires e.HotSwitch? && Enabled(Run(allowLan, events), e)
    ensures
      var w := Run(allowLan, events);
      var v := Step(w, e);
      && v.core == w.core && v.watchers == w.watchers && v.recorded.catalog == w.recorded.catalog
      && v.recorded.runtime.mode == w.recorded.runtime.mode
        && v.recorded.runtime.allowLan == w.recorded.runtime.allowLan
      && CurrentKey(v.recorded.runtime.target) == if e.selectorOk then e.key else CurrentKey(w.recorded.runtime.target)
  {
    RunKeepsInv(allowLan, events);
  }

  // ----- what is recorded, read off the events

  /** The last request for a full apply that was taken up. */
  ghost function LastRequest(allowLan: bool, events: seq<Event>): Option<Event>
    ensures LastRequest(allowLan, events).Some? ==>
        LastRequest(allowLan, events).value.BuildFull? && ValidBuild(LastRequest(allowLan, events).value.build)
    decreases |events|
  {
    if events == [] then None
    else
      var rest, e := events[..|events| - 1], events[|events| - 1];
      if e.BuildFull? && Enabled(Run(allowLan, rest), e) then Some(e) else LastRequest(allowLan, rest)
  }

  /** The request whose core was started and recorded last. */
  ghost function Applied(allowLan: bool, events: seq<Event>): Option<Event>
    ensures Applied(allowLan, events).Some? ==>
        Applied(allowLan, events).value.BuildFull? && ValidBuild(Applied(allowLan, events).value.build)
    decreases |events|
  {
    if events == [] then None
    else
      var rest, e := events[..|events| - 1], events[|events| - 1];
      if e.Commit? && Enabled(Run(allowLan, rest), e) then LastRequest(allowLan, rest) else Applied(allowLan, rest)
  }

  /** The key chosen last: by the request that was applied, or by a hot switch that reached the selector since. */
  ghost function Chosen(allowLan: bool, events: seq<Event>): Key
    decreases |events|
  {
    if events == [] then DirectKey
    else
      var rest, e := events[..|events| - 1], events[|events| - 1];
      if !Enabled(Run(allowLan, rest), e) then Chosen(allowLan, rest)
      else if e.Commit? && LastRequest(allowLan, rest).Some? then LastRequest(allowLan, rest).value.build.selected
      else if e.HotSwitch? && e.selectorOk then e.key
      else Chosen(allowLan, rest)
  }

  /** Whether the last apply has been followed by a stop that succeeded. */
  ghost predicate StoppedSince(allowLan: bool, events: seq<Event>)
    decreases |events|
  {
    if events == [] then true
    else
      var rest, e := events[..|events| - 1], events[|events| - 1];
      if !Enabled(Run(allowLan, rest), e) then StoppedSince(allowLan, rest)
      else if e.Commit? then false
      else if e.StopEnds? && e.ok then true
      else StoppedSince(allowLan, rest)
  }

  /** The LAN setting of the last apply or the last change of the preference. */
  ghost function LanSetting(allowLan: bool, events: seq<Event>): bool
    decreases |events|
  {
    if events == [] then allowLan
    else
      var rest, e := events[..|events| - 1], events[|events| - 1];
      if !Enabled(Run(allowLan, rest), e) then LanSetting(allowLan, rest)
      else if e.Commit? && LastRequest(allowLan, rest).Some? then LastRequest(allowLan, rest).value.allowLan
      else if e.SetAllowLan? then e.allowLan
      else LanSetting(allowLan, rest)
  }

  /** The operation under way serves the last request. */
  ghost predicate ServesRequest(w: World, request: Option<Event>) {
    w.operation.Built? || w.operation.OldStopped? || w.operation.Started? ==>
      && request.Some? && request.value.BuildFull?
      && w.operation.build == request.value.build && w.operation.mode == request.value.mode
      && w.operation.allowLan == request.value.allowLan
  }

  lemma {:induction false} OperationServesRequest(allowLan: bool, events: seq<Event>)
    ensures ServesRequest(Run(allowLan, events), LastRequest(allowLan, events))
    decreases |events|
  {
    if events != [] {
      OperationServesRequest(allowLan, events[..|events| - 1]);
    }
  }

  /** Target, mode and LAN setting of the record are those of the applied request and the chosen key. */
  ghost predicate RecordIs(r: Recorded, applied: Option<Event>, chosen: Key, stopped: bool, lan: bool)
    requires applied.Some? ==> applied.value.BuildFull?
  {
    && r.runtime.allowLan == lan
    && (stopped ==> r.runtime.target == NoTarget && r.runtime.mode == NoMode && r.runtime.state != Running)
    && (!stopped ==>
      && applied.Some? && chosen in applied.value.build.targets
      && r.runtime.target == applied.value.build.targets[chosen].target
      && r.runtime.mode == applied.value.mode
      && (r.runtime.state == Running ==> r.catalog == applied.value.build.targets))
  }

  ghost predicate RecordFollows(allowLan: bool, events: seq<Event>) {
    RecordIs(Run(allowLan, events).recorded, Applied(allowLan, events), Chosen(allowLan, events),
      StoppedSince(allowLan, events), LanSetting(allowLan, events))
  }

  lemma CommitFollows(allowLan: bool, rest: seq<Event>, e: Event)
    requires RecordFollows(allowLan, rest) && e.Commit? && Enabled(Run(allowLan, rest), e)
    ensures RecordFollows(allowLan, rest + [e])
  {
    DropLast(rest, e);
    RunKeepsInv(allowLan, rest);
    OperationServesRequest(allowLan, rest);
  }

  lemma SwitchFollows(allowLan: bool, rest: seq<Event>, e: Event)
    requires RecordFollows(allowLan, rest) && e.HotSwitch? && Enabled(Run(allowLan, rest), e)
    ensures RecordFollows(allowLan, rest + [e])
  {
    DropLast(rest, e);
    RunKeepsInv(allowLan, rest);
  }

  predicate Ends(w: World, e: Event) {
    Enabled(w, e) && e.StopEnds? && e.ok
  }

  /** Every other event leaves what a full apply or a hot switch recorded, or it ends a stop. */
  lemma OtherStep(w: World, e: Event)
    requires CatalogOk(w.recorded) && !(Enabled(w, e) && (e.Commit? || e.HotSwitch?))
    ensures
      var r, v := w.recorded, Step(w, e).recorded;
      && v.runtime.allowLan == (if Enabled(w, e) && e.SetAllowLan? then e.allowLan else r.runtime.allowLan)
      && (Ends(w, e) ==> v.runtime.target == NoTarget && v.runtime.mode == NoMode && v.runtime.state == Stopped)
      && (!Ends(w, e) ==>
        && v.runtime.target == r.runtime.target && v.runtime.mode == r.runtime.mode
        && (v.runtime.state == Running ==> r.runtime.state == Running && v.catalog == r.catalog))
  {
  }

  lemma OtherReferences(allowLan: bool, rest: seq<Event>, e: Event)
    requires !(Enabled(Run(allowLan, rest), e) && (e.Commit? || e.HotSwitch?))
    ensures
      var w := Run(allowLan, rest);
      && Applied(allowLan, rest + [e]) == Applied(allowLan, rest)
      && Chosen(allowLan, rest + [e]) == Chosen(allowLan, rest)
      && StoppedSince(allowLan, rest + [e]) == (StoppedSince(allowLan, rest) || Ends(w, e))
      && LanSetting(allowLan, rest + [e]) ==
        (if Enabled(w, e) && e.SetAllowLan? then e.allowLan else LanSetting(allowLan, rest))
  {
    DropLast(rest, e);
  }

  lemma OtherFollows(allowLan: bool, rest: seq<Event>, e: Event)
    requires RecordFollows(allowLan, rest) && !(Enabled(Run(allowLan, rest), e) && (e.Commit? || e.HotSwitch?))
    ensures RecordFollows(allowLan, rest + [e])
  {
    RunKeepsInv(allowLan, rest);
    OtherStep(Run(allowLan, rest), e);
    OtherReferences(allowLan, rest, e);
    RunOneMore(allowLan, rest, e);
  }

  lemma RunOneMore(allowLan: bool, rest: seq<Event>, e: Event)
    ensures Run(allowLan, rest + [e]) == Step(Run(allowLan, rest), e)
  {
    DropLast(rest, e);
  }

  /**
   On every run the record shows the request that was applied last: its mode, the LAN setting of it or
   of a later change of the preference, its catalog while running, and the target chosen last in it.
   */
  lemma {:induction false} RecordFollowsTheEvents(allowLan: bool, events: seq<Event>)
    ensures RecordFollows(allowLan, events)
    decreases |events|
  {
    if events != [] {
      var rest, e := events[..|events| - 1], events[|events| - 1];
      SplitLast(events);
      RecordFollowsTheEvents(allowLan, rest);
      if Enabled(Run(allowLan, rest), e) && e.Commit? {
        CommitFollows(allowLan, rest, e);
      } else if Enabled(Run(allowLan, rest), e) && e.HotSwitch? {
        SwitchFollows(allowLan, rest, e);
      } else {
        OtherFollows(allowLan, rest, e);
      }
    }
  }

  /**
   After any run a hot switch is attempted exactly if a runtime with the mode and the LAN setting asked for is
   recorded, its core runs, and its catalog has the target with the signature that it has now.
   */
  lemma HotSwitchServesTheRequest(allowLan: bool, events: seq<Event>, e: Event)
    requires e.HotSwitch?
    ensures
      var w := Run(allowLan, events);
      Enabled(w, e) <==>
        && w.operation.Idle? && w.recorded.runtime.state == Running && w.core.state == CoreRunning
        && w.recorded.runtime.mode == e.mode && w.recorded.runtime.allowLan == e.allowLan
        && e.key in w.recorded.catalog && w.recorded.catalog[e.key].signature == e.signature
  {
    RunKeepsInv(allowLan, events);
  }

  /** An operation or a watcher gives up and records a failure. */
  ghost predicate Fails(w: World, e: Event) {
    match e
    case StopOld(ok, _) => (w.core.state == CoreStarting || w.core.state == CoreRunning) && !ok
    case RestoreFails => true
    case StartNew(ok, _) => !ok
      || w.core.state == CoreStarting || w.core.state == CoreRunning || w.core.state == CoreStopping
    case AbortNew(_) => true
    case StopEnds(ok, _) => !ok
    case Decide(generation) => generation == w.owner && generation == w.core.generation
      && w.recorded.controlledStop != generation && w.recorded.runtime.state != Stopped
    case _ => false
  }

  /** What the state was recorded as last: running by an apply, stopped by a stop, failed by a failure. */
  lemma StateFollowsTheEvents(allowLan: bool, events: seq<Event>, e: Event)
    ensures
      var w, v := Run(allowLan, events), Run(allowLan, events + [e]);
      && (Enabled(w, e) && e.Commit? ==> v.recorded.runtime.state == Running)
      && (Enabled(w, e) && e.StopEnds? && e.ok ==> v.recorded.runtime.state == Stopped)
      && (Enabled(w, e) && Fails(w, e) ==> v.recorded.runtime.state == Failed)
      && (!(Enabled(w, e) && (e.Commit? || (e.StopEnds? && e.ok) || Fails(w, e))) ==>
        v.recorded.runtime.state == w.recorded.runtime.state)
  {
    DropLast(events, e);
    RunKeepsInv(allowLan, events);
  }
}
