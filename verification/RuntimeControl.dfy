/**
 The service that applies targets to the core (internal/control/service.go). Its
 operations hold one mutex from start to end; beside them each successful start
 leaves a watcher that polls the supervisor, and the core may die at any moment.
 */
module RuntimeControl {
  import opened Common

  datatype Target = NoTarget | Node(subscription: string, node: string) | Pool(pool: string) | Chain(chain: string)
    | Direct

  /** The keys of the catalog; the separators of the original keys keep the kinds and the ids apart. */
  datatype Key = NodeKey(subscription: string, node: string) | PoolKey(pool: string) | ChainKey(chain: string)
    | DirectKey

  datatype State = Stopped | Running | Failed

  datatype Mode = SystemProxy | Tun | NoMode

  datatype Runtime = Runtime(state: State, target: Target, mode: Mode, allowLan: bool)

  datatype Entry = Entry(tag: string, signature: string, target: Target)

  /** currentTargetKey: everything that is not direct, a pool or a chain is keyed as a node. */
  function CurrentKey(t: Target): Key {
    match t
    case Direct => DirectKey
    case Pool(id) => PoolKey(id)
    case Chain(id) => ChainKey(id)
    case Node(subscription, node) => NodeKey(subscription, node)
    case NoTarget => NodeKey("", "")
  }

  datatype Recorded = Recorded(runtime: Runtime, catalog: map<Key, Entry>, hasController: bool, controlledStop: nat)

  /** What buildRuntimeCatalog hands on: every entry under its own key, and the selected one among them. */
  datatype Build = Build(targets: map<Key, Entry>, selected: Key)

  predicate ValidBuild(b: Build) {
    && b.selected in b.targets
    && forall k :: k in b.targets ==> CurrentKey(b.targets[k].target) == k && b.targets[k].target != NoTarget
  }

  /** What the supervisor shows: the generation of the last start, and its state. */
  datatype Core = Core(generation: nat, state: CoreState)

  datatype CoreState = CoreStopped | CoreStarting | CoreRunning | CoreStopping | CoreFailed

  predicate Alive(c: CoreState) {
    c.CoreStarting? || c.CoreRunning?
  }

  predicate Busy(c: CoreState) {
    Alive(c) || c.CoreStopping?
  }

  // ----- the locked segments

  function FailureRecorded(r: Recorded): Recorded {
    r.(runtime := r.runtime.(state := Failed), catalog := map[], hasController := false)
  }

  function StopRecorded(r: Recorded): Recorded {
    r.(runtime := Runtime(Stopped, NoTarget, NoMode, r.runtime.allowLan), catalog := map[], hasController := false)
  }

  function ApplyRecorded(r: Recorded, b: Build, mode: Mode, allowLan: bool): Recorded
    requires b.selected in b.targets
  {
    r.(runtime := Runtime(Running, b.targets[b.selected].target, mode, allowLan), catalog := b.targets,
        hasController := true)
  }

  /** canAttemptHotSwitch */
  predicate CanHotSwitch(r: Recorded, core: Core, mode: Mode, allowLan: bool) {
    && r.hasController && r.catalog != map[]
    && r.runtime.state == Running && r.runtime.mode == mode && r.runtime.allowLan == allowLan
    && core.state == CoreRunning
  }

  /** hotSwitchTarget: the target is in the running catalog with the signature it has now. */
  predicate Switchable(r: Recorded, key: Key, signature: string) {
    key in r.catalog && r.catalog[key].signature == signature
  }

  function HotSwitched(r: Recorded, key: Key, selectorOk: bool): Recorded
    requires key in r.catalog
  {
    if CurrentKey(r.runtime.target) == CurrentKey(r.catalog[key].target) || !selectorOk then r
    else r.(runtime := r.runtime.(state := Running, target := r.catalog[key].target))
  }

  /** Whether a watcher that found the core dead leaves without a word. */
  predicate WatcherLeaves(r: Recorded, core: Core, generation: nat) {
    core.generation != generation || r.runtime.state == Stopped || r.controlledStop == generation
  }

  class Service {
    var runtime: Runtime
    var catalog: map<Key, Entry>
    var hasController: bool
    var controlledStop: nat

    function View(): Recorded
      reads this
    {
      Recorded(runtime, catalog, hasController, controlledStop)
    }

    constructor (allowLan: bool)
      ensures View() == Recorded(Runtime(Stopped, NoTarget, NoMode, allowLan), map[], false, 0)
    {
      runtime := Runtime(Stopped, NoTarget, NoMode, allowLan);
      catalog, hasController, controlledStop := map[], false, 0;
    }

    method MarkControlledStop(core: Core)
      modifies this`controlledStop
      ensures controlledStop == core.generation
    {
      controlledStop := core.generation;
    }

    method RecordFailure()
      modifies this
      ensures View() == FailureRecorded(old(View()))
    {
      runtime := runtime.(state := Failed);
      catalog := map[];
      hasController := false;
    }

    method RecordApply(b: Build, mode: Mode, allowLan: bool)
      requires b.selected in b.targets
      modifies this
      ensures View() == ApplyRecorded(old(View()), b, mode, allowLan)
    {
      runtime := Runtime(Running, b.targets[b.selected].target, mode, allowLan);
      catalog := b.targets;
      hasController := true;
    }

    method CanAttemptHotSwitch(core: Core, mode: Mode, allowLan: bool) returns (can: bool)
      ensures can == CanHotSwitch(View(), core, mode, allowLan)
    {
      var reachable := hasController && |catalog| > 0;
      assert |catalog| == 0 <==> catalog == map[];
      if !reachable || runtime.state != Running || runtime.mode != mode || runtime.allowLan != allowLan {
        return false;
      }
      return core.state == CoreRunning;
    }

    method HotSwitch(key: Key, selectorOk: bool)
      requires key in catalog
      modifies this`runtime
      ensures View() == HotSwitched(old(View()), key, selectorOk)
    {
      var current, target := runtime, catalog[key].target;
      if CurrentKey(current.target) == CurrentKey(target) {
        return;
      }
      if !selectorOk {
        return;
      }
      runtime := Runtime(Running, target, current.mode, current.allowLan);
    }

    method RecordStop()
      modifies this
      ensures View() == StopRecorded(old(View()))
    {
      var allowLan := runtime.allowLan;
      runtime := Runtime(Stopped, NoTarget, NoMode, allowLan);
      catalog := map[];
      hasController := false;
    }

    method SetAllowLan(allowLan: bool, saved: bool) returns (ok: bool)
      modifies this`runtime
      ensures ok == (saved && old(runtime).state != Running)
      ensures runtime == if ok then old(runtime).(allowLan := allowLan) else old(runtime)
    {
      if runtime.state == Running || !saved {
        return false;
      }
      runtime := runtime.(allowLan := allowLan);
      return true;
    }

    /** The locked part of a watcher that found the core of its generation dead. */
    method WatcherDecides(generation: nat, core: Core) returns (failed: bool)
      modifies this
      ensures failed == !WatcherLeaves(old(View()), core, generation)
      ensures View() == if failed then FailureRecorded(old(View())) else old(View())
    {
      var alreadyStopped, controlled := runtime.state == Stopped, controlledStop == generation;
      if core.generation != generation || alreadyStopped || controlled {
        return false;
      }
      RecordFailure();
      return true;
    }
  }

  // ----- every interleaving

  /** How far the operation that holds the mutex has come. */
  datatype Operation =
    | Idle
    | Built(build: Build, mode: Mode, allowLan: bool)         // configuration saved, old core still as it was
    | OldStopped(build: Build, mode: Mode, allowLan: bool)
    | Started(build: Build, mode: Mode, allowLan: bool)
    | StopMarked                                              // Stop, about to stop the core

  datatype WatcherState = Polling | FoundDead

  /** `owner` is the generation whose start was last recorded as running. */
  datatype World = World(
    recorded: Recorded,
    core: Core,
    operation: Operation,
    watchers: map<nat, WatcherState>,
    owner: nat)

  datatype Event =
    | HotSwitch(key: Key, signature: string, mode: Mode, allowLan: bool, selectorOk: bool)
    | BuildFull(build: Build, mode: Mode, allowLan: bool)
    | StopOld(ok: bool, after: CoreState)
    | RestoreFails
    | StartNew(ok: bool, after: CoreState)
    | AbortNew(after: CoreState)
    | Commit
    | StopBegins
    | StopEnds(ok: bool, after: CoreState)
    | SetAllowLan(allowLan: bool)
    | CoreMoves(after: CoreState)
    | Poll(generation: nat)
    | Decide(generation: nat)

  /** The core comes alive only by a start; a dead one at most gets from stopping to its end. */
  predicate MayMove(before: CoreState, after: CoreState) {
    match before
    case CoreRunning => !after.CoreStopping? && !after.CoreStopped?
    case CoreStarting => !after.CoreStopping? && !after.CoreStopped?
    case CoreStopping => after.CoreStopped? || after.CoreFailed?
    case _ => after == before
  }

  /** An attempt to stop the core brings no dead one to life. */
  predicate MayStopAs(before: CoreState, after: CoreState) {
    Alive(after) ==> Alive(before)
  }

  predicate Enabled(w: World, e: Event) {
    match e
    case HotSwitch(key, signature, mode, allowLan, _) =>
      w.operation.Idle? && CanHotSwitch(w.recorded, w.core, mode, allowLan) && Switchable(w.recorded, key, signature)
    case BuildFull(build, _, _) => w.operation.Idle? && ValidBuild(build)
    case StopOld(_, after) => w.operation.Built? && MayStopAs(w.core.state, after)
    case RestoreFails => w.operation.OldStopped? && w.operation.mode != SystemProxy
    case StartNew(_, after) => w.operation.OldStopped? && !Alive(after)
    case AbortNew(after) => w.operation.Started? && MayStopAs(w.core.state, after)
    case Commit => w.operation.Started?
    case StopBegins => w.operation.Idle?
    case StopEnds(_, after) => w.operation.StopMarked? && MayStopAs(w.core.state, after)
    case SetAllowLan(_) => w.operation.Idle? && w.recorded.runtime.state != Running
    case CoreMoves(after) => MayMove(w.core.state, after)
    case Poll(generation) => generation in w.watchers && w.watchers[generation] == Polling
    case Decide(generation) => generation in w.watchers && w.watchers[generation] == FoundDead && w.operation.Idle?
  }

  function FailNow(w: World): World {
    w.(recorded := FailureRecorded(w.recorded), operation := Idle)
  }

  function Marked(w: World): World {
    w.(recorded := w.recorded.(controlledStop := w.core.generation))
  }

  function Step(w: World, e: Event): World {
    if !Enabled(w, e) then w
    else
      match e
      case HotSwitch(key, _, _, _, selectorOk) => w.(recorded := HotSwitched(w.recorded, key, selectorOk))
      case BuildFull(build, mode, allowLan) => w.(operation := Built(build, mode, allowLan))
      case StopOld(ok, after) =>
        var next := w.(operation := OldStopped(w.operation.build, w.operation.mode, w.operation.allowLan));
        if !Alive(w.core.state) then next
        else if ok then Marked(next.(core := next.core.(state := CoreStopped)))
        else FailNow(Marked(next.(core := next.core.(state := after))))
      case RestoreFails => FailNow(w)
      case StartNew(ok, after) =>
        if Busy(w.core.state) then FailNow(w)
        else if ok then
          w.(core := Core(w.core.generation + 1, CoreRunning),
             operation := Started(w.operation.build, w.operation.mode, w.operation.allowLan))
        else FailNow(w.(core := Core(w.core.generation + 1, after)))
      case AbortNew(after) => FailNow(Marked(w.(core := w.core.(state := after))))
      case Commit =>
        if w.operation.build.selected in w.operation.build.targets then
          w.(recorded := ApplyRecorded(w.recorded, w.operation.build, w.operation.mode, w.operation.allowLan),
             operation := Idle, watchers := w.watchers[w.core.generation := Polling], owner := w.core.generation)
        else w
      case StopBegins => Marked(w.(operation := StopMarked))
      case StopEnds(ok, after) =>
        if ok then w.(recorded := StopRecorded(w.recorded), operation := Idle, core := w.core.(state := CoreStopped))
        else FailNow(w.(core := w.core.(state := after)))
      case SetAllowLan(allowLan) => w.(recorded := w.recorded.(runtime := w.recorded.runtime.(allowLan := allowLan)))
      case CoreMoves(after) => w.(core := w.core.(state := after))
      case Poll(generation) =>
        if w.core.generation != generation then w.(watchers := w.watchers - {generation})
        else if Alive(w.core.state) then w
        else w.(watchers := w.watchers[generation := FoundDead])
      case Decide(generation) =>
        var left := w.(watchers := w.watchers - {generation});
        if WatcherLeaves(w.recorded, w.core, generation) then left
        else left.(recorded := FailureRecorded(w.recorded))
  }

  function Initial(allowLan: bool): World {
    World(Recorded(Runtime(Stopped, NoTarget, NoMode, allowLan), map[], false, 0), Core(0, CoreStopped), Idle, map[], 0)
  }

  function Run(allowLan: bool, events: seq<Event>): World
    decreases |events|
  {
    if events == [] then Initial(allowLan) else Step(Run(allowLan, events[..|events| - 1]), events[|events| - 1])
  }
}
