/**
 Every run of the two stores. A refresh and a deletion change the subscriptions
 first and the pools later; in between they hold the subscription's refresh lock.
 Creating a pool looks its members up one by one and takes the lock of the pools
 only to store it; changing a pool holds that lock from the first look-up on.
 Anything else may happen in between, any write of either file may fail, and the
 process may be killed and started again at any point.
 */
module StoreRuns {
  import opened Common
  import opened Subscriptions
  import opened PoolMembers
  import opened PoolIntegrity

  /** A refresh that has still to reconcile the pools, with the nodes before and after. */
  datatype Refreshing = Refreshing(previous: seq<Node>, current: seq<Node>)

  /** The members that a pool is to get, and how many of them have been looked up so far. */
  datatype Draft = Draft(members: seq<Member>, checked: nat)

  /** An Update at work, which holds the lock of the pools. */
  datatype Edit = Edit(pool: string, draft: Draft)

  datatype World = World(
    subs: seq<Subscription>,
    pools: seq<Pool>,
    refreshing: map<string, Refreshing>,
    deleting: set<string>,
    drafts: map<string, Draft>,
    edit: Option<Edit>)

  const FIRST_START := World([], [], map[], {}, map[], None)

  datatype Event =
    | CreateSub(id: string, persisted: bool)
    | Refresh(id: string, fetched: Option<seq<Node>>, persisted: bool)
    | Import(id: string, links: seq<Option<Node>>, persisted: bool)
    | DeleteSub(id: string, persisted: bool)
    | Activate(id: string, persisted: bool)
    | Select(id: string, node: string, persisted: bool)
    | BeginCreate(id: string, members: seq<Member>)
    | CheckCreate(id: string)
    | BeginUpdate(id: string, members: seq<Member>)
    | CheckUpdate
    | StoreCreate(id: string, persisted: bool)
    | StoreUpdate(persisted: bool)
    | DeletePool(id: string, persisted: bool)
    | Reconcile(id: string, persisted: bool)
    | CleanUp(id: string, persisted: bool)
    | Restart(persisted: bool)

  predicate Locked(w: World, id: string) {
    id in w.refreshing || id in w.deleting
  }

  predicate Exists(subs: seq<Subscription>, id: string) {
    IndexOf(subs, id) < |subs|
  }

  function StepSubs(w: World, e: Event): World {
    match e
    case CreateSub(id, persisted) =>
      if persisted && !Exists(w.subs, id) && !Locked(w, id) then
        w.(subs := w.subs + [Subscription(id, w.subs == [], [], [], "")])
      else w
    case Refresh(id, fetched, persisted) =>
      if persisted && Exists(w.subs, id) && !Locked(w, id) then
        var i := IndexOf(w.subs, id);
        var s := if fetched.Some? then Refreshed(w.subs[i], fetched.value) else w.subs[i];
        w.(subs := w.subs[i := s], refreshing := w.refreshing[id := Refreshing(w.subs[i].nodes, s.nodes)])
      else w
    case Import(id, links, persisted) =>
      if persisted && Exists(w.subs, id) && !Locked(w, id) then
        var i := IndexOf(w.subs, id);
        w.(subs := w.subs[i := ImportedAll(w.subs[i], links)])
      else w
    case DeleteSub(id, persisted) =>
      if persisted && Exists(w.subs, id) && !Locked(w, id) then
        w.(subs := DeletedAt(w.subs, IndexOf(w.subs, id)), deleting := w.deleting + {id})
      else w
    case Activate(id, persisted) =>
      if persisted && Exists(w.subs, id) then w.(subs := ActivatedAt(w.subs, IndexOf(w.subs, id))) else w
    case Select(id, node, persisted) =>
      if persisted && Exists(w.subs, id) && node in Ids(w.subs[IndexOf(w.subs, id)].nodes) then
        var i := IndexOf(w.subs, id);
        w.(subs := w.subs[i := w.subs[i].(selected := node)])
      else w
    case _ => w
  }

  /** The next look-up of a draft; it is given up if the member does not resolve. */
  function LookUp(subs: seq<Subscription>, d: Draft): Option<Draft> {
    if d.checked >= |d.members| then Some(d)
    else if Resolves(subs, d.members[d.checked]) then Some(d.(checked := d.checked + 1))
    else None
  }

  function StepDrafts(w: World, e: Event): World {
    match e
    case BeginCreate(id, members) =>
      if id !in w.drafts && Admitted(members).Ok? then
        w.(drafts := w.drafts[id := Draft(Admitted(members).value, 0)])
      else w
    case CheckCreate(id) =>
      if id in w.drafts then
        match LookUp(w.subs, w.drafts[id])
        case Some(next) => w.(drafts := w.drafts[id := next])
        case None => w.(drafts := w.drafts - {id})
      else w
    case BeginUpdate(id, members) =>
      if w.edit.None? && PoolIndex(w.pools, id) < |w.pools| && Admitted(members).Ok? then
        w.(edit := Some(Edit(id, Draft(Admitted(members).value, 0))))
      else w
    case CheckUpdate =>
      if w.edit.Some? then
        match LookUp(w.subs, w.edit.value.draft)
        case Some(next) => w.(edit := Some(w.edit.value.(draft := next)))
        case None => w.(edit := None)
      else w
    case _ => w
  }

  predicate Complete(d: Draft) {
    d.checked == |d.members|
  }

  /** The pool can be stored: all its members have been looked up, and the lock of the pools is free. */
  predicate CanStore(w: World, id: string) {
    w.edit.None? && id in w.drafts && Complete(w.drafts[id])
  }

  predicate CanReconcile(w: World, id: string) {
    w.edit.None? && id in w.refreshing
  }

  /** The clean-up of a deletion, or of an attempt to delete what does not exist. */
  predicate CanCleanUp(w: World, id: string) {
    w.edit.None? && (id in w.deleting || !Exists(w.subs, id))
  }

  /** The outcome of a write of the pools: written, not needed, or failed. */
  predicate Written(w: World, after: seq<Pool>, persisted: bool) {
    after == w.pools || persisted
  }

  function ReconciledPools(w: World, id: string): seq<Pool>
    requires id in w.refreshing
  {
    Reconciled(w.pools, id, w.refreshing[id].previous, w.refreshing[id].current)
  }

  function StepPools(w: World, e: Event): World {
    match e
    case StoreCreate(id, persisted) =>
      if CanStore(w, id) then
        var done := w.(drafts := w.drafts - {id});
        if persisted then done.(pools := w.pools + [Pool(id, w.drafts[id].members)]) else done
      else w
    case StoreUpdate(persisted) =>
      if w.edit.Some? && Complete(w.edit.value.draft) then
        var i, done := PoolIndex(w.pools, w.edit.value.pool), w.(edit := None);
        if persisted && i < |w.pools| then
          done.(pools := w.pools[i := Pool(w.edit.value.pool, w.edit.value.draft.members)])
        else done
      else w
    case DeletePool(id, persisted) =>
      var i := PoolIndex(w.pools, id);
      if w.edit.None? && persisted && i < |w.pools| then w.(pools := w.pools[..i] + w.pools[i + 1..]) else w
    case Reconcile(id, persisted) =>
      if CanReconcile(w, id) then
        var after, done := ReconciledPools(w, id), w.(refreshing := w.refreshing - {id});
        if Written(w, after, persisted) then done.(pools := after) else done
      else w
    case CleanUp(id, persisted) =>
      if CanCleanUp(w, id) then
        var after, done := Dropped(w.pools, id), w.(deleting := w.deleting - {id});
        if Written(w, after, persisted) then done.(pools := after) else done
      else w
    case Restart(persisted) =>
      var after := Repaired(w.pools, w.subs);
      if Written(w, after, persisted) then World(w.subs, after, map[], {}, map[], None) else w
    case _ => w
  }

  predicate ChangesSubs(e: Event) {
    e.CreateSub? || e.Refresh? || e.Import? || e.DeleteSub? || e.Activate? || e.Select?
  }

  predicate ChangesDrafts(e: Event) {
    e.BeginCreate? || e.CheckCreate? || e.BeginUpdate? || e.CheckUpdate?
  }

  /** A start whose repair cannot be written ends the process; the next attempt finds the same files. */
  function Step(w: World, e: Event): World {
    if ChangesSubs(e) then StepSubs(w, e) else if ChangesDrafts(e) then StepDrafts(w, e) else StepPools(w, e)
  }

  function RunFrom(w: World, events: seq<Event>): World
    decreases |events|
  {
    if events == [] then w else Step(RunFrom(w, events[..|events| - 1]), events[|events| - 1])
  }

  function Run(events: seq<Event>): World {
    RunFrom(FIRST_START, events)
  }

  // ----- the subscriptions on their own

  ghost predicate OneActive(subs: seq<Subscription>) {
    subs != [] ==> exists k :: 0 <= k < |subs| && OnlyActive(subs, k)
  }

  ghost predicate OnlyActive(subs: seq<Subscription>, k: int) {
    forall j :: 0 <= j < |subs| ==> (subs[j].active <==> j == k)
  }

  /** Distinct ids, each subscription sound, and exactly one active as soon as there is any. */
  ghost predicate SubsOk(subs: seq<Subscription>) {
    && (forall i, j :: 0 <= i < j < |subs| ==> subs[i].id != subs[j].id)
    && (forall i :: 0 <= i < |subs| ==> Sound(subs[i]))
    && OneActive(subs)
  }

  lemma ReplaceKeepsSubs(subs: seq<Subscription>, i: nat, s: Subscription)
    requires SubsOk(subs) && i < |subs| && Sound(s) && s.id == subs[i].id && s.active == subs[i].active
    ensures SubsOk(subs[i := s])
  {
    var k :| 0 <= k < |subs| && OnlyActive(subs, k);
    assert OnlyActive(subs[i := s], k);
  }

  lemma CreateKeepsSubs(subs: seq<Subscription>, id: string)
    requires SubsOk(subs) && !Exists(subs, id)
    ensures SubsOk(subs + [Subscription(id, subs == [], [], [], "")])
  {
    var all := subs + [Subscription(id, subs == [], [], [], "")];
    if subs == [] {
      assert OnlyActive(all, 0);
    } else {
      var k :| 0 <= k < |subs| && OnlyActive(subs, k);
      assert OnlyActive(all, k);
    }
  }

  lemma ActivateKeepsSubs(subs: seq<Subscription>, i: nat)
    requires SubsOk(subs) && i < |subs|
    ensures SubsOk(ActivatedAt(subs, i)) && ActivatedAt(subs, i)[i].active
  {
    assert OnlyActive(ActivatedAt(subs, i), i);
  }

  lemma DeleteKeepsSubs(subs: seq<Subscription>, i: nat)
    requires SubsOk(subs) && i < |subs|
    ensures SubsOk(DeletedAt(subs, i))
  {
    var after := DeletedAt(subs, i);
    var k :| 0 <= k < |subs| && OnlyActive(subs, k);
    forall j | 0 <= j < |after|
      ensures after[j].id == subs[if j < i then j else j + 1].id
      ensures after[j].(active := false) == subs[if j < i then j else j + 1].(active := false)
    {
    }
    if after != [] {
      assert OnlyActive(after, if k == i then 0 else if k < i then k else k - 1);
    }
  }

  lemma ChangedSubIsSound(s: Subscription, e: Event)
    requires Sound(s)
    ensures e.Refresh? && e.fetched.Some? ==> Sound(Refreshed(s, e.fetched.value))
    ensures e.Import? ==> Sound(ImportedAll(s, e.links)) && Ids(s.nodes) <= Ids(ImportedAll(s, e.links).nodes)
    ensures e.Select? && e.node in Ids(s.nodes) ==> Sound(s.(selected := e.node))
    ensures e.Import? ==> ImportedAll(s, e.links).id == s.id && ImportedAll(s, e.links).active == s.active
  {
    if e.Refresh? && e.fetched.Some? {
      RefreshKeepsImports(s, e.fetched.value);
    } else if e.Import? {
      ImportsAreSound(s, e.links);
      ImportKeepsIdentity(s, e.links);
    }
  }

  lemma {:induction false} ImportKeepsIdentity(s: Subscription, links: seq<Option<Node>>)
    ensures ImportedAll(s, links).id == s.id && ImportedAll(s, links).active == s.active
    decreases |links|
  {
    if links != [] {
      ImportKeepsIdentity(s, links[..|links| - 1]);
    }
  }

  lemma StepKeepsSubs(w: World, e: Event)
    requires SubsOk(w.subs)
    ensures SubsOk(Step(w, e).subs)
  {
    if ChangesSubs(e) && Exists(w.subs, e.id) {
      var i := IndexOf(w.subs, e.id);
      ChangedSubIsSound(w.subs[i], e);
      ActivateKeepsSubs(w.subs, i);
      DeleteKeepsSubs(w.subs, i);
      if !e.Activate? && !e.DeleteSub? && Step(w, e) != w {
        assert Step(w, e).subs == w.subs[i := Step(w, e).subs[i]];
        ReplaceKeepsSubs(w.subs, i, Step(w, e).subs[i]);
      }
    } else if e.CreateSub? && !Exists(w.subs, e.id) {
      CreateKeepsSubs(w.subs, e.id);
    }
  }

  // ----- the nodes a subscription has

  function NodesOf(subs: seq<Subscription>, id: string): set<string> {
    var i := IndexOf(subs, id);
    if i < |subs| then Ids(subs[i].nodes) else {}
  }

  function ManualOf(subs: seq<Subscription>, id: string): seq<string> {
    var i := IndexOf(subs, id);
    if i < |subs| then subs[i].manual else []
  }

  /** Subscription `x` looks the same in both lists, except for its selection and whether it is active. */
  predicate SameFor(a: seq<Subscription>, b: seq<Subscription>, x: string) {
    Exists(a, x) == Exists(b, x) && NodesOf(a, x) == NodesOf(b, x) && ManualOf(a, x) == ManualOf(b, x)
  }

  lemma SameForAligned(a: seq<Subscription>, b: seq<Subscription>, x: string)
    requires |a| == |b| && forall k :: 0 <= k < |a| ==> b[k].id == a[k].id
    requires forall k :: 0 <= k < |a| && a[k].id == x ==> b[k].nodes == a[k].nodes && b[k].manual == a[k].manual
    ensures IndexOf(a, x) == IndexOf(b, x) && SameFor(a, b, x)
  {
  }

  lemma ReplacedSub(subs: seq<Subscription>, id: string, s: Subscription)
    requires Exists(subs, id) && s.id == id
    ensures
      var after := subs[IndexOf(subs, id) := s];
      Exists(after, id) && NodesOf(after, id) == Ids(s.nodes) && ManualOf(after, id) == s.manual
  {
    var after := subs[IndexOf(subs, id) := s];
    assert forall k :: 0 <= k < |subs| ==> after[k].id == subs[k].id;
    assert IndexOf(after, id) == IndexOf(subs, id);
  }

  lemma SameForCreated(subs: seq<Subscription>, s: Subscription, x: string)
    requires x != s.id
    ensures SameFor(subs, subs + [s], x)
  {
    var k := IndexOf(subs, x);
    var after := subs + [s];
    if k < |subs| {
      assert after[k] == subs[k];
      assert IndexOf(after, x) == k;
    } else {
      assert IndexOf(after, x) == |after|;
    }
  }

  lemma SameForDeleted(subs: seq<Subscription>, i: nat, x: string)
    requires i < |subs| && x != subs[i].id
    ensures SameFor(subs, DeletedAt(subs, i), x)
  {
    var after := DeletedAt(subs, i);
    forall j | 0 <= j < |after|
      ensures
        var from := subs[if j < i then j else j + 1];
        after[j].id == from.id && after[j].nodes == from.nodes && after[j].manual == from.manual
    {
    }
    var k := IndexOf(subs, x);
    if k < |subs| {
      var at := if k < i then k else k - 1;
      assert after[at].id == x;
      assert IndexOf(after, x) == at;
    } else {
      assert IndexOf(after, x) == |after|;
    }
  }

  lemma AlignedStay(w: World, e: Event, x: string)
    requires (((e.Refresh? || e.Import?) && x != e.id) || e.Activate? || e.Select?)
    ensures SameFor(w.subs, Step(w, e).subs, x)
  {
    if e.Import? && Exists(w.subs, e.id) {
      ImportKeepsIdentity(w.subs[IndexOf(w.subs, e.id)], e.links);
    }
    SameForAligned(w.subs, Step(w, e).subs, x);
  }

  /** An event changes nodes and imports of no subscription but its own. */
  lemma OthersStay(w: World, e: Event, x: string)
    requires ChangesSubs(e) && (x != e.id || e.Activate? || e.Select?)
    ensures SameFor(w.subs, Step(w, e).subs, x)
  {
    var v := Step(w, e);
    if v != w {
      if e.CreateSub? {
        SameForCreated(w.subs, v.subs[|w.subs|], x);
      } else if e.DeleteSub? {
        SameForDeleted(w.subs, IndexOf(w.subs, e.id), x);
      } else {
        AlignedStay(w, e, x);
      }
    }
  }

  /** A refresh or an import leaves its subscription with the nodes and imports of the new value. */
  lemma OwnNodes(w: World, e: Event)
    requires (e.Refresh? || e.Import?) && e.persisted && Exists(w.subs, e.id) && !Locked(w, e.id)
    ensures
      var s := w.subs[IndexOf(w.subs, e.id)];
      var t := if e.Import? then ImportedAll(s, e.links) else if e.fetched.Some? then Refreshed(s, e.fetched.value)
          else s;
      var v := Step(w, e);
      && Exists(v.subs, e.id) && NodesOf(v.subs, e.id) == Ids(t.nodes) && ManualOf(v.subs, e.id) == t.manual
      && v.refreshing == if e.Import? then w.refreshing else w.refreshing[e.id := Refreshing(s.nodes, t.nodes)]
  {
    var s := w.subs[IndexOf(w.subs, e.id)];
    if e.Import? {
      ImportKeepsIdentity(s, e.links);
      ReplacedSub(w.subs, e.id, ImportedAll(s, e.links));
    } else {
      ReplacedSub(w.subs, e.id, if e.fetched.Some? then Refreshed(s, e.fetched.value) else s);
    }
  }

  // ----- what every event keeps

  /** Each member once, and each names a node. */
  ghost predicate Named(members: seq<Member>) {
    Distinct(members) && forall m :: m in members ==> m.node != ""
  }

  /** The node exists, or the work that changed it is still under way and will see to the member. */
  predicate Known(w: World, m: Member) {
    || m.node in NodesOf(w.subs, m.subscription)
    || (m.subscription in w.refreshing && m.node in Ids(w.refreshing[m.subscription].previous))
    || m.subscription in w.deleting
  }

  /** A refresh under way knows the nodes its subscription has; what is being deleted is gone. */
  ghost predicate WorkOk(w: World) {
    && (forall id :: id in w.refreshing ==>
      && Exists(w.subs, id) && id !in w.deleting
      && NodesOf(w.subs, id) == Ids(w.refreshing[id].current))
    && (forall id :: id in w.deleting ==> !Exists(w.subs, id))
  }

  ghost predicate DraftsOk(w: World) {
    forall id :: id in w.drafts ==> w.drafts[id].checked <= |w.drafts[id].members| && Named(w.drafts[id].members)
  }

  /** What an Update has looked up so far cannot get lost, because it holds the lock of the pools. */
  ghost predicate EditOk(w: World) {
    w.edit.Some? ==>
      var d := w.edit.value.draft;
      && d.checked <= |d.members| && Named(d.members)
      && forall k :: 0 <= k < d.checked ==> Known(w, d.members[k])
  }

  ghost predicate PoolsOk(w: World) {
    forall p :: 0 <= p < |w.pools| ==> Named(w.pools[p].members)
  }

  ghost predicate Inv(w: World) {
    SubsOk(w.subs) && WorkOk(w) && DraftsOk(w) && EditOk(w) && PoolsOk(w)
  }

  /** The events that end the work on a subscription. */
  predicate Ends(e: Event, sub: string) {
    ((e.Reconcile? || e.CleanUp?) && e.id == sub) || e.Restart?
  }

  lemma SubsStepKnows(w: World, e: Event, m: Member)
    requires SubsOk(w.subs) && WorkOk(w) && ChangesSubs(e) && Known(w, m)
    ensures Known(Step(w, e), m)
  {
    if m.subscription != e.id || e.Activate? || e.Select? {
      OthersStay(w, e, m.subscription);
    } else if Step(w, e) != w && (e.Refresh? || e.Import?) {
      OwnNodes(w, e);
      ChangedSubIsSound(w.subs[IndexOf(w.subs, e.id)], e);
    }
  }

  lemma PoolStepKnows(w: World, e: Event, m: Member)
    requires Known(w, m) && !ChangesSubs(e) && !ChangesDrafts(e) && !Ends(e, m.subscription)
    ensures Known(Step(w, e), m)
  {
  }

  lemma DraftStepKnows(w: World, e: Event, m: Member)
    requires Known(w, m) && ChangesDrafts(e)
    ensures Known(Step(w, e), m)
  {
  }

  /** A known member can only get lost when the work on its subscription ends. */
  lemma StepKnows(w: World, e: Event, m: Member)
    requires SubsOk(w.subs) && WorkOk(w) && Known(w, m) && !Ends(e, m.subscription)
    ensures Known(Step(w, e), m)
  {
    if ChangesSubs(e) {
      SubsStepKnows(w, e, m);
    } else if ChangesDrafts(e) {
      DraftStepKnows(w, e, m);
    } else {
      PoolStepKnows(w, e, m);
    }
  }

  lemma DeletedIsGone(subs: seq<Subscription>, i: nat)
    requires SubsOk(subs) && i < |subs|
    ensures !Exists(DeletedAt(subs, i), subs[i].id)
  {
    var after := DeletedAt(subs, i);
    forall j | 0 <= j < |after| ensures after[j].id == subs[if j < i then j else j + 1].id {}
  }

  lemma RefreshingStaysOk(w: World, e: Event, id: string)
    requires SubsOk(w.subs) && WorkOk(w) && ChangesSubs(e) && id in Step(w, e).refreshing
    ensures
      var v := Step(w, e);
      Exists(v.subs, id) && id !in v.deleting && NodesOf(v.subs, id) == Ids(v.refreshing[id].current)
  {
    if id != e.id || e.Activate? || e.Select? {
      OthersStay(w, e, id);
    } else if Step(w, e) != w {
      OwnNodes(w, e);
    }
  }

  lemma DeletingStaysOk(w: World, e: Event, id: string)
    requires SubsOk(w.subs) && WorkOk(w) && ChangesSubs(e) && id in Step(w, e).deleting
    ensures !Exists(Step(w, e).subs, id)
  {
    if id != e.id || e.Activate? || e.Select? {
      OthersStay(w, e, id);
    } else if Step(w, e) != w {
      DeletedIsGone(w.subs, IndexOf(w.subs, id));
    }
  }

  lemma SubsStepKeepsWork(w: World, e: Event)
    requires SubsOk(w.subs) && WorkOk(w) && ChangesSubs(e)
    ensures WorkOk(Step(w, e))
  {
    forall id | id in Step(w, e).refreshing {
      RefreshingStaysOk(w, e, id);
    }
    forall id | id in Step(w, e).deleting {
      DeletingStaysOk(w, e, id);
    }
  }

  lemma SubsStepKeepsInv(w: World, e: Event)
    requires Inv(w) && ChangesSubs(e)
    ensures Inv(Step(w, e))
  {
    StepKeepsSubs(w, e);
    SubsStepKeepsWork(w, e);
    if w.edit.Some? {
      var d := w.edit.value.draft;
      forall k | 0 <= k < d.checked ensures Known(Step(w, e), d.members[k]) {
        SubsStepKnows(w, e, d.members[k]);
      }
    }
  }

  lemma ResolvingMeansKnown(w: World, m: Member)
    requires m.node != "" && Resolves(w.subs, m)
    ensures m.node in NodesOf(w.subs, m.subscription) && Known(w, m)
  {
  }

  lemma AdmittedAreNamed(members: seq<Member>)
    requires Admitted(members).Ok?
    ensures Named(Admitted(members).value)
  {
    CleanedFacts(members);
  }

  lemma CreateStepKeepsInv(w: World, e: Event)
    requires Inv(w) && (e.BeginCreate? || e.CheckCreate?)
    ensures Inv(Step(w, e))
  {
    if e.BeginCreate? && Admitted(e.members).Ok? {
      AdmittedAreNamed(e.members);
    }
  }

  lemma UpdateStepKeepsEdit(w: World, e: Event)
    requires EditOk(w) && (e.BeginUpdate? || e.CheckUpdate?)
    ensures EditOk(Step(w, e))
  {
    if e.BeginUpdate? && Admitted(e.members).Ok? {
      AdmittedAreNamed(e.members);
    } else if e.CheckUpdate? && w.edit.Some? {
      var d := w.edit.value.draft;
      if d.checked < |d.members| && Resolves(w.subs, d.members[d.checked]) {
        assert d.members[d.checked] in d.members;
        ResolvingMeansKnown(w, d.members[d.checked]);
      }
    }
  }

  lemma DraftStepKeepsInv(w: World, e: Event)
    requires Inv(w) && ChangesDrafts(e)
    ensures Inv(Step(w, e))
  {
    if e.BeginCreate? || e.CheckCreate? {
      CreateStepKeepsInv(w, e);
    } else {
      UpdateStepKeepsEdit(w, e);
    }
  }

  lemma KeptAreNamed(sub: string, previous: seq<Node>, current: seq<Node>, members: seq<Member>)
    requires Named(members)
    ensures Named(KeepMembers(sub, previous, current, members))
  {
    KeptAreDistinct(sub, previous, current, members);
    forall m | m in KeepMembers(sub, previous, current, members) ensures m.node != "" {
      KeptExactly(sub, previous, current, members, m);
    }
  }

  lemma OthersAreNamed(members: seq<Member>, sub: string)
    requires Named(members)
    ensures Named(Others(members, sub))
  {
    OthersAreDistinct(members, sub);
    forall m | m in Others(members, sub) ensures m.node != "" {
      OthersAre(members, sub, m);
    }
  }

  lemma ResolvingAreNamed(items: seq<Subscription>, members: seq<Member>)
    requires Named(members)
    ensures Named(Resolving(items, members))
  {
    ResolvingAreDistinct(items, members);
    forall m | m in Resolving(items, members) ensures m.node != "" {
      ResolvingAre(items, members, m);
    }
  }

  lemma PoolStepKeepsPools(w: World, e: Event)
    requires Inv(w) && !ChangesSubs(e) && !ChangesDrafts(e)
    ensures PoolsOk(Step(w, e))
  {
    var v := Step(w, e);
    if (e.Reconcile? && CanReconcile(w, e.id)) || e.CleanUp? || e.Restart? {
      forall p | 0 <= p < |v.pools| ensures Named(v.pools[p].members) {
        assert Named(w.pools[p].members);
        if e.Reconcile? {
          KeptAreNamed(e.id, w.refreshing[e.id].previous, w.refreshing[e.id].current, w.pools[p].members);
        } else if e.CleanUp? {
          OthersAreNamed(w.pools[p].members, e.id);
        } else {
          ResolvingAreNamed(w.subs, w.pools[p].members);
        }
      }
    }
  }

  lemma StepKeepsInv(w: World, e: Event)
    requires Inv(w)
    ensures Inv(Step(w, e))
  {
    if ChangesSubs(e) {
      SubsStepKeepsInv(w, e);
    } else if ChangesDrafts(e) {
      DraftStepKeepsInv(w, e);
    } else {
      PoolStepKeepsPools(w, e);
    }
  }

  lemma {:induction false} RunFromKeepsInv(w: World, events: seq<Event>)
    requires Inv(w)
    ensures Inv(RunFrom(w, events))
    decreases |events|
  {
    if events != [] {
      RunFromKeepsInv(w, events[..|events| - 1]);
      StepKeepsInv(RunFrom(w, events[..|events| - 1]), events[|events| - 1]);
    }
  }

  // ----- the theorems about subscriptions

  /** Exactly one subscription is active as soon as there is any, and each is sound. */
  lemma SubscriptionsStaySound(events: seq<Event>)
    ensures SubsOk(Run(events).subs)
  {
    RunFromKeepsInv(FIRST_START, events);
  }

  lemma ImportsAreKept(w: World, e: Event, id: string, node: string)
    requires Inv(w) && node in ManualOf(w.subs, id) && !(e.DeleteSub? && e.id == id)
    ensures node in ManualOf(Step(w, e).subs, id)
  {
    if ChangesSubs(e) {
      if id != e.id || e.Activate? || e.Select? {
        OthersStay(w, e, id);
      } else if Step(w, e) != w && (e.Refresh? || e.Import?) {
        OwnNodes(w, e);
        if e.Import? {
          ImportsAreSound(w.subs[IndexOf(w.subs, id)], e.links);
        }
      }
    }
  }

  /** An imported node survives every run in which its subscription is not deleted. */
  lemma {:induction false} ImportedNodesSurvive(w: World, events: seq<Event>, id: string, node: string)
    requires Inv(w) && node in ManualOf(w.subs, id)
    requires forall e :: e in events ==> !(e.DeleteSub? && e.id == id)
    ensures node in ManualOf(RunFrom(w, events).subs, id) && node in NodesOf(RunFrom(w, events).subs, id)
    decreases |events|
  {
    if events != [] {
      var rest, e := events[..|events| - 1], events[|events| - 1];
      ImportedNodesSurvive(w, rest, id, node);
      RunFromKeepsInv(w, rest);
      ImportsAreKept(RunFrom(w, rest), e, id, node);
    }
    RunFromKeepsInv(w, events);
    var subs := RunFrom(w, events).subs;
    assert Sound(subs[IndexOf(subs, id)]);
  }
}
