/**
 Whether the members of the pools name nodes that exist, over every run of the two
 stores. Two things can leave a member behind: a reconciliation or clean-up that
 cannot be written, and a pool that is stored after the work on a subscription of
 one of its members has ended in the meantime. Each event's condition can be read
 off the state before the event, and together they are exact.
 */
module StoreLink {
  import opened Common
  import opened Subscriptions
  import opened PoolMembers
  import opened PoolIntegrity
  import opened StoreRuns

  ghost predicate PoolKnown(w: World, members: seq<Member>) {
    forall m :: m in members ==> Known(w, m)
  }

  ghost predicate AllKnown(w: World) {
    forall p :: 0 <= p < |w.pools| ==> PoolKnown(w, w.pools[p].members)
  }

  /** All members of a subscription are among these nodes. */
  ghost predicate NoneOutside(pools: seq<Pool>, sub: string, nodes: set<string>) {
    forall p, m :: 0 <= p < |pools| && m in pools[p].members && m.subscription == sub ==> m.node in nodes
  }

  /** What must hold before an event for it to leave no member behind. */
  ghost predicate Harmless(w: World, e: Event) {
    && (e.StoreCreate? && e.persisted && CanStore(w, e.id) ==> PoolKnown(w, w.drafts[e.id].members))
    && (e.Reconcile? && !e.persisted && CanReconcile(w, e.id) ==>
          NoneOutside(w.pools, e.id, Ids(w.refreshing[e.id].current)))
    && (e.CleanUp? && !e.persisted && CanCleanUp(w, e.id) ==> NoneOutside(w.pools, e.id, {}))
  }

  // ----- one event

  lemma SameWorkKnowsTheSame(w: World, v: World)
    requires v.subs == w.subs && v.refreshing == w.refreshing && v.deleting == w.deleting
    ensures forall m :: Known(v, m) <==> Known(w, m)
    ensures forall members :: PoolKnown(v, members) <==> PoolKnown(w, members)
  {
  }

  lemma CreateExactly(w: World, e: Event)
    requires AllKnown(w) && e.StoreCreate?
    ensures AllKnown(Step(w, e)) <==> Harmless(w, e)
  {
    var v := Step(w, e);
    SameWorkKnowsTheSame(w, v);
    if e.persisted && CanStore(w, e.id) {
      assert v.pools[|w.pools|].members == w.drafts[e.id].members;
      forall p | 0 <= p < |w.pools| ensures PoolKnown(v, v.pools[p].members) {
        assert v.pools[p] == w.pools[p];
      }
    } else {
      assert v.pools == w.pools;
    }
  }

  lemma UpdateIsHarmless(w: World, e: Event)
    requires Inv(w) && AllKnown(w) && (e.StoreUpdate? || e.DeletePool?)
    ensures AllKnown(Step(w, e))
  {
    SameWorkKnowsTheSame(w, Step(w, e));
  }

  /** The reconciliation that ends a refresh leaves known members only. */
  lemma ReconcileKeepsPool(w: World, id: string, members: seq<Member>)
    requires Inv(w) && id in w.refreshing && PoolKnown(w, members)
    ensures
      PoolKnown(w.(refreshing := w.refreshing - {id}),
                KeepMembers(id, w.refreshing[id].previous, w.refreshing[id].current, members))
    ensures
      forall m :: m in KeepMembers(id, w.refreshing[id].previous, w.refreshing[id].current, members) ==>
        m.subscription == id ==> m.node in Ids(w.refreshing[id].current)
  {
    var previous, current := w.refreshing[id].previous, w.refreshing[id].current;
    forall m | m in KeepMembers(id, previous, current, members)
      ensures Known(w.(refreshing := w.refreshing - {id}), m)
      ensures m.subscription == id ==> m.node in Ids(current)
    {
      KeptExactly(id, previous, current, members, m);
      if m.subscription == id {
        KeptMembersExist(id, previous, current, members, m);
      }
    }
  }

  lemma EndedRefreshKnows(w: World, id: string, m: Member)
    requires WorkOk(w) && id in w.refreshing
    ensures
      Known(w.(refreshing := w.refreshing - {id}), m) <==>
        if m.subscription == id then m.node in Ids(w.refreshing[id].current) else Known(w, m)
  {
  }

  lemma FailedReconcileExactly(w: World, id: string)
    requires Inv(w) && AllKnown(w) && id in w.refreshing
    ensures
      AllKnown(w.(refreshing := w.refreshing - {id})) <==> NoneOutside(w.pools, id, Ids(w.refreshing[id].current))
  {
    var v := w.(refreshing := w.refreshing - {id});
    forall p, m | 0 <= p < |w.pools| && m in w.pools[p].members
      ensures Known(v, m) <==> (m.subscription == id ==> m.node in Ids(w.refreshing[id].current))
    {
      assert PoolKnown(w, w.pools[p].members);
      EndedRefreshKnows(w, id, m);
    }
    if AllKnown(v) {
      forall p, m | 0 <= p < |w.pools| && m in w.pools[p].members && m.subscription == id
        ensures m.node in Ids(w.refreshing[id].current)
      {
        assert PoolKnown(v, v.pools[p].members);
      }
    }
  }

  lemma ReconcileExactly(w: World, e: Event)
    requires Inv(w) && AllKnown(w) && e.Reconcile?
    ensures AllKnown(Step(w, e)) <==> Harmless(w, e)
  {
    if CanReconcile(w, e.id) {
      var v, after := Step(w, e), ReconciledPools(w, e.id);
      if Written(w, after, e.persisted) {
        forall p | 0 <= p < |w.pools|
          ensures PoolKnown(v, after[p].members)
          ensures forall m :: m in after[p].members && m.subscription == e.id ==>
                                m.node in Ids(w.refreshing[e.id].current)
        {
          ReconcileKeepsPool(w, e.id, w.pools[p].members);
          SameWorkKnowsTheSame(w.(refreshing := w.refreshing - {e.id}), v);
        }
        assert after == w.pools ==> NoneOutside(w.pools, e.id, Ids(w.refreshing[e.id].current));
      } else {
        FailedReconcileExactly(w, e.id);
      }
    }
  }

  lemma EndedDeletionKnows(w: World, id: string, m: Member)
    requires WorkOk(w) && CanCleanUp(w, id)
    ensures Known(w.(deleting := w.deleting - {id}), m) <==> m.subscription != id && Known(w, m)
  {
  }

  lemma CleanUpExactly(w: World, e: Event)
    requires Inv(w) && AllKnown(w) && e.CleanUp?
    ensures AllKnown(Step(w, e)) <==> Harmless(w, e)
  {
    if CanCleanUp(w, e.id) {
      var v, after := Step(w, e), Dropped(w.pools, e.id);
      forall p, m | 0 <= p < |w.pools| && m in w.pools[p].members
        ensures Known(v, m) <==> m.subscription != e.id
        ensures m in after[p].members <==> m.subscription != e.id
      {
        assert PoolKnown(w, w.pools[p].members);
        EndedDeletionKnows(w, e.id, m);
        OthersAre(w.pools[p].members, e.id, m);
      }
      if Written(w, after, e.persisted) {
        forall p, m | 0 <= p < |w.pools| && m in after[p].members ensures Known(v, m) {
          OthersAre(w.pools[p].members, e.id, m);
        }
      } else if AllKnown(v) {
        forall p, m | 0 <= p < |w.pools| && m in w.pools[p].members ensures m.subscription != e.id {
          assert PoolKnown(v, v.pools[p].members);
        }
      }
    }
  }

  lemma RestartKnows(w: World, e: Event)
    requires Inv(w) && AllKnown(w) && e.Restart?
    ensures AllKnown(Step(w, e))
  {
    var v := Step(w, e);
    if v != w {
      forall p, m | 0 <= p < |v.pools| && m in v.pools[p].members ensures Known(v, m) {
        ResolvingAre(w.subs, w.pools[p].members, m);
        assert Named(w.pools[p].members);
        ResolvingMeansKnown(w, m);
      }
    }
  }

  lemma OtherStepKnows(w: World, e: Event)
    requires Inv(w) && AllKnown(w) && (ChangesSubs(e) || ChangesDrafts(e))
    ensures AllKnown(Step(w, e))
  {
    forall p, m | 0 <= p < |w.pools| && m in w.pools[p].members ensures Known(Step(w, e), m) {
      assert PoolKnown(w, w.pools[p].members);
      StepKnows(w, e, m);
    }
  }

  /** An event leaves no member behind exactly if its condition holds before it. */
  lemma StepExactly(w: World, e: Event)
    requires Inv(w) && AllKnown(w)
    ensures AllKnown(Step(w, e)) <==> Harmless(w, e)
  {
    if ChangesSubs(e) || ChangesDrafts(e) {
      OtherStepKnows(w, e);
    } else if e.StoreCreate? {
      CreateExactly(w, e);
    } else if e.Reconcile? {
      ReconcileExactly(w, e);
    } else if e.CleanUp? {
      CleanUpExactly(w, e);
    } else if e.Restart? {
      RestartKnows(w, e);
    } else {
      UpdateIsHarmless(w, e);
    }
  }

  // ----- every run

  ghost predicate AlwaysKnown(events: seq<Event>) {
    forall k :: 0 <= k <= |events| ==> AllKnown(Run(events[..k]))
  }

  ghost predicate NothingHarmful(events: seq<Event>) {
    forall k :: 0 <= k < |events| ==> Harmless(Run(events[..k]), events[k])
  }

  lemma AlwaysKnownMore(events: seq<Event>, e: Event)
    ensures AlwaysKnown(events + [e]) <==> AlwaysKnown(events) && AllKnown(Run(events + [e]))
  {
    var all := events + [e];
    assert all[..|all|] == all;
    assert forall k :: 0 <= k <= |events| ==> all[..k] == events[..k];
    if AlwaysKnown(all) {
      forall k | 0 <= k <= |events| ensures AllKnown(Run(events[..k])) {
        assert AllKnown(Run(all[..k]));
      }
    }
  }

  lemma NothingHarmfulMore(events: seq<Event>, e: Event)
    ensures NothingHarmful(events + [e]) <==> NothingHarmful(events) && Harmless(Run(events), e)
  {
    var all := events + [e];
    assert all[..|events|] == events && all[|events|] == e;
    assert forall k :: 0 <= k < |events| ==> all[..k] == events[..k] && all[k] == events[k];
    if NothingHarmful(all) {
      forall k | 0 <= k < |events| ensures Harmless(Run(events[..k]), events[k]) {
        assert Harmless(Run(all[..k]), all[k]);
      }
    }
  }

  /** On every run: no member is ever left behind exactly if no event was harmful when it happened. */
  lemma {:induction false} RunsExactly(events: seq<Event>)
    ensures AlwaysKnown(events) <==> NothingHarmful(events)
    decreases |events|
  {
    if events == [] {
      assert Run(events[..0]) == FIRST_START;
    } else {
      var rest, e := events[..|events| - 1], events[|events| - 1];
      RunsExactly(rest);
      SplitLast(events);
      AlwaysKnownMore(rest, e);
      NothingHarmfulMore(rest, e);
      RunFromKeepsInv(FIRST_START, rest);
      if AlwaysKnown(rest) {
        TakeAll(rest);
        assert AllKnown(Run(rest[..|rest|]));
        StepExactly(Run(rest), e);
      }
    }
  }

  /**
   Unless an event was harmful, every member of every pool names an existing node, once; only while
   a refresh or deletion of its subscription is under way may its node be gone.
   */
  lemma MembersExist(events: seq<Event>, p: nat, m: Member)
    requires NothingHarmful(events)
    requires p < |Run(events).pools| && m in Run(events).pools[p].members
    ensures
      var w := Run(events);
      && Distinct(w.pools[p].members)
      && (m.node in NodesOf(w.subs, m.subscription) || Locked(w, m.subscription))
  {
    RunFromKeepsInv(FIRST_START, events);
    RunsExactly(events);
    TakeAll(events);
    assert AllKnown(Run(events[..|events|]));
    assert Named(Run(events).pools[p].members) && PoolKnown(Run(events), Run(events).pools[p].members);
  }

  /** Whatever was left behind or interrupted before, after the next start every member names an existing node. */
  lemma RepairRestoresTheLink(events: seq<Event>, p: nat, m: Member)
    requires var v := Step(Run(events), Restart(true)); p < |v.pools| && m in v.pools[p].members
    ensures
      var v := Step(Run(events), Restart(true));
      m.node in NodesOf(v.subs, m.subscription) && Distinct(v.pools[p].members)
  {
    var w := Run(events);
    RunFromKeepsInv(FIRST_START, events);
    StepKeepsInv(w, Restart(true));
    assert Named(Step(w, Restart(true)).pools[p].members);
    ResolvingAre(w.subs, w.pools[p].members, m);
    ResolvingMeansKnown(w, m);
  }

  // ----- creating a pool

  predicate Linked(w: World, m: Member) {
    m.node in NodesOf(w.subs, m.subscription) || Locked(w, m.subscription)
  }

  ghost predicate AllLinked(w: World) {
    forall p, m :: 0 <= p < |w.pools| && m in w.pools[p].members ==> Linked(w, m)
  }

  /** After storing, all members exist or have work under way exactly if those looked up earlier still do. */
  lemma StoringExactly(w: World, id: string)
    requires AllLinked(w) && CanStore(w, id)
    ensures AllLinked(Step(w, StoreCreate(id, true))) <==> forall m :: m in w.drafts[id].members ==> Linked(w, m)
  {
    var v := Step(w, StoreCreate(id, true));
    assert forall m :: Linked(v, m) <==> Linked(w, m);
    if AllLinked(v) {
      forall m | m in w.drafts[id].members ensures Linked(w, m) {
        assert m in v.pools[|w.pools|].members;
      }
    }
  }

  /** A known member stays known until the work on its subscription ends. */
  lemma {:induction false} KnownUntilWorkEnds(w: World, events: seq<Event>, m: Member)
    requires Inv(w) && Known(w, m)
    requires forall k :: 0 <= k < |events| ==> !Ends(events[k], m.subscription)
    ensures Known(RunFrom(w, events), m)
    decreases |events|
  {
    if events != [] {
      var rest := events[..|events| - 1];
      KnownUntilWorkEnds(w, rest, m);
      RunFromKeepsInv(w, rest);
      StepKnows(RunFrom(w, rest), events[|events| - 1], m);
    }
  }

  lemma {:induction false} RunsCompose(w: World, a: seq<Event>, b: seq<Event>)
    ensures RunFrom(w, a + b) == RunFrom(RunFrom(w, a), b)
    decreases |b|
  {
    if b == [] {
      assert a + b == a;
    } else {
      RunsCompose(w, a, b[..|b| - 1]);
      assert (a + b)[..|a + b| - 1] == a + b[..|b| - 1];
    }
  }

  lemma OneLookUp(w: World, e: Event, id: string, j: nat)
    requires DraftsOk(w) && id in Step(w, e).drafts && j < Step(w, e).drafts[id].checked
    requires j < |Step(w, e).drafts[id].members|
    ensures
      var d := Step(w, e).drafts[id];
      || (id in w.drafts && j < w.drafts[id].checked && w.drafts[id].members == d.members)
      || Resolves(w.subs, d.members[j])
  {
  }

  /** The members that a draft has looked up. */
  predicate LookedUp(w: World, id: string, m: Member) {
    id in w.drafts
    && exists j: nat ::
      j < w.drafts[id].checked && j < |w.drafts[id].members| && w.drafts[id].members[j] == m
  }

  lemma LookedUpBefore(w: World, e: Event, id: string, m: Member)
    requires DraftsOk(w) && LookedUp(Step(w, e), id, m)
    ensures LookedUp(w, id, m) || Resolves(w.subs, m)
  {
    var v := Step(w, e);
    var j: nat :| j < v.drafts[id].checked && j < |v.drafts[id].members| && v.drafts[id].members[j] == m;
    OneLookUp(w, e, id, j);
  }

  lemma LookedUpOneBefore(events: seq<Event>, id: string, m: Member)
    requires LookedUp(Run(events), id, m)
    ensures events != []
    ensures LookedUp(Run(events[..|events| - 1]), id, m) || Resolves(Run(events[..|events| - 1]).subs, m)
  {
    if events != [] {
      RunFromKeepsInv(FIRST_START, events[..|events| - 1]);
      LookedUpBefore(Run(events[..|events| - 1]), events[|events| - 1], id, m);
    }
  }

  /** Each member that counts as looked up did exist at some earlier point. */
  lemma {:induction false} LookedUpDidExist(events: seq<Event>, id: string, m: Member) returns (at: nat)
    requires LookedUp(Run(events), id, m)
    ensures at <= |events| && Resolves(Run(events[..at]).subs, m)
    decreases |events|
  {
    LookedUpOneBefore(events, id, m);
    var rest := events[..|events| - 1];
    if Resolves(Run(rest).subs, m) {
      at := |rest|;
    } else {
      at := LookedUpDidExist(rest, id, m);
      assert rest[..at] == events[..at];
    }
  }

  /**
   A member that was looked up and is no longer known: after the look-up the work on its subscription
   ended. Nothing else can leave a member of a new pool behind.
   */
  lemma OnlyAnEndLosesADraft(events: seq<Event>, id: string, m: Member) returns (at: nat, end: nat)
    requires LookedUp(Run(events), id, m) && !Known(Run(events), m)
    ensures at <= end < |events|
    ensures Resolves(Run(events[..at]).subs, m) && Ends(events[end], m.subscription)
  {
    at := LookedUpDidExist(events, id, m);
    RunFromKeepsInv(FIRST_START, events);
    assert m in Run(events).drafts[id].members;
    ResolvingMeansKnown(Run(events[..at]), m);
    if k :| at <= k < |events| && Ends(events[k], m.subscription) {
      end := k;
    } else {
      var later := events[at..];
      assert events == events[..at] + later;
      RunsCompose(FIRST_START, events[..at], later);
      RunFromKeepsInv(FIRST_START, events[..at]);
      KnownUntilWorkEnds(Run(events[..at]), later, m);
      assert false;
    }
  }

  // ----- both causes do happen

  const OLD := Node("a", "first", "old")
  const NEW := Node("b", "second", "new")
  const MEMBER := Member("s", "a")

  function Only(n: Node): Subscription {
    Subscription("s", true, [n], [], n.id)
  }

  /** One subscription with one node, and a pool that is about to be stored with this node. */
  const LOOKED_UP: seq<Event> :=
    [CreateSub("s", true), Refresh("s", Some([OLD]), true), Reconcile("s", true), BeginCreate("p", [MEMBER]),
        CheckCreate("p")]

  const READY := World([Only(OLD)], [], map[], {}, map["p" := Draft([MEMBER], 1)], None)

  lemma RunMore(w: World, events: seq<Event>, e: Event)
    ensures RunFrom(w, events + [e]) == Step(RunFrom(w, events), e)
  {
    DropLast(events, e);
  }

  lemma RunThree(w: World, a: Event, b: Event, c: Event)
    ensures RunFrom(w, [a, b, c]) == Step(Step(Step(w, a), b), c)
  {
    assert RunFrom(w, []) == w;
    RunMore(w, [], a);
    RunMore(w, [a], b);
    RunMore(w, [a, b], c);
    assert [a, b, c] == [a, b] + [c] && [a, b] == [a] + [b] && [a] == [] + [a];
  }

  lemma FirstOfOne(n: Node)
    ensures FirstOfEach([n]) == [n]
  {
    assert [n][..|[n]| - 1] == [] && Ids([]) == {};
    assert FirstOfEach([]) == [];
  }

  lemma IdOfOne(n: Node)
    ensures Ids([n]) == {n.id}
  {
    assert [n] == [] + [n] && Ids([]) == {};
    IdsOfMore([], n);
  }

  lemma OneNode(s: Subscription, n: Node)
    requires s.manual == [] && s.id == "s" && s.active && s.selected != n.id
    ensures Refreshed(s, [n]) == Only(n)
  {
    FirstOfOne(n);
    IdOfOne(n);
    assert [n] + NodesById(s.nodes, s.manual) == [n];
  }

  lemma RefreshedTo(w: World, s: Subscription, n: Node)
    requires w.subs == [s] && !Locked(w, "s")
    requires s.manual == [] && s.id == "s" && s.active && s.selected != n.id
    ensures
      Step(w, Refresh("s", Some([n]), true)) ==
        w.(subs := [Only(n)], refreshing := w.refreshing["s" := Refreshing(s.nodes, [n])])
  {
    OneNode(s, n);
    assert IndexOf(w.subs, "s") == 0;
    assert w.subs[0 := Only(n)] == [Only(n)];
  }

  lemma MemberIsAdmitted()
    ensures Admitted([MEMBER]) == Ok([MEMBER])
  {
    var members := [MEMBER];
    assert members[..|members| - 1] == [] && |"s"| == |"a"| == 1;
    assert Cleaned(members[..|members| - 1]) == Ok([]);
    assert MEMBER.subscription != "" && MEMBER.node != "";
    assert [] + members == members && members[|members| - 1] == MEMBER;
  }

  lemma LooksUpTheMember(w: World)
    requires w == World([Only(OLD)], [], map[], {}, map[], None)
    ensures Step(Step(w, BeginCreate("p", [MEMBER])), CheckCreate("p")) == READY
  {
    MemberIsAdmitted();
    IdOfOne(OLD);
    var v := Step(w, BeginCreate("p", [MEMBER]));
    assert v == w.(drafts := map["p" := Draft([MEMBER], 0)]);
    assert IndexOf(w.subs, "s") == 0;
    assert v.drafts["p" := Draft([MEMBER], 1)] == map["p" := Draft([MEMBER], 1)];
  }

  lemma LookedUpRun()
    ensures Run(LOOKED_UP) == READY
  {
    var a, b, c := LOOKED_UP[0], LOOKED_UP[1], LOOKED_UP[2];
    var empty := Subscription("s", true, [], [], "");
    RunThree(FIRST_START, a, b, c);
    var w0 := World([empty], [], map[], {}, map[], None);
    assert Step(FIRST_START, a) == w0 by {
      assert [] + [empty] == [empty];
    }
    RefreshedTo(w0, empty, OLD);
    var w1 := Step(w0, b);
    assert Step(w1, c) == World([Only(OLD)], [], map[], {}, map[], None) by {
      assert Reconciled([], "s", [], [OLD]) == [];
      assert w1.refreshing - {"s"} == map[];
    }
    var w2 := Step(w1, c);
    RunMore(FIRST_START, [a, b, c], LOOKED_UP[3]);
    RunMore(FIRST_START, [a, b, c] + [LOOKED_UP[3]], LOOKED_UP[4]);
    assert LOOKED_UP == [a, b, c] + [LOOKED_UP[3]] + [LOOKED_UP[4]];
    MemberIsAdmitted();
    LooksUpTheMember(w2);
  }

  /** The work on the subscription ends between the look-up and the storing. */
  const OVERTAKEN: seq<Event> :=
      LOOKED_UP + [Refresh("s", Some([NEW]), true), Reconcile("s", true), StoreCreate("p", true)]

  /** The pool is stored in time, but the reconciliation of the next refresh cannot be written. */
  const UNWRITTEN: seq<Event> :=
      LOOKED_UP + [StoreCreate("p", true), Refresh("s", Some([NEW]), true), Reconcile("s", false)]

  ghost predicate LeftBehind(w: World) {
    w.pools == [Pool("p", [MEMBER])] && MEMBER.node !in NodesOf(w.subs, "s") && !Locked(w, "s")
  }

  lemma NewNodesOnly(w: World)
    requires w.subs == [Only(NEW)]
    ensures MEMBER.node !in NodesOf(w.subs, "s")
  {
    IdOfOne(NEW);
    assert IndexOf(w.subs, "s") == 0;
    assert "a"[0] != "b"[0];
  }

  /** The subscription moves on from the old node to the new one. */
  lemma MovesOn(w: World)
    requires w.subs == [Only(OLD)] && !Locked(w, "s")
    ensures
      Step(w, Refresh("s", Some([NEW]), true)) ==
        w.(subs := [Only(NEW)], refreshing := w.refreshing["s" := Refreshing([OLD], [NEW])])
  {
    assert "a"[0] != "b"[0];
    RefreshedTo(w, Only(OLD), NEW);
  }

  lemma StoresThePool(w: World)
    requires w.pools == [] && w.edit.None? && w.drafts == READY.drafts
    ensures Step(w, StoreCreate("p", true)) == w.(pools := [Pool("p", [MEMBER])], drafts := map[])
  {
    assert [] + [Pool("p", [MEMBER])] == [Pool("p", [MEMBER])];
    assert w.drafts - {"p"} == map[];
  }

  lemma NothingToReconcile(w: World)
    requires w.pools == [] && w.edit.None? && w.refreshing.Keys == {"s"}
    ensures Step(w, Reconcile("s", true)) == w.(refreshing := map[])
  {
    assert ReconciledPools(w, "s") == [];
    assert w.refreshing - {"s"} == map[];
  }

  lemma UnwrittenChangesNothing(w: World)
    requires w.edit.None? && w.refreshing.Keys == {"s"}
    ensures Step(w, Reconcile("s", false)) == w.(refreshing := map[])
  {
    assert w.refreshing - {"s"} == map[];
  }

  /** No write fails, no work is under way, and yet a stored member has no node. */
  lemma CreateCanLeaveAMemberBehind()
    ensures LeftBehind(Run(OVERTAKEN))
  {
    var a, b, c := Refresh("s", Some([NEW]), true), Reconcile("s", true), StoreCreate("p", true);
    LookedUpRun();
    RunsCompose(FIRST_START, LOOKED_UP, [a, b, c]);
    RunThree(READY, a, b, c);
    MovesOn(READY);
    NothingToReconcile(Step(READY, a));
    StoresThePool(Step(Step(READY, a), b));
    NewNodesOnly(Run(OVERTAKEN));
  }

  /** A failed write of the pools after a refresh leaves a member without a node too. */
  lemma FailedWriteCanLeaveAMemberBehind()
    ensures LeftBehind(Run(UNWRITTEN))
  {
    var a, b, c := StoreCreate("p", true), Refresh("s", Some([NEW]), true), Reconcile("s", false);
    LookedUpRun();
    RunsCompose(FIRST_START, LOOKED_UP, [a, b, c]);
    RunThree(READY, a, b, c);
    StoresThePool(READY);
    MovesOn(Step(READY, a));
    UnwrittenChangesNothing(Step(Step(READY, a), b));
    NewNodesOnly(Run(UNWRITTEN));
  }
}
