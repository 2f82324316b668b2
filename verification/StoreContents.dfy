/**
 Which pools there are on every run, and that a stored pool has the members that were asked for.
 */
module StoreContents {
  import opened Common
  import opened Subscriptions
  import opened PoolMembers
  import opened PoolIntegrity
  import opened StoreRuns

  /** The same members, each once and where it first stood, and none without a node. */
  ghost predicate EachOnce(asked: seq<Member>, members: seq<Member>) {
    && |asked| <= MAX_MEMBERS && Distinct(members)
    && (forall m :: m in members <==> m in asked)
    && (forall m :: m in asked ==> m.subscription != "" && m.node != "")
    && forall i :: 0 <= i <= |asked| ==> HasFront(asked[..i], members)
  }

  /** The first `n` members are those of this front part. */
  ghost predicate FrontOf(front: seq<Member>, members: seq<Member>, n: int) {
    0 <= n <= |members| && forall m :: m in members[..n] <==> m in front
  }

  ghost predicate HasFront(front: seq<Member>, members: seq<Member>) {
    exists n :: FrontOf(front, members, n)
  }

  lemma AdmittedIsEachOnce(asked: seq<Member>)
    ensures Admitted(asked).Ok? ==> EachOnce(asked, Admitted(asked).value)
  {
    if Admitted(asked).Ok? {
      var members := Admitted(asked).value;
      CleanedFacts(asked);
      forall i | 0 <= i <= |asked| ensures HasFront(asked[..i], members) {
        CleanedInOrder(asked, i);
        CleanedFacts(asked[..i]);
        var front := Cleaned(asked[..i]).value;
        assert members[..|front|] == front;
        assert FrontOf(asked[..i], members, |front|);
      }
    }
  }

  // ----- what was asked for

  /** What a draft is about is what its request asked for. */
  lemma {:induction false} DraftsAreRequests(events: seq<Event>, id: string) returns (k: nat)
    requires id in Run(events).drafts
    ensures k < |events| && events[k].BeginCreate? && events[k].id == id
    ensures Admitted(events[k].members) == Ok(Run(events).drafts[id].members)
    decreases |events|
  {
    if events != [] {
      var rest, e := events[..|events| - 1], events[|events| - 1];
      if e.BeginCreate? && e.id == id && id !in Run(rest).drafts {
        k := |rest|;
      } else {
        DraftWasThere(Run(rest), e, id);
        k := DraftsAreRequests(rest, id);
      }
    }
  }

  lemma DraftWasThere(w: World, e: Event, id: string)
    requires id in Step(w, e).drafts && !(e.BeginCreate? && e.id == id && id !in w.drafts)
    ensures id in w.drafts && Step(w, e).drafts[id].members == w.drafts[id].members
  {
  }

  /** What an Update at work is about is what its request asked for, and its pool. */
  lemma {:induction false} EditsAreRequests(events: seq<Event>) returns (k: nat)
    requires Run(events).edit.Some?
    ensures k < |events| && events[k].BeginUpdate? && events[k].id == Run(events).edit.value.pool
    ensures Admitted(events[k].members) == Ok(Run(events).edit.value.draft.members)
    decreases |events|
  {
    if events != [] {
      var rest, e := events[..|events| - 1], events[|events| - 1];
      if e.BeginUpdate? && Run(rest).edit.None? {
        k := |rest|;
      } else {
        EditWasThere(Run(rest), e);
        k := EditsAreRequests(rest);
      }
    }
  }

  lemma EditWasThere(w: World, e: Event)
    requires Step(w, e).edit.Some? && !(e.BeginUpdate? && w.edit.None?)
    ensures w.edit.Some? && Step(w, e).edit.value.pool == w.edit.value.pool
    ensures Step(w, e).edit.value.draft.members == w.edit.value.draft.members
  {
  }

  /** A created pool comes last and has the members that were asked for when it was begun. */
  lemma CreatedPoolIsRequested(events: seq<Event>, id: string) returns (k: nat)
    requires CanStore(Run(events), id)
    ensures k < |events| && events[k].BeginCreate? && events[k].id == id
    ensures
      var w, v := Run(events), Step(Run(events), StoreCreate(id, true));
      && |v.pools| == |w.pools| + 1 && w.pools <= v.pools
      && v.pools[|w.pools|].id == id && EachOnce(events[k].members, v.pools[|w.pools|].members)
      && v.subs == w.subs && id !in v.drafts
  {
    k := DraftsAreRequests(events, id);
    AdmittedIsEachOnce(events[k].members);
  }

  lemma {:induction false} FoundFirst(pools: seq<Pool>, id: string)
    ensures forall i :: 0 <= i < PoolIndex(pools, id) ==> pools[i].id != id
  {
    if pools != [] && pools[0].id != id {
      FoundFirst(pools[1..], id);
      forall i | 0 <= i < PoolIndex(pools, id) ensures pools[i].id != id {
        assert i > 0 ==> pools[i] == pools[1..][i - 1];
      }
    }
  }

  /** A changed pool has the members that were asked for, and no other pool changes. */
  lemma UpdatedPoolIsRequested(events: seq<Event>) returns (k: nat)
    requires Run(events).edit.Some? && Complete(Run(events).edit.value.draft)
    ensures k < |events| && events[k].BeginUpdate?
    ensures
      var w, v := Run(events), Step(Run(events), StoreUpdate(true));
      var i := PoolIndex(w.pools, events[k].id);
      && |v.pools| == |w.pools| && v.edit.None? && v.subs == w.subs
      && (forall j :: 0 <= j < |w.pools| && j != i ==> v.pools[j] == w.pools[j])
      && (i < |w.pools| ==> v.pools[i].id == events[k].id && EachOnce(events[k].members, v.pools[i].members))
  {
    k := EditsAreRequests(events);
    AdmittedIsEachOnce(events[k].members);
  }

  // ----- which pools there are

  ghost function PoolIds(pools: seq<Pool>): seq<string> {
    seq(|pools|, i requires 0 <= i < |pools| => pools[i].id)
  }

  /** Refreshes, deletions and restarts change members, never which pools there are. */
  lemma PoolsStay(w: World, e: Event)
    requires !e.StoreCreate? && !e.DeletePool?
    ensures PoolIds(Step(w, e).pools) == PoolIds(w.pools)
  {
    if e.StoreUpdate? && w.edit.Some? {
      var i := PoolIndex(w.pools, w.edit.value.pool);
      assert i < |w.pools| ==> w.pools[i].id == w.edit.value.pool;
    }
  }

  /** Deleting takes out the first pool with the id and leaves the others as they were. */
  lemma DeletedPoolIsGone(w: World, id: string, i: nat)
    requires i < |w.pools| && w.pools[i].id == id && w.edit.None?
    requires forall j :: 0 <= j < i ==> w.pools[j].id != id
    ensures Step(w, DeletePool(id, true)) == w.(pools := w.pools[..i] + w.pools[i + 1..])
  {
    FoundFirst(w.pools, id);
    IndexIsAtMost(w.pools, id, i);
    assert PoolIndex(w.pools, id) == i;
  }

  lemma {:induction false} IndexIsAtMost(pools: seq<Pool>, id: string, i: nat)
    requires i < |pools| && pools[i].id == id
    ensures PoolIndex(pools, id) <= i
  {
    if i > 0 && pools[0].id != id {
      assert pools[1..][i - 1] == pools[i];
      IndexIsAtMost(pools[1..], id, i - 1);
    }
  }

  // ----- the members after an event

  /** The end of a refresh reconciles every pool with the nodes that this refresh replaced and brought. */
  lemma ReconcileReaches(w: World, id: string, p: nat)
    requires CanReconcile(w, id) && p < |w.pools|
    ensures
      var v, r := Step(w, Reconcile(id, true)), w.refreshing[id];
      && |v.pools| == |w.pools| && id !in v.refreshing && v.subs == w.subs
      && v.pools[p].members == KeepMembers(id, r.previous, r.current, w.pools[p].members)
  {
  }

  /** What a refresh under way will reconcile with: the nodes of the subscription before it and after it. */
  lemma RefreshRemembers(w: World, e: Event)
    requires e.Refresh? && e.persisted && Exists(w.subs, e.id) && !Locked(w, e.id)
    ensures
      var v, i := Step(w, e), IndexOf(w.subs, e.id);
      && v.refreshing.Keys == w.refreshing.Keys + {e.id}
      && v.refreshing[e.id].previous == w.subs[i].nodes && v.refreshing[e.id].current == v.subs[i].nodes
      && v.pools == w.pools && |v.subs| == |w.subs|
      && (forall j :: 0 <= j < |w.subs| && j != i ==> v.subs[j] == w.subs[j])
      && (e.fetched.None? ==> v.subs == w.subs)
  {
  }
}
