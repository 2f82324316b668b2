/**
 One change of the pools on its own (internal/nodepool/manager.go): when a node is
 recognised under a new id, which members come out of a reconciliation, a clean-up
 or a repair, and what the members that Create and Update accept are like.
 */
module PoolIntegrity {
  import opened Common
  import opened Subscriptions
  import opened PoolMembers

  // ----- recognising a node

  ghost predicate OneTwinAt(nodes: seq<Node>, x: Node, i: int) {
    0 <= i < |nodes| && Identity(nodes[i]) == x && forall j :: 0 <= j < |nodes| && j != i ==> Identity(nodes[j]) != x
  }

  lemma {:induction false} TwinsCount(nodes: seq<Node>, x: Node)
    ensures Twins(nodes, x) == [] <==> forall i :: 0 <= i < |nodes| ==> Identity(nodes[i]) != x
    ensures |Twins(nodes, x)| == 1 ==> exists i :: OneTwinAt(nodes, x, i)
    ensures forall i :: OneTwinAt(nodes, x, i) ==> Twins(nodes, x) == [nodes[i].id]
    decreases |nodes|
  {
    if nodes != [] {
      var rest, last := nodes[..|nodes| - 1], nodes[|nodes| - 1];
      TwinsCount(rest, x);
      if |Twins(nodes, x)| == 1 {
        if Identity(last) == x {
          assert OneTwinAt(nodes, x, |rest|);
        } else {
          var i :| OneTwinAt(rest, x, i);
          assert OneTwinAt(nodes, x, i);
        }
      }
      forall i | OneTwinAt(nodes, x, i) ensures Twins(nodes, x) == [nodes[i].id] {
        if i < |rest| {
          assert OneTwinAt(rest, x, i);
        } else {
          forall j | 0 <= j < |rest| ensures Identity(rest[j]) != x {
            assert rest[j] == nodes[j];
          }
        }
      }
    }
  }

  /** The two differ at most in id and name. */
  predicate LooksLike(a: Node, b: Node) {
    a.details == b.details
  }

  /** Of all these nodes this one alone looks like the former one. */
  ghost predicate OnlyLookAlike(nodes: seq<Node>, former: Node, i: int) {
    && 0 <= i < |nodes| && LooksLike(nodes[i], former)
    && forall j :: 0 <= j < |nodes| && j != i ==> !LooksLike(nodes[j], former)
  }

  lemma LookAlikesAreTwins(nodes: seq<Node>, former: Node, i: int)
    ensures OnlyLookAlike(nodes, former, i) <==> OneTwinAt(nodes, Identity(former), i)
  {
    forall j | 0 <= j < |nodes|
      ensures LooksLike(nodes[j], former) <==> Identity(nodes[j]) == Identity(former) {}
  }

  /** A node is recognised exactly if one node of the new list, and only one, differs from it at most in id and name. */
  lemma RecognisedExactly(nodes: seq<Node>, former: Node, id: string)
    requires id != ""
    ensures OnlyTwin(nodes, Identity(former)) == id <==>
              exists i :: OnlyLookAlike(nodes, former, i) && nodes[i].id == id
  {
    TwinsCount(nodes, Identity(former));
    if OnlyTwin(nodes, Identity(former)) == id {
      var i :| OneTwinAt(nodes, Identity(former), i);
      assert nodes[i].id == id;
      LookAlikesAreTwins(nodes, former, i);
    }
    if i :| OnlyLookAlike(nodes, former, i) && nodes[i].id == id {
      LookAlikesAreTwins(nodes, former, i);
    }
  }

  /** A member stays with an id that is there or was never known, and else follows the only look-alike. */
  lemma MovesExactly(previous: seq<Node>, current: seq<Node>, k: nat, id: string, next: string)
    requires DistinctIds(previous) && id != "" && next != ""
    ensures id in Ids(current) || id !in Ids(previous) ==> NextId(previous, current, id) == id
    ensures k < |previous| && previous[k].id == id && id !in Ids(current) ==>
      (NextId(previous, current, id) == next <==>
        exists i :: OnlyLookAlike(current, previous[k], i) && current[i].id == next)
  {
    LastWithFinds(previous, id);
    if k < |previous| && previous[k].id == id && id !in Ids(current) {
      var x := LastWith(previous, id).value;
      var m :| 0 <= m < |previous| && previous[m] == x;
      RecognisedExactly(current, previous[k], next);
    }
  }

  /** Members come out in the order in which they or what became of them first went in. */
  lemma {:induction false} KeptInOrder(sub: string, previous: seq<Node>, current: seq<Node>, members: seq<Member>,
      i: nat)
    requires i <= |members|
    ensures KeepMembers(sub, previous, current, members[..i]) <= KeepMembers(sub, previous, current, members)
    decreases |members|
  {
    if i == |members| {
      TakeAll(members);
    } else {
      KeptInOrder(sub, previous, current, members[..|members| - 1], i);
      assert members[..|members| - 1][..i] == members[..i];
    }
  }

  lemma TwinIsThere(nodes: seq<Node>, x: Node)
    ensures OnlyTwin(nodes, x) == "" || OnlyTwin(nodes, x) in Ids(nodes)
  {
    TwinsCount(nodes, x);
    if |Twins(nodes, x)| == 1 {
      var i :| OneTwinAt(nodes, x, i);
      assert nodes[i].id == OnlyTwin(nodes, x);
    }
  }

  lemma NextIdFacts(previous: seq<Node>, current: seq<Node>, id: string)
    ensures
      var next := NextId(previous, current, id);
      && (next == "" || next in Ids(current) || (next == id && id !in Ids(previous)))
      && (next != "" ==> NextId(previous, current, next) == next)
  {
    LastWithFinds(previous, id);
    if id !in Ids(current) && id in Ids(previous) {
      TwinIsThere(current, Identity(LastWith(previous, id).value));
    }
  }

  // ----- what a reconciliation does to the members of one pool

  /** `next` is where the node of one of the members went. */
  ghost predicate SomeoneMovesTo(sub: string, previous: seq<Node>, current: seq<Node>, members: seq<Member>,
      next: string) {
    exists i :: 0 <= i < |members| && members[i].subscription == sub
        && NextId(previous, current, members[i].node) == next
  }

  /** A member comes out exactly if it went in or is where a member's node went. */
  lemma {:induction false} KeptExactly(sub: string, previous: seq<Node>, current: seq<Node>, members: seq<Member>,
      m: Member)
    ensures m in KeepMembers(sub, previous, current, members) <==>
              if m.subscription != sub then m in members
              else m.node != "" && SomeoneMovesTo(sub, previous, current, members, m.node)
    decreases |members|
  {
    if members != [] {
      var rest, last := members[..|members| - 1], members[|members| - 1];
      KeptExactly(sub, previous, current, rest, m);
      SplitLast(members);
      if m.subscription == sub {
        forall i | 0 <= i < |rest| ensures members[i] == rest[i] {}
        assert members[|rest|] == last;
      }
    }
  }

  /** Members of other subscriptions keep their content and their order. */
  lemma {:induction false} OthersAreUntouched(sub: string, previous: seq<Node>, current: seq<Node>,
      members: seq<Member>)
    ensures Others(KeepMembers(sub, previous, current, members), sub) == Others(members, sub)
    decreases |members|
  {
    if members != [] {
      var rest, last := members[..|members| - 1], members[|members| - 1];
      OthersAreUntouched(sub, previous, current, rest);
      var before := KeepMembers(sub, previous, current, rest);
      DropLast(before, last);
      DropLast(before, Member(sub, NextId(previous, current, last.node)));
    }
  }

  lemma {:induction false} KeptAreDistinct(sub: string, previous: seq<Node>, current: seq<Node>, members: seq<Member>)
    requires Distinct(members)
    ensures Distinct(KeepMembers(sub, previous, current, members))
    decreases |members|
  {
    if members != [] {
      var rest, last := members[..|members| - 1], members[|members| - 1];
      SplitLast(members);
      DistinctMore(rest, last);
      KeptAreDistinct(sub, previous, current, rest);
      KeptExactly(sub, previous, current, rest, last);
      var before := KeepMembers(sub, previous, current, rest);
      DistinctMore(before, last);
      DistinctMore(before, Member(sub, NextId(previous, current, last.node)));
    }
  }

  /** Members that need no change. */
  ghost predicate Settled(sub: string, previous: seq<Node>, current: seq<Node>, members: seq<Member>) {
    && (forall m :: m in members && m.subscription == sub ==>
          m.node != "" && NextId(previous, current, m.node) == m.node)
    && (forall i, j :: 0 <= i < j < |members| && members[i].subscription == sub ==> members[i] != members[j])
  }

  lemma SettledMore(sub: string, previous: seq<Node>, current: seq<Node>, members: seq<Member>, m: Member)
    ensures Settled(sub, previous, current, members + [m]) <==>
              && Settled(sub, previous, current, members)
              && (m.subscription == sub ==>
                    m.node != "" && NextId(previous, current, m.node) == m.node && m !in members)
  {
    var all := members + [m];
    assert all[|members|] == m;
    assert forall i :: 0 <= i < |members| ==> all[i] == members[i];
    if Settled(sub, previous, current, all) {
      forall x | x in members && x.subscription == sub ensures x in all {}
      forall i, j | 0 <= i < j < |members| && members[i].subscription == sub ensures members[i] != members[j] {
        assert all[i] != all[j];
      }
    }
  }

  lemma {:induction false} SettledStays(sub: string, previous: seq<Node>, current: seq<Node>, members: seq<Member>)
    requires Settled(sub, previous, current, members)
    ensures KeepMembers(sub, previous, current, members) == members
    decreases |members|
  {
    if members != [] {
      var rest, last := members[..|members| - 1], members[|members| - 1];
      SplitLast(members);
      SettledMore(sub, previous, current, rest, last);
      SettledStays(sub, previous, current, rest);
    }
  }

  lemma {:induction false} KeptIsSettled(sub: string, previous: seq<Node>, current: seq<Node>, members: seq<Member>)
    ensures Settled(sub, previous, current, KeepMembers(sub, previous, current, members))
    decreases |members|
  {
    if members != [] {
      var rest, last := members[..|members| - 1], members[|members| - 1];
      KeptIsSettled(sub, previous, current, rest);
      var before := KeepMembers(sub, previous, current, rest);
      NextIdFacts(previous, current, last.node);
      SettledMore(sub, previous, current, before, last);
      SettledMore(sub, previous, current, before, Member(sub, NextId(previous, current, last.node)));
    }
  }

  /** Reconciling again changes nothing, even after a write that failed half way. */
  lemma ReconcilingTwiceIsOnce(sub: string, previous: seq<Node>, current: seq<Node>, members: seq<Member>)
    ensures
      var once := KeepMembers(sub, previous, current, members);
      KeepMembers(sub, previous, current, once) == once
  {
    KeptIsSettled(sub, previous, current, members);
    SettledStays(sub, previous, current, KeepMembers(sub, previous, current, members));
  }

  /** A pool whose nodes are all still there is left alone. */
  lemma {:induction false} NothingMovedNothingChanges(sub: string, previous: seq<Node>, current: seq<Node>,
      members: seq<Member>)
    requires Distinct(members)
    requires forall m :: m in members && m.subscription == sub ==> m.node != "" && m.node in Ids(current)
    ensures KeepMembers(sub, previous, current, members) == members
  {
    SettledStays(sub, previous, current, members);
  }

  /** If each member named a node before or names one now, each names one now. */
  lemma KeptMembersExist(sub: string, previous: seq<Node>, current: seq<Node>, members: seq<Member>, m: Member)
    requires forall x :: x in members && x.subscription == sub ==> x.node in Ids(previous) || x.node in Ids(current)
    requires m in KeepMembers(sub, previous, current, members) && m.subscription == sub
    ensures m.node in Ids(current)
  {
    KeptExactly(sub, previous, current, members, m);
    var i :| 0 <= i < |members| && members[i].subscription == sub
      && NextId(previous, current, members[i].node) == m.node;
    assert members[i] in members;
    NextIdFacts(previous, current, members[i].node);
  }

  lemma {:induction false} OthersAre(members: seq<Member>, sub: string, m: Member)
    ensures m in Others(members, sub) <==> m in members && m.subscription != sub
    decreases |members|
  {
    if members != [] {
      OthersAre(members[..|members| - 1], sub, m);
      SplitLast(members);
    }
  }

  lemma {:induction false} OthersAreDistinct(members: seq<Member>, sub: string)
    requires Distinct(members)
    ensures Distinct(Others(members, sub))
    decreases |members|
  {
    if members != [] {
      var rest, last := members[..|members| - 1], members[|members| - 1];
      SplitLast(members);
      DistinctMore(rest, last);
      OthersAreDistinct(rest, sub);
      OthersAre(rest, sub, last);
      DistinctMore(Others(rest, sub), last);
    }
  }

  /** A member resolves iff its subscription has its node, or, with an empty id, has a node that is selected. */
  lemma ResolvesExactly(items: seq<Subscription>, m: Member, i: nat)
    requires forall j, k :: 0 <= j < k < |items| ==> items[j].id != items[k].id
    requires i < |items| && items[i].id == m.subscription
    ensures m.node != "" ==> (Resolves(items, m) <==> exists n :: n in items[i].nodes && n.id == m.node)
    ensures m.node == "" ==> (Resolves(items, m) <==> exists n :: n in items[i].nodes && n.id == items[i].selected)
  {
    assert IndexOf(items, m.subscription) == i;
    var id := if m.node == "" then items[i].selected else m.node;
    if id in Ids(items[i].nodes) {
      var k :| 0 <= k < |items[i].nodes| && items[i].nodes[k].id == id;
      assert items[i].nodes[k] in items[i].nodes;
    }
    if n :| n in items[i].nodes && n.id == id {
      var k :| 0 <= k < |items[i].nodes| && items[i].nodes[k] == n;
      assert id in Ids(items[i].nodes);
    }
  }

  lemma {:induction false} ResolvingAre(items: seq<Subscription>, members: seq<Member>, m: Member)
    ensures m in Resolving(items, members) <==> m in members && Resolves(items, m)
    decreases |members|
  {
    if members != [] {
      ResolvingAre(items, members[..|members| - 1], m);
      SplitLast(members);
    }
  }

  lemma {:induction false} ResolvingAreDistinct(items: seq<Subscription>, members: seq<Member>)
    requires Distinct(members)
    ensures Distinct(Resolving(items, members))
    decreases |members|
  {
    if members != [] {
      var rest, last := members[..|members| - 1], members[|members| - 1];
      SplitLast(members);
      DistinctMore(rest, last);
      ResolvingAreDistinct(items, rest);
      ResolvingAre(items, rest, last);
      DistinctMore(Resolving(items, rest), last);
    }
  }

  lemma {:induction false} CleanedFacts(members: seq<Member>)
    ensures
      var r := Cleaned(members);
      && (r.Ok? <==> forall m :: m in members ==> m.subscription != "" && m.node != "")
      && (r.Ok? ==> Distinct(r.value) && forall m :: m in r.value <==> m in members)
    decreases |members|
  {
    if members != [] {
      var rest, last := members[..|members| - 1], members[|members| - 1];
      SplitLast(members);
      CleanedFacts(rest);
      if Cleaned(rest).Ok? {
        DistinctMore(Cleaned(rest).value, last);
      }
    }
  }

  /** Members stay in order: a longer list only adds at the end of what it leaves. */
  lemma {:induction false} OthersInOrder(members: seq<Member>, sub: string, i: nat)
    requires i <= |members|
    ensures Others(members[..i], sub) <= Others(members, sub)
    decreases |members|
  {
    if i == |members| {
      TakeAll(members);
    } else {
      OthersInOrder(members[..|members| - 1], sub, i);
      assert members[..|members| - 1][..i] == members[..i];
    }
  }

  lemma {:induction false} ResolvingInOrder(items: seq<Subscription>, members: seq<Member>, i: nat)
    requires i <= |members|
    ensures Resolving(items, members[..i]) <= Resolving(items, members)
    decreases |members|
  {
    if i == |members| {
      TakeAll(members);
    } else {
      ResolvingInOrder(items, members[..|members| - 1], i);
      assert members[..|members| - 1][..i] == members[..i];
    }
  }

  lemma {:induction false} CleanedInOrder(members: seq<Member>, i: nat)
    requires i <= |members| && Cleaned(members).Ok?
    ensures Cleaned(members[..i]).Ok? && Cleaned(members[..i]).value <= Cleaned(members).value
    decreases |members|
  {
    if i == |members| {
      TakeAll(members);
    } else {
      CleanedInOrder(members[..|members| - 1], i);
      assert members[..|members| - 1][..i] == members[..i];
    }
  }

  lemma {:induction false} NoneIsMissing(look: nat -> seq<Subscription>, members: seq<Member>, start: nat)
    requires start <= |members|
    ensures FirstMissing(look, members, start).None? <==>
              forall k: nat :: start <= k < |members| ==> Resolves(look(k), members[k])
    decreases |members| - start
  {
    if start < |members| {
      NoneIsMissing(look, members, start + 1);
    }
  }

  lemma CleanedIsNoLonger(members: seq<Member>)
    ensures Cleaned(members).Ok? ==> |Cleaned(members).value| <= |members|
    decreases |members|
  {
    if members != [] {
      CleanedIsNoLonger(members[..|members| - 1]);
    }
  }

  /**
   Create and Update accept a list of members exactly if it is not too long, names each node, and each
   resolved when it was looked up; what they go on with is the same members, each once.
   */
  lemma ValidatedExactly(look: nat -> seq<Subscription>, members: seq<Member>)
    ensures
      var r := Validated(look, members);
      && (r.Ok? <==>
            && |members| <= MAX_MEMBERS && Cleaned(members).Ok?
            && forall k: nat :: k < |Cleaned(members).value| ==> Resolves(look(k), Cleaned(members).value[k]))
      && (r.Ok? ==>
            && Distinct(r.value) && |r.value| <= MAX_MEMBERS && (forall m :: m in r.value <==> m in members)
            && (forall m :: m in r.value ==> m.subscription != "" && m.node != "")
            && (forall k: nat :: k < |r.value| ==> Resolves(look(k), r.value[k])))
  {
    CleanedFacts(members);
    CleanedIsNoLonger(members);
    if Cleaned(members).Ok? {
      NoneIsMissing(look, Cleaned(members).value, 0);
    }
  }

  lemma {:induction false} MissingIsFirst(look: nat -> seq<Subscription>, members: seq<Member>, start: nat)
    returns (k: nat)
    requires start <= |members| && FirstMissing(look, members, start).Some?
    ensures start <= k < |members| && FirstMissing(look, members, start) == Some(members[k])
    ensures !Resolves(look(k), members[k]) && forall j: nat :: start <= j < k ==> Resolves(look(j), members[j])
    decreases |members| - start
  {
    if Resolves(look(start), members[start]) {
      k := MissingIsFirst(look, members, start + 1);
    } else {
      k := start;
    }
  }

  /** Why members are refused: too many, a blank one, or else the first that did not resolve. */
  lemma RefusedFor(look: nat -> seq<Subscription>, members: seq<Member>) returns (k: nat)
    requires Validated(look, members).Err?
    ensures
      var e := Validated(look, members).error;
      if |members| > MAX_MEMBERS then e == TooManyMembers
      else if exists m :: m in members && (m.subscription == "" || m.node == "") then e == BlankMember
      else
        && Cleaned(members).Ok? && k < |Cleaned(members).value| && e == MemberUnavailable(Cleaned(members).value[k])
        && !Resolves(look(k), Cleaned(members).value[k])
        && forall j: nat :: j < k ==> Resolves(look(j), Cleaned(members).value[j])
  {
    k := 0;
    CleanedFacts(members);
    CleanedErrs(members);
    if |members| <= MAX_MEMBERS && Cleaned(members).Ok? {
      k := MissingIsFirst(look, Cleaned(members).value, 0);
    }
  }

  lemma {:induction false} CleanedErrs(members: seq<Member>)
    ensures Cleaned(members).Err? ==> Cleaned(members).error == BlankMember
    decreases |members|
  {
    if members != [] {
      CleanedErrs(members[..|members| - 1]);
    }
  }
}
