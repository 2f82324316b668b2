/**
 Pool members name nodes of subscriptions (internal/nodepool/manager.go). After a
 refresh a member follows its node to a new id if the node can be recognised, and
 is dropped if it cannot.
 */
module PoolMembers {
  import opened Common
  import opened Subscriptions

  datatype Member = Member(subscription: string, node: string)

  datatype Pool = Pool(id: string, members: seq<Member>)

  datatype PoolError = PoolNotFound | TooManyMembers | BlankMember | MemberUnavailable(member: Member)
    | PoolNotPersisted

  const MAX_MEMBERS := 128

  /** nodeIdentity: what remains of a node without its id and its name; the hash is taken to be injective. */
  function Identity(n: Node): Node {
    n.(id := "", name := "")
  }

  /** The ids of the nodes that look like this one. */
  function Twins(nodes: seq<Node>, identity: Node): seq<string>
    decreases |nodes|
  {
    if nodes == [] then []
    else
      var before, last := Twins(nodes[..|nodes| - 1], identity), nodes[|nodes| - 1];
      if Identity(last) == identity then before + [last.id] else before
  }

  function OnlyTwin(nodes: seq<Node>, identity: Node): string {
    var twins := Twins(nodes, identity);
    if |twins| == 1 then twins[0] else ""
  }

  /** Where a member's node is after the refresh; empty if it is gone. */
  function NextId(previous: seq<Node>, current: seq<Node>, id: string): string {
    if id in Ids(current) then id
    else
      match LastWith(previous, id)
      case None => id
      case Some(node) => OnlyTwin(current, Identity(node))
  }

  function KeepMembers(sub: string, previous: seq<Node>, current: seq<Node>, members: seq<Member>): seq<Member>
    decreases |members|
  {
    if members == [] then []
    else
      var before, m := KeepMembers(sub, previous, current, members[..|members| - 1]), members[|members| - 1];
      if m.subscription != sub then before + [m]
      else
        var next := Member(sub, NextId(previous, current, m.node));
        if next.node == "" || next in before then before else before + [next]
  }

  function Reconciled(pools: seq<Pool>, sub: string, previous: seq<Node>, current: seq<Node>): seq<Pool> {
    seq(|pools|,
        i requires 0 <= i < |pools| => pools[i].(members := KeepMembers(sub, previous, current, pools[i].members)))
  }

  function Others(members: seq<Member>, sub: string): seq<Member>
    decreases |members|
  {
    if members == [] then []
    else
      var before, last := Others(members[..|members| - 1], sub), members[|members| - 1];
      if last.subscription == sub then before else before + [last]
  }

  function Dropped(pools: seq<Pool>, sub: string): seq<Pool> {
    seq(|pools|, i requires 0 <= i < |pools| => pools[i].(members := Others(pools[i].members, sub)))
  }

  /** SelectedNode finds a node; an empty node id means the selected one. */
  predicate Resolves(items: seq<Subscription>, m: Member) {
    var i := IndexOf(items, m.subscription);
    i < |items| && (if m.node == "" then items[i].selected else m.node) in Ids(items[i].nodes)
  }

  function Resolving(items: seq<Subscription>, members: seq<Member>): seq<Member>
    decreases |members|
  {
    if members == [] then []
    else
      var before, last := Resolving(items, members[..|members| - 1]), members[|members| - 1];
      if Resolves(items, last) then before + [last] else before
  }

  function Repaired(pools: seq<Pool>, items: seq<Subscription>): seq<Pool> {
    seq(|pools|, i requires 0 <= i < |pools| => pools[i].(members := Resolving(items, pools[i].members)))
  }

  /** No blank id, each member once. */
  function Cleaned(members: seq<Member>): Result<seq<Member>, PoolError>
    decreases |members|
  {
    if members == [] then Ok([])
    else
      var before :- Cleaned(members[..|members| - 1]);
      var last := members[|members| - 1];
      if last.subscription == "" || last.node == "" then Err(BlankMember)
      else Ok(if last in before then before else before + [last])
  }

  /** The member part of validatePool. */
  function Admitted(members: seq<Member>): Result<seq<Member>, PoolError> {
    if |members| > MAX_MEMBERS then Err(TooManyMembers) else Cleaned(members)
  }

  /** The first member that does not resolve; `look(k)` are the subscriptions at the time member `k` is looked up. */
  function FirstMissing(look: nat -> seq<Subscription>, members: seq<Member>, start: nat): Option<Member>
    requires start <= |members|
    decreases |members| - start
  {
    if start == |members| then None
    else if !Resolves(look(start), members[start]) then Some(members[start])
    else FirstMissing(look, members, start + 1)
  }

  function Validated(look: nat -> seq<Subscription>, members: seq<Member>): Result<seq<Member>, PoolError> {
    var clean :- Admitted(members);
    match FirstMissing(look, clean, 0)
    case Some(m) => Err(MemberUnavailable(m))
    case None => Ok(clean)
  }

  function PoolIndex(pools: seq<Pool>, id: string): (i: nat)
    ensures i <= |pools|
    ensures i < |pools| ==> pools[i].id == id
  {
    if pools == [] then 0 else if pools[0].id == id then 0 else 1 + PoolIndex(pools[1..], id)
  }

  // ----- the tables of a reconciliation

  ghost predicate IsIndex(nodes: seq<Node>, byId: map<string, Node>) {
    forall id :: (id in byId <==> LastWith(nodes, id).Some?) && (id in byId ==> LastWith(nodes, id) == Some(byId[id]))
  }

  ghost predicate IsTwinTable(nodes: seq<Node>, table: map<Node, string>) {
    forall x :: (x in table <==> Twins(nodes, x) != []) && (x in table ==> table[x] == OnlyTwin(nodes, x))
  }

  lemma TwinsOfMore(nodes: seq<Node>, n: Node, x: Node)
    ensures Twins(nodes + [n], x) == if Identity(n) == x then Twins(nodes, x) + [n.id] else Twins(nodes, x)
  {
    DropLast(nodes, n);
  }

  lemma TwinTableOfMore(nodes: seq<Node>, n: Node, table: map<Node, string>)
    requires IsTwinTable(nodes, table)
    ensures IsTwinTable(nodes + [n], table[Identity(n) := if Identity(n) in table then "" else n.id])
  {
    forall x ensures Twins(nodes + [n], x) == if Identity(n) == x then Twins(nodes, x) + [n.id] else Twins(nodes, x) {
      TwinsOfMore(nodes, n, x);
    }
  }

  method IndexNodes(nodes: seq<Node>) returns (byId: map<string, Node>)
    ensures IsIndex(nodes, byId)
  {
    byId := map[];
    for i := 0 to |nodes|
      invariant IsIndex(nodes[..i], byId)
    {
      TakeOneMore(nodes, i);
      byId := byId[nodes[i].id := nodes[i]];
    }
    TakeAll(nodes);
  }

  method IndexTwins(nodes: seq<Node>) returns (ids: set<string>, table: map<Node, string>)
    ensures ids == Ids(nodes) && IsTwinTable(nodes, table)
  {
    ids, table := {}, map[];
    for i := 0 to |nodes|
      invariant ids == Ids(nodes[..i]) && IsTwinTable(nodes[..i], table)
    {
      TakeOneMore(nodes, i);
      IdsOfMore(nodes[..i], nodes[i]);
      TwinTableOfMore(nodes[..i], nodes[i], table);
      ids := ids + {nodes[i].id};
      var identity := Identity(nodes[i]);
      if identity in table {
        table := table[identity := ""];
      } else {
        table := table[identity := nodes[i].id];
      }
    }
    TakeAll(nodes);
  }

  lemma NextIdFromTables(previous: seq<Node>, current: seq<Node>, byId: map<string, Node>, table: map<Node, string>,
      id: string)
    requires IsIndex(previous, byId) && IsTwinTable(current, table)
    ensures
      NextId(previous, current, id) ==
        if id in Ids(current) || id !in byId then id
        else if Identity(byId[id]) in table then table[Identity(byId[id])] else ""
  {
    if id !in Ids(current) && id in byId {
      assert Identity(byId[id]) !in table ==> Twins(current, Identity(byId[id])) == [];
    }
  }

  lemma ChangedStaysChanged<T>(a: seq<T>, b: seq<T>, x: T, y: T)
    requires |a| <= |b|
    ensures a + [x] == b + [y] <==> a == b && x == y
    ensures a != b + [y]
  {
    if a + [x] == b + [y] {
      DropLast(a, x);
      DropLast(b, y);
      assert (a + [x])[|a|] == (b + [y])[|b|];
    }
  }

  class Manager {
    var items: seq<Pool>

    constructor ()
      ensures items == []
    {
      items := [];
    }

    static method KeepPoolMembers(
      sub: string, members: seq<Member>, byId: map<string, Node>, ids: set<string>, table: map<Node, string>,
      ghost previous: seq<Node>, ghost current: seq<Node>)
      returns (kept: seq<Member>, changed: bool)
      requires IsIndex(previous, byId) && IsTwinTable(current, table) && ids == Ids(current)
      ensures kept == KeepMembers(sub, previous, current, members)
      ensures changed <==> kept != members
    {
      kept, changed := [], false;
      var seen: set<string> := {};
      for i := 0 to |members|
        invariant kept == KeepMembers(sub, previous, current, members[..i])
        invariant forall id :: id in seen <==> Member(sub, id) in kept
        invariant |kept| <= i && (changed <==> kept != members[..i])
      {
        var member := members[i];
        TakeOneMore(members, i);
        ChangedStaysChanged(kept, members[..i], member, member);
        if member.subscription != sub {
          kept := kept + [member];
          continue;
        }
        NextIdFromTables(previous, current, byId, table, member.node);
        var next := member.node;
        if next !in ids && next in byId {
          var identity := Identity(byId[next]);
          next := if identity in table then table[identity] else "";
        }
        if next == "" {
          changed := true;
          continue;
        }
        if next in seen {
          changed := true;
          continue;
        }
        seen := seen + {next};
        ChangedStaysChanged(kept, members[..i], Member(sub, next), member);
        if next != member.node {
          changed := true;
          member := member.(node := next);
        }
        kept := kept + [member];
      }
      TakeAll(members);
    }

    method ReconcileSubscriptionNodes(sub: string, previous: seq<Node>, current: seq<Node>, persisted: bool)
      returns (r: Result<(), PoolError>)
      modifies this
      ensures
        var after := Reconciled(old(items), sub, previous, current);
        if after != old(items) && !persisted then items == old(items) && r == Err(PoolNotPersisted)
        else items == after && r == Ok(())
    {
      var byId := IndexNodes(previous);
      var ids, table := IndexTwins(current);
      var before, changed := items, false;
      for i := 0 to |items|
        invariant |items| == |before|
        invariant forall k :: i <= k < |items| ==> items[k] == before[k]
        invariant forall k :: 0 <= k < i ==>
          items[k] == before[k].(members := KeepMembers(sub, previous, current, before[k].members))
        invariant changed <==> exists k :: 0 <= k < i && items[k] != before[k]
      {
        var kept, poolChanged := KeepPoolMembers(sub, items[i].members, byId, ids, table, previous, current);
        assert before[i] == before[i].(members := before[i].members);
        items := items[i := items[i].(members := kept)];
        if poolChanged {
          changed := true;
        }
      }
      assert items == Reconciled(before, sub, previous, current);
      if changed && !persisted {
        items := before;
        return Err(PoolNotPersisted);
      }
      return Ok(());
    }

    static method WithoutSubscription(members: seq<Member>, sub: string) returns (kept: seq<Member>)
      ensures kept == Others(members, sub)
      ensures |kept| == |members| <==> kept == members
    {
      kept := [];
      for j := 0 to |members|
        invariant kept == Others(members[..j], sub) && |kept| <= j
        invariant kept == members[..j] <==> |kept| == j
      {
        TakeOneMore(members, j);
        ChangedStaysChanged(kept, members[..j], members[j], members[j]);
        if members[j].subscription != sub {
          kept := kept + [members[j]];
        }
      }
      TakeAll(members);
    }

    method DeleteSubscriptionMembers(sub: string, persisted: bool) returns (r: Result<(), PoolError>)
      modifies this
      ensures
        var after := Dropped(old(items), sub);
        if after != old(items) && !persisted then items == old(items) && r == Err(PoolNotPersisted)
        else items == after && r == Ok(())
    {
      var before, changed := items, false;
      for i := 0 to |items|
        invariant |items| == |before|
        invariant forall k :: i <= k < |items| ==> items[k] == before[k]
        invariant forall k :: 0 <= k < i ==> items[k] == before[k].(members := Others(before[k].members, sub))
        invariant changed <==> exists k :: 0 <= k < i && items[k] != before[k]
      {
        var members := items[i].members;
        var kept := WithoutSubscription(items[i].members, sub);
        assert before[i] == before[i].(members := before[i].members);
        if |kept| != |members| {
          changed := true;
          items := items[i := items[i].(members := kept)];
        }
      }
      assert items == Dropped(before, sub);
      if changed && !persisted {
        items := before;
        return Err(PoolNotPersisted);
      }
      return Ok(());
    }

    static method OnlyResolving(subscriptions: seq<Subscription>, members: seq<Member>) returns (kept: seq<Member>)
      ensures kept == Resolving(subscriptions, members)
      ensures |kept| == |members| <==> kept == members
    {
      kept := [];
      for j := 0 to |members|
        invariant kept == Resolving(subscriptions, members[..j]) && |kept| <= j
        invariant kept == members[..j] <==> |kept| == j
      {
        TakeOneMore(members, j);
        ChangedStaysChanged(kept, members[..j], members[j], members[j]);
        if Resolves(subscriptions, members[j]) {
          kept := kept + [members[j]];
        }
      }
      TakeAll(members);
    }

    method ReconcileReferences(subscriptions: seq<Subscription>, persisted: bool) returns (r: Result<(), PoolError>)
      modifies this
      ensures
        var after := Repaired(old(items), subscriptions);
        if after != old(items) && !persisted then items == old(items) && r == Err(PoolNotPersisted)
        else items == after && r == Ok(())
    {
      var before, changed := items, false;
      for i := 0 to |items|
        invariant |items| == |before|
        invariant forall k :: i <= k < |items| ==> items[k] == before[k]
        invariant forall k :: 0 <= k < i ==>
          items[k] == before[k].(members := Resolving(subscriptions, before[k].members))
        invariant changed <==> exists k :: 0 <= k < i && items[k] != before[k]
      {
        var members := items[i].members;
        var kept := OnlyResolving(subscriptions, items[i].members);
        assert before[i] == before[i].(members := before[i].members);
        if |kept| != |members| {
          changed := true;
          items := items[i := items[i].(members := kept)];
        }
      }
      assert items == Repaired(before, subscriptions);
      if changed && !persisted {
        items := before;
        return Err(PoolNotPersisted);
      }
      return Ok(());
    }

    static method CleanMembers(members: seq<Member>) returns (r: Result<seq<Member>, PoolError>)
      ensures r == Admitted(members)
    {
      if |members| > MAX_MEMBERS {
        return Err(TooManyMembers);
      }
      var clean := [];
      var seen: set<Member> := {};
      for i := 0 to |members|
        invariant Cleaned(members[..i]) == Ok(clean)
        invariant forall m :: m in seen <==> m in clean
      {
        var member := members[i];
        TakeOneMore(members, i);
        if member.subscription == "" || member.node == "" {
          CleanedStops(members, i + 1);
          return Err(BlankMember);
        }
        if member in seen {
          continue;
        }
        seen := seen + {member};
        clean := clean + [member];
      }
      TakeAll(members);
      return Ok(clean);
    }

    /**
     Before Create takes the lock, and under the lock of Update: each look-up takes the lock of the
     subscriptions for itself, so they may change from one member to the next.
     */
    static method CheckMembers(members: seq<Member>, look: nat -> seq<Subscription>)
      returns (r: Result<seq<Member>, PoolError>)
      ensures r == Validated(look, members)
    {
      var clean :- CleanMembers(members);
      for i := 0 to |clean|
        invariant FirstMissing(look, clean, 0) == FirstMissing(look, clean, i)
      {
        if !Resolves(look(i), clean[i]) {
          return Err(MemberUnavailable(clean[i]));
        }
      }
      return Ok(clean);
    }

    /** The locked part of Create: the members were checked before, and are not looked at again. */
    method StoreCreated(id: string, members: seq<Member>, persisted: bool) returns (r: Result<(), PoolError>)
      modifies this
      ensures items == if persisted then old(items) + [Pool(id, members)] else old(items)
      ensures r == if persisted then Ok(()) else Err(PoolNotPersisted)
    {
      items := items + [Pool(id, members)];
      if !persisted {
        items := items[..|items| - 1];
        return Err(PoolNotPersisted);
      }
      return Ok(());
    }

    /** Update checks the members under the lock that it also stores them under. */
    method UpdateMembers(id: string, members: seq<Member>, look: nat -> seq<Subscription>, persisted: bool)
      returns (r: Result<(), PoolError>)
      modifies this
      ensures
        var i, v := PoolIndex(old(items), id), Validated(look, members);
        if i == |old(items)| then items == old(items) && r == Err(PoolNotFound)
        else if v.Err? then items == old(items) && r == Err(v.error)
        else if !persisted then items == old(items) && r == Err(PoolNotPersisted)
        else items == old(items)[i := Pool(id, v.value)] && r == Ok(())
    {
      var index := 0;
      while index < |items| && items[index].id != id
        invariant index <= |items|
        invariant PoolIndex(items, id) == index + PoolIndex(items[index..], id)
      {
        assert items[index..][1..] == items[index + 1..];
        index := index + 1;
      }
      if index == |items| {
        return Err(PoolNotFound);
      }
      var clean :- CheckMembers(members, look);
      var previous := items[index];
      items := items[index := previous.(members := clean)];
      if !persisted {
        items := items[index := previous];
        return Err(PoolNotPersisted);
      }
      return Ok(());
    }
  }

  lemma {:induction false} CleanedStops(members: seq<Member>, i: nat)
    requires i <= |members| && Cleaned(members[..i]).Err?
    ensures Cleaned(members) == Cleaned(members[..i])
    decreases |members|
  {
    if i == |members| {
      TakeAll(members);
    } else {
      assert members[..|members| - 1][..i] == members[..i];
      CleanedStops(members[..|members| - 1], i);
    }
  }
}
