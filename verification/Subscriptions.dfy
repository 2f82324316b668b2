/**
 Subscriptions and their nodes (internal/subscription/manager.go): a refresh
 replaces the fetched nodes and keeps the imported ones, and one subscription is
 active at a time. Writing the file may fail, and then the change is taken back.
 */
module Subscriptions {
  import opened Common

  /** `details` stands for everything about a node except its id and its name. */
  datatype Node = Node(id: string, name: string, details: string)

  datatype Subscription = Subscription(id: string, active: bool, nodes: seq<Node>, manual: seq<string>,
      selected: string)

  datatype Error = NotFound | NodeNotFound | NotPersisted | InputTooLarge | TooManyLinks | NoLinks

  const MAX_IMPORT_BYTES := 0x4_0000
  const MAX_IMPORT_LINKS := 200

  function Ids(nodes: seq<Node>): set<string> {
    set i | 0 <= i < |nodes| :: nodes[i].id
  }

  lemma IdsOfMore(nodes: seq<Node>, n: Node)
    ensures Ids(nodes + [n]) == Ids(nodes) + {n.id}
  {
    var all := nodes + [n];
    forall id | id in Ids(nodes) ensures id in Ids(all) {
      var i :| 0 <= i < |nodes| && nodes[i].id == id;
      assert all[i].id == id;
    }
    assert all[|nodes|].id == n.id;
  }

  ghost predicate DistinctIds(nodes: seq<Node>) {
    forall i, j :: 0 <= i < j < |nodes| ==> nodes[i].id != nodes[j].id
  }

  // ----- lists of nodes

  /** The last node with this id, as a map built by a loop remembers it. */
  function LastWith(nodes: seq<Node>, id: string): Option<Node>
    decreases |nodes|
  {
    if nodes == [] then None
    else if nodes[|nodes| - 1].id == id then Some(nodes[|nodes| - 1])
    else LastWith(nodes[..|nodes| - 1], id)
  }

  lemma {:induction false} LastWithFinds(nodes: seq<Node>, id: string)
    ensures LastWith(nodes, id).Some? <==> id in Ids(nodes)
    ensures LastWith(nodes, id).Some? ==> LastWith(nodes, id).value in nodes && LastWith(nodes, id).value.id == id
    decreases |nodes|
  {
    if nodes == [] {
      assert Ids(nodes) == {};
    } else {
      var rest, last := nodes[..|nodes| - 1], nodes[|nodes| - 1];
      LastWithFinds(rest, id);
      SplitLast(nodes);
      IdsOfMore(rest, last);
    }
  }

  /** The nodes with these ids, in the order of the ids. */
  function NodesById(nodes: seq<Node>, ids: seq<string>): seq<Node>
    decreases |ids|
  {
    if ids == [] then []
    else
      var before, found := NodesById(nodes, ids[..|ids| - 1]), LastWith(nodes, ids[|ids| - 1]);
      if found.Some? then before + [found.value] else before
  }

  /** The first node of each id. */
  function FirstOfEach(nodes: seq<Node>): seq<Node>
    decreases |nodes|
  {
    if nodes == [] then []
    else
      var before, last := FirstOfEach(nodes[..|nodes| - 1]), nodes[|nodes| - 1];
      if last.id in Ids(before) then before else before + [last]
  }

  lemma {:induction false} FirstOfEachFacts(nodes: seq<Node>)
    ensures DistinctIds(FirstOfEach(nodes)) && Ids(FirstOfEach(nodes)) == Ids(nodes)
    decreases |nodes|
  {
    if nodes != [] {
      var rest, last := nodes[..|nodes| - 1], nodes[|nodes| - 1];
      FirstOfEachFacts(rest);
      SplitLast(nodes);
      IdsOfMore(rest, last);
      IdsOfMore(FirstOfEach(rest), last);
    }
  }

  lemma {:induction false} NodesByIdFacts(nodes: seq<Node>, ids: seq<string>)
    ensures Ids(NodesById(nodes, ids)) == set id | id in ids && id in Ids(nodes)
    decreases |ids|
  {
    if ids != [] {
      var rest, last := ids[..|ids| - 1], ids[|ids| - 1];
      NodesByIdFacts(nodes, rest);
      LastWithFinds(nodes, last);
      SplitLast(ids);
      if LastWith(nodes, last).Some? {
        IdsOfMore(NodesById(nodes, rest), LastWith(nodes, last).value);
      }
    } else {
      assert Ids(NodesById(nodes, ids)) == {};
    }
  }

  lemma {:induction false} IdsOfConcat(a: seq<Node>, b: seq<Node>)
    ensures Ids(a + b) == Ids(a) + Ids(b)
    decreases |b|
  {
    if b == [] {
      assert a + b == a && Ids(b) == {};
    } else {
      var rest, last := b[..|b| - 1], b[|b| - 1];
      IdsOfConcat(a, rest);
      SplitLast(b);
      assert a + b == a + rest + [last];
      IdsOfMore(a + rest, last);
      IdsOfMore(rest, last);
    }
  }

  method CollectById(nodes: seq<Node>, ids: seq<string>) returns (result: seq<Node>)
    ensures result == NodesById(nodes, ids)
  {
    var byId: map<string, Node> := map[];
    for i := 0 to |nodes|
      invariant forall id :: id in byId <==> LastWith(nodes[..i], id).Some?
      invariant forall id :: id in byId ==> LastWith(nodes[..i], id) == Some(byId[id])
    {
      TakeOneMore(nodes, i);
      byId := byId[nodes[i].id := nodes[i]];
    }
    TakeAll(nodes);
    result := [];
    for i := 0 to |ids|
      invariant result == NodesById(nodes, ids[..i])
    {
      TakeOneMore(ids, i);
      if ids[i] in byId {
        result := result + [byId[ids[i]]];
      }
    }
    TakeAll(ids);
  }

  lemma FirstOfEachMore(past: seq<Node>, nodes: seq<Node>, i: nat)
    requires i < |nodes|
    ensures
      var before := FirstOfEach(past + nodes[..i]);
      FirstOfEach(past + nodes[..i + 1]) == if nodes[i].id in Ids(before) then before else before + [nodes[i]]
  {
    assert past + nodes[..i + 1] == past + nodes[..i] + [nodes[i]];
    DropLast(past + nodes[..i], nodes[i]);
  }

  method AppendNew(ghost past: seq<Node>, known: seq<Node>, seen: set<string>, nodes: seq<Node>)
    returns (result: seq<Node>, seenNow: set<string>)
    requires known == FirstOfEach(past) && seen == Ids(known)
    ensures result == FirstOfEach(past + nodes) && seenNow == Ids(result)
  {
    result, seenNow := known, seen;
    assert past + nodes[..0] == past;
    for i := 0 to |nodes|
      invariant result == FirstOfEach(past + nodes[..i]) && seenNow == Ids(result)
    {
      FirstOfEachMore(past, nodes, i);
      if nodes[i].id in seenNow {
        continue;
      }
      IdsOfMore(result, nodes[i]);
      seenNow := seenNow + {nodes[i].id};
      result := result + [nodes[i]];
    }
    TakeAll(nodes);
  }

  /** Both lists in turn, without repeated ids. */
  method MergeNodeLists(primary: seq<Node>, additional: seq<Node>) returns (result: seq<Node>)
    ensures result == FirstOfEach(primary + additional)
  {
    var seen;
    result, seen := AppendNew([], [], {}, primary);
    assert [] + primary == primary;
    result, seen := AppendNew(primary, result, seen, additional);
  }

  // ----- a refresh

  /** The selection after a refresh: the former one if it is still there, or else the first node. */
  function Pick(nodes: seq<Node>, former: string): string {
    if former != "" && former in Ids(nodes) then former else if nodes != [] then nodes[0].id else ""
  }

  function Refreshed(s: Subscription, fetched: seq<Node>): Subscription {
    var nodes := FirstOfEach(fetched + NodesById(s.nodes, s.manual));
    s.(nodes := nodes, selected := Pick(nodes, s.selected))
  }

  // ----- an import

  function ReplaceFirst(nodes: seq<Node>, n: Node): seq<Node>
    decreases |nodes|
  {
    if nodes == [] then []
    else if nodes[0].id == n.id then [n] + nodes[1..]
    else [nodes[0]] + ReplaceFirst(nodes[1..], n)
  }

  function Imported(s: Subscription, n: Node): Subscription {
    if n.id in Ids(s.nodes) then
      s.(nodes := ReplaceFirst(s.nodes, n), manual := if n.id in s.manual then s.manual else s.manual + [n.id])
    else
      s.(nodes := s.nodes + [n], manual := s.manual + [n.id], selected := if s.selected == "" then n.id else s.selected)
  }

  /** Links that do not parse are skipped. */
  function ImportedAll(s: Subscription, links: seq<Option<Node>>): Subscription
    decreases |links|
  {
    if links == [] then s
    else
      var before, last := ImportedAll(s, links[..|links| - 1]), links[|links| - 1];
      if last.Some? then Imported(before, last.value) else before
  }

  // ----- the list of subscriptions

  function IndexOf(items: seq<Subscription>, id: string): (i: nat)
    ensures i <= |items|
    ensures i < |items| ==> items[i].id == id
    ensures forall k :: 0 <= k < i ==> items[k].id != id
  {
    if items == [] then 0 else if items[0].id == id then 0 else 1 + IndexOf(items[1..], id)
  }

  function ActivatedAt(items: seq<Subscription>, index: nat): seq<Subscription> {
    seq(|items|, i requires 0 <= i < |items| => items[i].(active := i == index))
  }

  function DeletedAt(items: seq<Subscription>, index: nat): seq<Subscription>
    requires index < |items|
  {
    var rest := items[..index] + items[index + 1..];
    if items[index].active && rest != [] then rest[0 := rest[0].(active := true)] else rest
  }

  class Manager {
    var items: seq<Subscription>

    constructor ()
      ensures items == []
    {
      items := [];
    }

    method Find(id: string) returns (index: nat)
      ensures index == IndexOf(items, id)
    {
      index := 0;
      while index < |items|
        invariant index <= |items|
        invariant IndexOf(items, id) == index + IndexOf(items[index..], id)
      {
        if items[index].id == id {
          return;
        }
        assert items[index..][1..] == items[index + 1..];
        index := index + 1;
      }
    }

    method Create(id: string, persisted: bool) returns (r: Result<(), Error>)
      modifies this
      ensures items == if persisted then old(items) + [Subscription(id, old(items) == [], [], [], "")] else old(items)
      ensures r.Ok? <==> persisted
    {
      items := items + [Subscription(id, items == [], [], [], "")];
      if !persisted {
        items := items[..|items| - 1];
        return Err(NotPersisted);
      }
      return Ok(());
    }

    /** The locked part of refresh; nothing was fetched if the server answered "not modified". */
    method Refresh(id: string, fetched: Option<seq<Node>>, persisted: bool)
      returns (r: Result<(seq<Node>, seq<Node>), Error>)
      modifies this
      ensures
        var i := IndexOf(old(items), id);
        if i == |old(items)| then items == old(items) && r == Err(NotFound)
        else if !persisted then items == old(items) && r == Err(NotPersisted)
        else
          var after := if fetched.Some? then Refreshed(old(items)[i], fetched.value) else old(items)[i];
          items == old(items)[i := after] && r == Ok((old(items)[i].nodes, after.nodes))
    {
      var index := Find(id);
      if index == |items| {
        return Err(NotFound);
      }
      var previous := items[index];
      if fetched.Some? {
        var manualNodes := CollectById(previous.nodes, previous.manual);
        var nodes := MergeNodeLists(fetched.value, manualNodes);
        var selected := "";
        for i := 0 to |nodes|
          invariant selected == ""
          invariant forall k :: 0 <= k < i ==> nodes[k].id != previous.selected
        {
          if nodes[i].id == previous.selected {
            selected := previous.selected;
            break;
          }
        }
        if selected == "" && |nodes| > 0 {
          selected := nodes[0].id;
        }
        items := items[index := previous.(nodes := nodes, selected := selected)];
      }
      if !persisted {
        items := items[index := previous];
        return Err(NotPersisted);
      }
      return Ok((previous.nodes, items[index].nodes));
    }

    /** The non-blank lines of a text of so many bytes; a line that is no node link is None. */
    method ImportNodes(id: string, bytes: nat, links: seq<Option<Node>>, persisted: bool)
      returns (r: Result<(), Error>)
      modifies this
      ensures
        var i, changed := IndexOf(old(items), id), exists k :: 0 <= k < |links| && links[k].Some?;
        if bytes > MAX_IMPORT_BYTES then items == old(items) && r == Err(InputTooLarge)
        else if |links| > MAX_IMPORT_LINKS then items == old(items) && r == Err(TooManyLinks)
        else if links == [] then items == old(items) && r == Err(NoLinks)
        else if i == |old(items)| then items == old(items) && r == Err(NotFound)
        else if changed && !persisted then items == old(items) && r == Err(NotPersisted)
        else items == old(items)[i := ImportedAll(old(items)[i], links)] && r == Ok(())
    {
      if bytes > MAX_IMPORT_BYTES {
        return Err(InputTooLarge);
      }
      if |links| > MAX_IMPORT_LINKS {
        return Err(TooManyLinks);
      }
      if links == [] {
        return Err(NoLinks);
      }
      var index := Find(id);
      if index == |items| {
        return Err(NotFound);
      }
      var previous := items[index];
      var existing := Ids(previous.nodes);
      var changed := false;
      for i := 0 to |links|
        invariant |items| == |old(items)| && items == old(items)[index := ImportedAll(previous, links[..i])]
        invariant existing == Ids(items[index].nodes)
        invariant changed <==> exists k :: 0 <= k < i && links[k].Some?
      {
        TakeOneMore(links, i);
        if links[i].Some? {
          var s, node := items[index], links[i].value;
          if node.id in existing {
            var nodes := ReplaceNode(s.nodes, node);
            ReplaceKeepsIds(s.nodes, node);
            s := s.(nodes := nodes);
            if node.id !in s.manual {
              s := s.(manual := s.manual + [node.id]);
            }
          } else {
            IdsOfMore(s.nodes, node);
            s := s.(nodes := s.nodes + [node], manual := s.manual + [node.id]);
            existing := existing + {node.id};
            if s.selected == "" {
              s := s.(selected := node.id);
            }
          }
          items := items[index := s];
          changed := true;
        }
      }
      TakeAll(links);
      if changed && !persisted {
        items := items[index := previous];
        return Err(NotPersisted);
      }
      return Ok(());
    }

    static method ReplaceNode(nodes: seq<Node>, n: Node) returns (result: seq<Node>)
      ensures result == ReplaceFirst(nodes, n)
    {
      result := nodes;
      for i := 0 to |nodes|
        invariant result == nodes && forall k :: 0 <= k < i ==> nodes[k].id != n.id
      {
        if nodes[i].id == n.id {
          ReplacesAt(nodes, n, i);
          result := result[i := n];
          return;
        }
      }
      ReplacesAt(nodes, n, |nodes|);
    }

    method Delete(id: string, persisted: bool) returns (r: Result<(), Error>)
      modifies this
      ensures
        var i := IndexOf(old(items), id);
        if i == |old(items)| then items == old(items) && r == Err(NotFound)
        else if !persisted then items == old(items) && r == Err(NotPersisted)
        else items == DeletedAt(old(items), i) && r == Ok(())
    {
      var index := Find(id);
      if index == |items| {
        return Err(NotFound);
      }
      var previousItems, wasActive := items, items[index].active;
      items := items[..index] + items[index + 1..];
      if wasActive && |items| > 0 {
        items := items[0 := items[0].(active := true)];
      }
      if !persisted {
        items := previousItems;
        return Err(NotPersisted);
      }
      return Ok(());
    }

    method Activate(id: string, persisted: bool) returns (r: Result<(), Error>)
      modifies this
      ensures
        var i := IndexOf(old(items), id);
        if i == |old(items)| then items == old(items) && r == Err(NotFound)
        else if !persisted then items == old(items) && r == Err(NotPersisted)
        else items == ActivatedAt(old(items), i) && r == Ok(())
    {
      var index := Find(id);
      if index == |items| {
        return Err(NotFound);
      }
      var previous := items;
      for i := 0 to |items|
        invariant |items| == |previous|
        invariant forall k :: 0 <= k < |items| ==> items[k] == if k < i then previous[k].(active := k == index)
            else previous[k]
      {
        items := items[i := items[i].(active := i == index)];
      }
      assert items == ActivatedAt(previous, index);
      if !persisted {
        items := previous;
        return Err(NotPersisted);
      }
      return Ok(());
    }

    method SelectNode(id: string, nodeId: string, persisted: bool) returns (r: Result<(), Error>)
      modifies this
      ensures
        var i := IndexOf(old(items), id);
        if i == |old(items)| then items == old(items) && r == Err(NotFound)
        else if nodeId !in Ids(old(items)[i].nodes) then items == old(items) && r == Err(NodeNotFound)
        else if !persisted then items == old(items) && r == Err(NotPersisted)
        else items == old(items)[i := old(items)[i].(selected := nodeId)] && r == Ok(())
    {
      var index := Find(id);
      if index == |items| {
        return Err(NotFound);
      }
      var found := false;
      for i := 0 to |items[index].nodes|
        invariant !found && forall k :: 0 <= k < i ==> items[index].nodes[k].id != nodeId
      {
        if items[index].nodes[i].id == nodeId {
          found := true;
          break;
        }
      }
      if !found {
        return Err(NodeNotFound);
      }
      var previous := items[index];
      items := items[index := previous.(selected := nodeId)];
      if !persisted {
        items := items[index := previous];
        return Err(NotPersisted);
      }
      return Ok(());
    }
  }

  lemma {:induction false} ReplacesAt(nodes: seq<Node>, n: Node, i: nat)
    requires i <= |nodes| && (i < |nodes| ==> nodes[i].id == n.id)
    requires forall k :: 0 <= k < i ==> nodes[k].id != n.id
    ensures ReplaceFirst(nodes, n) == if i < |nodes| then nodes[i := n] else nodes
    decreases |nodes|
  {
    if i == 0 {
      assert nodes != [] ==> [n] + nodes[1..] == nodes[0 := n];
    } else {
      ReplacesAt(nodes[1..], n, i - 1);
      var rest := nodes[1..];
      assert nodes == [nodes[0]] + rest;
      assert i < |nodes| ==> [nodes[0]] + rest[i - 1 := n] == nodes[i := n];
    }
  }

  lemma {:induction false} ReplaceKeepsIds(nodes: seq<Node>, n: Node)
    ensures Ids(ReplaceFirst(nodes, n)) == Ids(nodes)
    ensures DistinctIds(nodes) ==> DistinctIds(ReplaceFirst(nodes, n))
    ensures |ReplaceFirst(nodes, n)| == |nodes|
    ensures forall i :: 0 <= i < |nodes| ==> ReplaceFirst(nodes, n)[i].id == nodes[i].id
    decreases |nodes|
  {
    var r := ReplaceFirst(nodes, n);
    if nodes != [] && nodes[0].id != n.id {
      ReplaceKeepsIds(nodes[1..], n);
      assert r[1..] == ReplaceFirst(nodes[1..], n);
      forall i | 1 <= i < |nodes| ensures r[i].id == nodes[i].id {
        assert r[i] == r[1..][i - 1] && nodes[i] == nodes[1..][i - 1];
      }
    }
    assert |r| == |nodes| && forall i :: 0 <= i < |nodes| ==> r[i].id == nodes[i].id;
    SameIds(nodes, r);
  }

  lemma SameIds(a: seq<Node>, b: seq<Node>)
    requires |a| == |b| && forall i :: 0 <= i < |a| ==> b[i].id == a[i].id
    ensures Ids(a) == Ids(b) && (DistinctIds(a) <==> DistinctIds(b))
  {
    forall id | id in Ids(a) ensures id in Ids(b) {
      var i :| 0 <= i < |a| && a[i].id == id;
      assert b[i].id == id;
    }
    forall id | id in Ids(b) ensures id in Ids(a) {
      var i :| 0 <= i < |b| && b[i].id == id;
      assert a[i].id == id;
    }
  }

  // ----- what holds of every subscription

  /** No id twice, imported nodes are there, and a selection exists whenever there are nodes. */
  ghost predicate Sound(s: Subscription) {
    && DistinctIds(s.nodes)
    && (forall id :: id in s.manual ==> id in Ids(s.nodes))
    && (if s.nodes == [] then s.selected == "" else s.selected in Ids(s.nodes))
  }

  lemma PickIsThere(nodes: seq<Node>, former: string)
    ensures nodes != [] ==> Pick(nodes, former) in Ids(nodes)
  {
    if nodes != [] {
      assert nodes[0].id in Ids(nodes);
    }
  }

  /** After a refresh there are exactly the fetched nodes and the imported ones, each once. */
  lemma RefreshKeepsImports(s: Subscription, fetched: seq<Node>)
    requires Sound(s)
    ensures
      var r := Refreshed(s, fetched);
      Sound(r) && Ids(r.nodes) == Ids(fetched) + set id | id in s.manual
  {
    var r, kept := Refreshed(s, fetched), NodesById(s.nodes, s.manual);
    FirstOfEachFacts(fetched + kept);
    IdsOfConcat(fetched, kept);
    NodesByIdFacts(s.nodes, s.manual);
    PickIsThere(r.nodes, s.selected);
  }

  /** The former selection stays selected if it is still there. */
  lemma {:induction false} RefreshKeepsSelection(s: Subscription, fetched: seq<Node>)
    requires s.selected != ""
    ensures
      var r := Refreshed(s, fetched);
      r.selected == s.selected <==> s.selected in Ids(r.nodes)
  {
    PickIsThere(Refreshed(s, fetched).nodes, s.selected);
  }

  lemma ImportIsSound(s: Subscription, n: Node)
    requires Sound(s)
    ensures
      var r := Imported(s, n);
      && Sound(r) && Ids(r.nodes) == Ids(s.nodes) + {n.id}
      && (forall id :: id in s.manual ==> id in r.manual) && n.id in r.manual
  {
    if n.id in Ids(s.nodes) {
      ReplaceKeepsIds(s.nodes, n);
    } else {
      IdsOfMore(s.nodes, n);
      assert s.nodes == [] ==> s.nodes + [n] == [n];
    }
  }

  lemma {:induction false} ImportsAreSound(s: Subscription, links: seq<Option<Node>>)
    requires Sound(s)
    ensures
      var r := ImportedAll(s, links);
      && Sound(r) && Ids(s.nodes) <= Ids(r.nodes)
      && (forall id :: id in s.manual ==> id in r.manual)
      && (forall k :: 0 <= k < |links| && links[k].Some? ==> links[k].value.id in r.manual)
    decreases |links|
  {
    if links != [] {
      var rest, last := links[..|links| - 1], links[|links| - 1];
      ImportsAreSound(s, rest);
      if last.Some? {
        ImportIsSound(ImportedAll(s, rest), last.value);
      }
      SplitLast(links);
    }
  }
}
