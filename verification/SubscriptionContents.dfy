/**
 Which nodes a subscription holds after a refresh or an import, in which order and with which
 content, and which subscription is active after a change of the list.
 */
module SubscriptionContents {
  import opened Common
  import opened Subscriptions

  // ----- lists of nodes

  ghost predicate FirstAt(nodes: seq<Node>, i: int, n: Node) {
    0 <= i < |nodes| && nodes[i] == n && forall k :: 0 <= k < i ==> nodes[k].id != n.id
  }

  /** The node is the first of its id. */
  ghost predicate IsFirst(nodes: seq<Node>, n: Node) {
    exists i :: FirstAt(nodes, i, n)
  }

  lemma FirstMore(nodes: seq<Node>, last: Node, n: Node)
    ensures IsFirst(nodes + [last], n) <==> IsFirst(nodes, n) || (n == last && n.id !in Ids(nodes))
  {
    var all := nodes + [last];
    if IsFirst(nodes, n) {
      var i :| FirstAt(nodes, i, n);
      assert FirstAt(all, i, n);
    }
    if n == last && n.id !in Ids(nodes) {
      assert FirstAt(all, |nodes|, n);
    }
    if IsFirst(all, n) {
      var i :| FirstAt(all, i, n);
      if i < |nodes| {
        forall k | 0 <= k < i ensures nodes[k].id != n.id {
          assert all[k] == nodes[k];
        }
        assert FirstAt(nodes, i, n);
      } else {
        forall k | 0 <= k < |nodes| ensures nodes[k].id != n.id {
          assert all[k] == nodes[k];
        }
      }
    }
  }

  /** The merged list holds the first node of each id, and a longer list only adds at the end. */
  lemma {:induction false} MergedExactly(nodes: seq<Node>, i: nat)
    requires i <= |nodes|
    ensures forall n :: n in FirstOfEach(nodes) <==> IsFirst(nodes, n)
    ensures FirstOfEach(nodes[..i]) <= FirstOfEach(nodes) && DistinctIds(FirstOfEach(nodes))
    decreases |nodes|
  {
    FirstOfEachFacts(nodes);
    if nodes != [] {
      var rest, last := nodes[..|nodes| - 1], nodes[|nodes| - 1];
      SplitLast(nodes);
      FirstOfEachFacts(rest);
      MergedExactly(rest, if i == |nodes| then |rest| else i);
      forall n ensures n in FirstOfEach(nodes) <==> IsFirst(nodes, n) {
        FirstMore(rest, last, n);
      }
      if i == |nodes| {
        TakeAll(nodes);
      } else {
        assert rest[..i] == nodes[..i];
      }
    }
  }

  lemma DistinctNodeAt(nodes: seq<Node>, n: Node)
    requires DistinctIds(nodes) && n in nodes
    ensures LastWith(nodes, n.id) == Some(n) && n.id in Ids(nodes)
  {
    var i :| 0 <= i < |nodes| && nodes[i] == n;
    LastWithFinds(nodes, n.id);
    assert nodes[i].id in Ids(nodes);
    var x := LastWith(nodes, n.id).value;
    var k :| 0 <= k < |nodes| && nodes[k] == x;
  }

  /** The imported nodes are the nodes of the imported ids, in the order of the ids. */
  lemma {:induction false} CollectedExactly(nodes: seq<Node>, ids: seq<string>)
    requires DistinctIds(nodes)
    ensures forall n :: n in NodesById(nodes, ids) <==> n in nodes && n.id in ids
    ensures (forall id :: id in ids ==> id in Ids(nodes)) ==>
      |NodesById(nodes, ids)| == |ids| && forall k :: 0 <= k < |ids| ==> NodesById(nodes, ids)[k].id == ids[k]
    decreases |ids|
  {
    if ids != [] {
      var rest, last := ids[..|ids| - 1], ids[|ids| - 1];
      SplitLast(ids);
      CollectedExactly(nodes, rest);
      LastWithFinds(nodes, last);
      forall n | n in nodes && n.id == last ensures LastWith(nodes, last) == Some(n) {
        DistinctNodeAt(nodes, n);
      }
    }
  }

  lemma IdOf(nodes: seq<Node>, n: Node)
    requires n in nodes
    ensures n.id in Ids(nodes)
  {
    var i :| 0 <= i < |nodes| && nodes[i] == n;
  }

  lemma HasNode(nodes: seq<Node>, id: string)
    requires id in Ids(nodes)
    ensures exists n :: n in nodes && n.id == id
  {
    var i :| 0 <= i < |nodes| && nodes[i].id == id;
    assert nodes[i] in nodes;
  }

  /** Nodes of one id are the same node. */
  ghost predicate OneEach(nodes: seq<Node>) {
    forall x, y :: x in nodes && y in nodes && x.id == y.id ==> x == y
  }

  lemma {:induction false} FirstOfParts(a: seq<Node>, b: seq<Node>, n: Node)
    requires OneEach(b)
    ensures IsFirst(a + b, n) <==> IsFirst(a, n) || (n in b && n.id !in Ids(a))
    decreases |b|
  {
    if b == [] {
      assert a + b == a;
    } else {
      var rest, last := b[..|b| - 1], b[|b| - 1];
      SplitLast(b);
      assert OneEach(rest);
      FirstOfParts(a, rest, n);
      FirstMore(a + rest, last, n);
      IdsOfConcat(a, rest);
      assert a + b == a + rest + [last];
      if n == last && n.id in Ids(rest) {
        HasNode(rest, n.id);
      }
    }
  }

  lemma {:induction false} CollectedIdsAreDistinct(nodes: seq<Node>, ids: seq<string>)
    requires Distinct(ids)
    ensures DistinctIds(NodesById(nodes, ids))
    decreases |ids|
  {
    if ids != [] {
      var rest, last := ids[..|ids| - 1], ids[|ids| - 1];
      SplitLast(ids);
      CollectedIdsAreDistinct(nodes, rest);
      NodesByIdFacts(nodes, rest);
      LastWithFinds(nodes, last);
      var before := NodesById(nodes, rest);
      forall i | 0 <= i < |before| ensures before[i].id != last {
        assert before[i].id in Ids(before);
      }
    }
  }

  lemma StoredOnce(nodes: seq<Node>, some: seq<Node>)
    requires DistinctIds(nodes) && forall n :: n in some ==> n in nodes
    ensures OneEach(some)
  {
    forall x, y | x in some && y in some && x.id == y.id ensures x == y {
      DistinctNodeAt(nodes, x);
      DistinctNodeAt(nodes, y);
    }
  }

  // ----- a refresh

  /**
   A refreshed subscription holds the first fetched node of each id as it was fetched, then its imported
   nodes that were not fetched, as they were stored; the fetched ones keep their order and come first.
   The selection stays if it can, and is the first node otherwise.
   */
  lemma RefreshedExactly(s: Subscription, fetched: seq<Node>, n: Node)
    requires Sound(s)
    ensures
      var r := Refreshed(s, fetched);
      && (n in r.nodes <==> IsFirst(fetched, n) || (n.id !in Ids(fetched) && n in s.nodes && n.id in s.manual))
      && FirstOfEach(fetched) <= r.nodes
      && r.id == s.id && r.active == s.active && r.manual == s.manual
      && r.selected ==
        if s.selected in Ids(r.nodes) && s.selected != "" then s.selected
        else if r.nodes == [] then "" else r.nodes[0].id
  {
    var kept := NodesById(s.nodes, s.manual);
    MergedExactly(fetched + kept, |fetched|);
    assert (fetched + kept)[..|fetched|] == fetched;
    CollectedExactly(s.nodes, s.manual);
    StoredOnce(s.nodes, kept);
    FirstOfParts(fetched, kept, n);
  }

  lemma {:induction false} MergeOfDistinct(a: seq<Node>, b: seq<Node>)
    requires DistinctIds(b)
    ensures FirstOfEach(a + b) == FirstOfEach(a) + Missing(a, b)
    decreases |b|
  {
    if b == [] {
      assert a + b == a;
    } else {
      var rest, last := b[..|b| - 1], b[|b| - 1];
      SplitLast(b);
      NotAgain(b);
      MergeOfDistinct(a, rest);
      MergeOneMore(a, rest, last);
      MissingMore(a, rest, last);
      assert a + b == a + rest + [last];
    }
  }

  lemma MissingMore(a: seq<Node>, rest: seq<Node>, last: Node)
    ensures Missing(a, rest + [last]) == Missing(a, rest) + if last.id in Ids(a) then [] else [last]
  {
    DropLast(rest, last);
  }

  lemma NotAgain(nodes: seq<Node>)
    requires nodes != [] && DistinctIds(nodes)
    ensures DistinctIds(nodes[..|nodes| - 1]) && nodes[|nodes| - 1].id !in Ids(nodes[..|nodes| - 1])
  {
    var rest := nodes[..|nodes| - 1];
    forall i, j | 0 <= i < j < |rest| ensures rest[i].id != rest[j].id {
      assert nodes[i].id != nodes[j].id;
    }
    forall k | 0 <= k < |rest| ensures rest[k].id != nodes[|nodes| - 1].id {
      assert nodes[k].id != nodes[|nodes| - 1].id;
    }
  }

  lemma MergeOneMore(a: seq<Node>, rest: seq<Node>, last: Node)
    requires last.id !in Ids(rest)
    ensures FirstOfEach(a + rest + [last]) == FirstOfEach(a + rest) + if last.id in Ids(a) then [] else [last]
  {
    FirstOfEachFacts(a + rest);
    IdsOfConcat(a, rest);
    DropLast(a + rest, last);
  }

  /** The nodes of `b` whose ids `a` does not have, in order. */
  ghost function Missing(a: seq<Node>, b: seq<Node>): seq<Node>
    decreases |b|
  {
    if b == [] then []
    else
      var before, last := Missing(a, b[..|b| - 1]), b[|b| - 1];
      if last.id in Ids(a) then before else before + [last]
  }

  /** Behind the fetched nodes stand the imported ones that were not fetched, in the order of the imports. */
  lemma ImportsFollow(s: Subscription, fetched: seq<Node>)
    requires Sound(s) && Distinct(s.manual)
    ensures Refreshed(s, fetched).nodes == FirstOfEach(fetched) + Missing(fetched, NodesById(s.nodes, s.manual))
    ensures
      var stored := NodesById(s.nodes, s.manual);
      |stored| == |s.manual| && forall k :: 0 <= k < |stored| ==> stored[k].id == s.manual[k] && stored[k] in s.nodes
  {
    var stored := NodesById(s.nodes, s.manual);
    CollectedExactly(s.nodes, s.manual);
    CollectedIdsAreDistinct(s.nodes, s.manual);
    MergeOfDistinct(fetched, stored);
    forall k | 0 <= k < |stored| ensures stored[k] in s.nodes {
      assert stored[k] in stored;
    }
  }

  // ----- an import

  ghost predicate LastAt(links: seq<Option<Node>>, i: int, n: Node) {
    && 0 <= i < |links| && links[i] == Some(n)
    && forall k :: i < k < |links| && links[k].Some? ==> links[k].value.id != n.id
  }

  /** The node is the last link of its id. */
  ghost predicate IsLast(links: seq<Option<Node>>, n: Node) {
    exists i :: LastAt(links, i, n)
  }

  ghost predicate HasLink(links: seq<Option<Node>>, id: string) {
    exists i :: 0 <= i < |links| && links[i].Some? && links[i].value.id == id
  }

  lemma HasLinkMore(links: seq<Option<Node>>, last: Option<Node>, id: string)
    ensures HasLink(links + [last], id) <==> HasLink(links, id) || (last.Some? && last.value.id == id)
  {
    var all := links + [last];
    if HasLink(links, id) {
      var i :| 0 <= i < |links| && links[i].Some? && links[i].value.id == id;
      assert all[i] == links[i];
    }
    assert all[|links|] == last;
  }

  lemma LastMore(links: seq<Option<Node>>, last: Option<Node>, n: Node)
    ensures IsLast(links + [last], n) <==>
        last == Some(n) || (IsLast(links, n) && (last.Some? ==> last.value.id != n.id))
  {
    var all := links + [last];
    if last == Some(n) {
      assert LastAt(all, |links|, n);
    }
    if IsLast(links, n) && (last.Some? ==> last.value.id != n.id) {
      var i :| LastAt(links, i, n);
      assert LastAt(all, i, n);
    }
    if IsLast(all, n) {
      var i :| LastAt(all, i, n);
      assert all[|links|] == last;
      if i < |links| {
        forall k | i < k < |links| && links[k].Some? ensures links[k].value.id != n.id {
          assert all[k] == links[k];
        }
        assert LastAt(links, i, n);
      }
    }
  }

  /** The node stands where the one with its id stood, or at the end. */
  ghost predicate PutIn(nodes: seq<Node>, r: seq<Node>, n: Node) {
    && (forall x :: x in r <==> x == n || (x in nodes && x.id != n.id))
    && |r| == |nodes| + (if n.id in Ids(nodes) then 0 else 1)
    && forall k :: 0 <= k < |nodes| ==> r[k] == if nodes[k].id == n.id then n else nodes[k]
  }

  lemma ReplacePutsIn(nodes: seq<Node>, n: Node)
    requires DistinctIds(nodes) && n.id in Ids(nodes)
    ensures PutIn(nodes, ReplaceFirst(nodes, n), n)
  {
    var i :| 0 <= i < |nodes| && nodes[i].id == n.id;
    ReplacesAt(nodes, n, i);
    forall x ensures x in nodes[i := n] <==> x == n || (x in nodes && x.id != n.id) {
      ReplacedNode(nodes, i, n, x);
    }
  }

  lemma AppendPutsIn(nodes: seq<Node>, n: Node)
    requires n.id !in Ids(nodes)
    ensures PutIn(nodes, nodes + [n], n)
  {
    forall x | x in nodes ensures x.id != n.id {
      IdOf(nodes, x);
    }
    forall k | 0 <= k < |nodes| ensures nodes[k].id != n.id {
      IdOf(nodes, nodes[k]);
    }
  }

  /** Importing a node puts it in, and selects it where there was none. */
  lemma ImportedExactly(s: Subscription, n: Node)
    requires Sound(s)
    ensures
      var r := Imported(s, n);
      && PutIn(s.nodes, r.nodes, n) && r.id == s.id && r.active == s.active
      && (s.nodes == [] ==> r.selected == n.id) && (s.selected != "" ==> r.selected == s.selected)
  {
    if n.id in Ids(s.nodes) {
      ReplacePutsIn(s.nodes, n);
    } else {
      AppendPutsIn(s.nodes, n);
    }
  }

  lemma ReplacedNode(nodes: seq<Node>, i: nat, n: Node, x: Node)
    requires DistinctIds(nodes) && i < |nodes| && nodes[i].id == n.id
    ensures x in nodes[i := n] <==> x == n || (x in nodes && x.id != n.id)
  {
    var r := nodes[i := n];
    if x in r {
      var k :| 0 <= k < |r| && r[k] == x;
      if k != i {
        assert nodes[k] == x && nodes[k].id != nodes[i].id;
      }
    }
    if x == n {
      assert r[i] == x;
    }
    if x in nodes && x.id != n.id {
      var k :| 0 <= k < |nodes| && nodes[k] == x;
      assert r[k] == x;
    }
  }

  ghost function NodeIds(nodes: seq<Node>): seq<string> {
    seq(|nodes|, i requires 0 <= i < |nodes| => nodes[i].id)
  }

  lemma ImportKeepsOrder(s: Subscription, n: Node)
    requires Sound(s)
    ensures
      var r := Imported(s, n);
      && NodeIds(r.nodes) == NodeIds(s.nodes) + (if n.id in Ids(s.nodes) then [] else [n.id])
      && r.manual == s.manual + (if n.id in s.manual then [] else [n.id])
      && (Distinct(s.manual) ==> Distinct(r.manual))
  {
    ImportedExactly(s, n);
    DistinctMore(s.manual, n.id);
  }

  /**
   After an import a node stands as the last link of its id brought it, or as it was if no link has its id.
   Known nodes keep their places, and new ones follow as their links do.
   */
  lemma {:induction false} ImportsExactly(s: Subscription, links: seq<Option<Node>>, n: Node)
    requires Sound(s)
    ensures
      var r := ImportedAll(s, links);
      && Sound(r) && (n in r.nodes <==> IsLast(links, n) || (n in s.nodes && !HasLink(links, n.id)))
      && r.id == s.id && r.active == s.active && (s.selected != "" ==> r.selected == s.selected)
    decreases |links|
  {
    if links != [] {
      var rest, last := links[..|links| - 1], links[|links| - 1];
      SplitLast(links);
      ImportsExactly(s, rest, n);
      LastMore(rest, last, n);
      HasLinkMore(rest, last, n.id);
      if last.Some? {
        ImportedExactly(ImportedAll(s, rest), last.value);
        ImportIsSound(ImportedAll(s, rest), last.value);
      }
    }
  }

  /** Each further link only adds at the end of the nodes and of the imported ids, and adds its id once. */
  lemma {:induction false} ImportsAppend(s: Subscription, links: seq<Option<Node>>, i: nat)
    requires Sound(s) && Distinct(s.manual) && i <= |links|
    ensures
      var r, before := ImportedAll(s, links), ImportedAll(s, links[..i]);
      && NodeIds(before.nodes) <= NodeIds(r.nodes) && before.manual <= r.manual && Distinct(r.manual)
      && forall id :: id in r.manual <==> id in s.manual || HasLink(links, id)
    decreases |links|
  {
    if links == [] {
      assert links[..i] == [];
    } else {
      var rest, last := links[..|links| - 1], links[|links| - 1];
      SplitLast(links);
      ImportsAppend(s, rest, if i == |links| then |rest| else i);
      ImportsAreSound(s, rest);
      forall id ensures HasLink(links, id) <==> HasLink(rest, id) || (last.Some? && last.value.id == id) {
        HasLinkMore(rest, last, id);
      }
      if last.Some? {
        ImportKeepsOrder(ImportedAll(s, rest), last.value);
      }
      if i == |links| {
        TakeAll(links);
      } else {
        assert rest[..i] == links[..i];
      }
    }
  }

  lemma {:induction false} FirstImportIsSelected(s: Subscription, links: seq<Option<Node>>, i: nat)
    requires Sound(s) && s.nodes == [] && i < |links| && links[i].Some? && links[i].value.id != ""
    requires forall k :: 0 <= k < i ==> links[k].None?
    ensures ImportedAll(s, links).selected == links[i].value.id
    decreases |links|
  {
    var rest, last := links[..|links| - 1], links[|links| - 1];
    ImportsAreSound(s, rest);
    if i == |rest| {
      NothingImported(s, rest);
    } else {
      FirstImportIsSelected(s, rest, i);
      if last.Some? {
        ImportedExactly(ImportedAll(s, rest), last.value);
      }
    }
  }

  lemma {:induction false} NothingImported(s: Subscription, links: seq<Option<Node>>)
    requires forall k :: 0 <= k < |links| ==> links[k].None?
    ensures ImportedAll(s, links) == s
    decreases |links|
  {
    if links != [] {
      NothingImported(s, links[..|links| - 1]);
    }
  }

  // ----- the active subscription

  /** Deleting takes out the one subscription; the first of the rest becomes active exactly if it was the active one. */
  lemma DeletedExactly(items: seq<Subscription>, index: nat, k: nat)
    requires index < |items| && k < |items| - 1
    ensures
      var v, was := DeletedAt(items, index), items[if k < index then k else k + 1];
      && |v| == |items| - 1 && v[k].(active := was.active) == was
      && v[k].active == (was.active || (k == 0 && items[index].active))
  {
  }

  /** Activating makes exactly the chosen one active and changes nothing else. */
  lemma ActivatedExactly(items: seq<Subscription>, index: nat, k: nat)
    requires index < |items| && k < |items|
    ensures
      var v := ActivatedAt(items, index);
      |v| == |items| && v[k].(active := items[k].active) == items[k] && (v[k].active <==> k == index)
  {
  }
}
