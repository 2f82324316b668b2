/**
 The catalog and the compiler together: for whatever is stored, the catalog has
 every entry under its own key, and the compiler accepts its tags.
 */
module CatalogAccepted {
  import opened Common
  import opened CatalogTags
  import opened RuntimeCatalog
  import RuntimeConfig
  import RC = RuntimeControl

  // ----- the shape of a catalog

  ghost predicate IsNodeTag(spell: Naming, tag: string, n: nat) {
    exists i: nat :: i < n && tag == spell(NodeName(i))
  }

  ghost predicate NodesShaped(spell: Naming, nodes: seq<RuntimeConfig.NodeTarget>) {
    forall i :: 0 <= i < |nodes| ==> nodes[i].tag == spell(NodeName(i)) && nodes[i].node.valid
  }

  ghost predicate TagsShaped(spell: Naming, tags: Tags, n: nat) {
    forall k :: k in tags ==> IsNodeTag(spell, tags[k], n)
  }

  ghost predicate PoolShaped(spell: Naming, p: RuntimeConfig.PoolTarget, i: nat, n: nat) {
    && p.tag == spell(PoolName(i)) && p.autoTag == spell(PoolAutoName(i))
    && |p.nodeTags| >= 2 && forall t :: t in p.nodeTags ==> IsNodeTag(spell, t, n)
  }

  ghost predicate PoolsShaped(spell: Naming, pools: seq<RuntimeConfig.PoolTarget>, n: nat) {
    forall i :: 0 <= i < |pools| ==> PoolShaped(spell, pools[i], i, n)
  }

  ghost predicate ChainShaped(spell: Naming, x: RuntimeConfig.ChainTarget, i: nat, n: nat) {
    && x.tag == spell(ChainName(i)) && IsNodeTag(spell, x.exitTag, n)
    && if |x.members| == 1 then x.members[0].tag == x.tag && x.options.None?
       else
         && |x.members| >= 2 && x.autoTag == spell(ChainAutoName(i)) && x.options.Some?
         && forall j :: 0 <= j < |x.members| ==> x.members[j].tag == spell(MemberName(i, j))
  }

  ghost predicate ChainsShaped(spell: Naming, chains: seq<RuntimeConfig.ChainTarget>, n: nat) {
    forall i :: 0 <= i < |chains| ==> ChainShaped(spell, chains[i], i, n)
  }

  /** The tags that the root selector of the compiled configuration offers. */
  ghost predicate Offered(c: Catalog, tag: string) {
    || tag == RuntimeConfig.DIRECT
    || (exists i :: 0 <= i < |c.nodes| && c.nodes[i].tag == tag)
    || (exists i :: 0 <= i < |c.pools| && c.pools[i].tag == tag)
    || (exists i :: 0 <= i < |c.chains| && c.chains[i].tag == tag)
  }

  ghost predicate TargetOk(c: Catalog, key: RC.Key, e: RC.Entry) {
    RC.CurrentKey(e.target) == key && e.target != RC.NoTarget && Offered(c, e.tag)
  }

  ghost predicate ListsShaped(spell: Naming, c: Catalog) {
    && NodesShaped(spell, c.nodes) && TagsShaped(spell, c.tags, |c.nodes|)
    && PoolsShaped(spell, c.pools, |c.nodes|) && ChainsShaped(spell, c.chains, |c.nodes|)
  }

  ghost predicate TargetsOk(c: Catalog) {
    forall k :: k in c.targets ==> TargetOk(c, k, c.targets[k])
  }

  ghost predicate Shaped(spell: Naming, c: Catalog) {
    ListsShaped(spell, c) && TargetsOk(c)
  }

  /** More nodes, pools or chains offer all that was offered. */
  lemma OfferedStays(c: Catalog, d: Catalog)
    requires c.nodes <= d.nodes && c.pools <= d.pools && c.chains <= d.chains
    ensures forall tag :: Offered(c, tag) ==> Offered(d, tag)
    ensures forall k :: k in c.targets && TargetOk(c, k, c.targets[k]) ==> TargetOk(d, k, c.targets[k])
  {
    forall tag | Offered(c, tag) ensures Offered(d, tag) {
      if i :| 0 <= i < |c.nodes| && c.nodes[i].tag == tag {
        assert d.nodes[i].tag == tag;
      } else if i :| 0 <= i < |c.pools| && c.pools[i].tag == tag {
        assert d.pools[i].tag == tag;
      } else if i :| 0 <= i < |c.chains| && c.chains[i].tag == tag {
        assert d.chains[i].tag == tag;
      }
    }
  }

  lemma NodeTagsStay(spell: Naming, n: nat, m: nat)
    requires n <= m
    ensures forall tag :: IsNodeTag(spell, tag, n) ==> IsNodeTag(spell, tag, m)
  {
  }

  lemma TargetsStayOk(c: Catalog, d: Catalog, key: RC.Key, e: RC.Entry)
    requires TargetsOk(c) && c.nodes <= d.nodes && c.pools <= d.pools && c.chains <= d.chains
    requires d.targets == c.targets[key := e] && TargetOk(d, key, e)
    ensures TargetsOk(d)
  {
    OfferedStays(c, d);
    forall k | k in d.targets ensures TargetOk(d, k, d.targets[k]) {
      if k != key {
        assert TargetOk(c, k, c.targets[k]);
      }
    }
  }

  /** The target of a tag that the catalog offers. */
  lemma OfferedTarget(c: Catalog, key: RC.Key, e: RC.Entry)
    requires RC.CurrentKey(e.target) == key && e.target != RC.NoTarget && Offered(c, e.tag)
    ensures TargetOk(c, key, e)
  {
  }

  lemma LastNodeIsOffered(c: Catalog)
    requires c.nodes != []
    ensures Offered(c, c.nodes[|c.nodes| - 1].tag)
  {
  }

  lemma LastPoolIsOffered(c: Catalog)
    requires c.pools != []
    ensures Offered(c, c.pools[|c.pools| - 1].tag)
  {
  }

  lemma LastChainIsOffered(c: Catalog)
    requires c.chains != []
    ensures Offered(c, c.chains[|c.chains| - 1].tag)
  {
  }

  lemma OneMoreNodeTag(spell: Naming, tags: Tags, n: nat, key: RC.Key)
    requires TagsShaped(spell, tags, n)
    ensures TagsShaped(spell, tags[key := spell(NodeName(n))], n + 1)
  {
    NodeTagsStay(spell, n, n + 1);
    assert IsNodeTag(spell, spell(NodeName(n)), n + 1);
  }

  lemma AddedNodeLists(spell: Naming, c: Catalog, d: Catalog, key: RC.Key)
    requires ListsShaped(spell, c) && c.pools == [] && c.chains == [] && d.pools == [] && d.chains == []
    requires |d.nodes| == |c.nodes| + 1 && c.nodes <= d.nodes
    requires d.nodes[|c.nodes|].node.valid && d.nodes[|c.nodes|].tag == spell(NodeName(|c.nodes|))
    requires d.tags == c.tags[key := spell(NodeName(|c.nodes|))]
    ensures ListsShaped(spell, d)
  {
    OneMoreNodeTag(spell, c.tags, |c.nodes|, key);
  }

  lemma AddedNodeIsShaped(spell: Naming, c: Catalog, node: RuntimeConfig.NodeTarget, key: RC.Key, e: RC.Entry)
    requires Shaped(spell, c) && c.pools == [] && c.chains == [] && node.node.valid
      && node.tag == spell(NodeName(|c.nodes|))
    requires RC.CurrentKey(e.target) == key && e.target != RC.NoTarget && e.tag == node.tag
    ensures Shaped(spell,
        c.(nodes := c.nodes + [node], tags := c.tags[key := node.tag], targets := c.targets[key := e]))
  {
    var d := c.(nodes := c.nodes + [node], tags := c.tags[key := node.tag], targets := c.targets[key := e]);
    AddedNodeLists(spell, c, d, key);
    AddedTarget(c, d, key, e);
  }

  /** The entry of what was added last. */
  lemma AddedTarget(c: Catalog, d: Catalog, key: RC.Key, e: RC.Entry)
    requires TargetsOk(c) && c.nodes <= d.nodes && c.pools <= d.pools && c.chains <= d.chains
    requires d.targets == c.targets[key := e] && RC.CurrentKey(e.target) == key && e.target != RC.NoTarget
    requires
      || (d.nodes != [] && e.tag == d.nodes[|d.nodes| - 1].tag)
      || (d.pools != [] && e.tag == d.pools[|d.pools| - 1].tag)
      || (d.chains != [] && e.tag == d.chains[|d.chains| - 1].tag)
    ensures TargetsOk(d)
  {
    if d.nodes != [] {
      LastNodeIsOffered(d);
    }
    if d.pools != [] {
      LastPoolIsOffered(d);
    }
    if d.chains != [] {
      LastChainIsOffered(d);
    }
    OfferedTarget(d, key, e);
    TargetsStayOk(c, d, key, e);
  }

  lemma NodeKeepsShape(spell: Naming, c: Catalog, s: NodeSource, selected: RC.Key)
    requires Shaped(spell, c) && c.pools == [] && c.chains == []
    ensures
      var r := WithNode(spell, c, s, selected);
      r.Ok? ==> Shaped(spell, r.value) && r.value.pools == [] && r.value.chains == []
  {
    if s.node.valid {
      var tag := spell(NodeName(|c.nodes|));
      AddedNodeIsShaped(spell, c, RuntimeConfig.NodeTarget(tag, s.node), RC.NodeKey(s.subscription, s.id),
                        RC.Entry(tag, s.signature, RC.Node(s.subscription, s.id)));
    }
  }

  lemma {:induction false} MemberTagsAreNodes(spell: Naming, tags: Tags, members: seq<(string, string)>, n: nat)
    requires TagsShaped(spell, tags, n)
    ensures forall t :: t in MemberTags(tags, members) ==> IsNodeTag(spell, t, n)
    decreases |members|
  {
    if members != [] {
      MemberTagsAreNodes(spell, tags, members[..|members| - 1], n);
    }
  }

  lemma AddedPoolLists(spell: Naming, c: Catalog, d: Catalog)
    requires ListsShaped(spell, c) && d.nodes == c.nodes && d.tags == c.tags && d.chains == c.chains
    requires |d.pools| == |c.pools| + 1 && c.pools <= d.pools
      && PoolShaped(spell, d.pools[|c.pools|], |c.pools|, |c.nodes|)
    ensures ListsShaped(spell, d)
  {
  }

  lemma AddedPoolIsShaped(spell: Naming, c: Catalog, p: RuntimeConfig.PoolTarget, key: RC.Key, e: RC.Entry)
    requires Shaped(spell, c) && PoolShaped(spell, p, |c.pools|, |c.nodes|)
    requires RC.CurrentKey(e.target) == key && e.target != RC.NoTarget && e.tag == p.tag
    ensures Shaped(spell, c.(pools := c.pools + [p], targets := c.targets[key := e]))
  {
    var d := c.(pools := c.pools + [p], targets := c.targets[key := e]);
    AddedPoolLists(spell, c, d);
    AddedTarget(c, d, key, e);
  }

  lemma PoolKeepsShape(spell: Naming, c: Catalog, p: PoolSource, selected: RC.Key)
    requires Shaped(spell, c)
    ensures WithPool(spell, c, p, selected).Ok? ==> Shaped(spell, WithPool(spell, c, p, selected).value)
  {
    var memberTags := MemberTags(c.tags, p.members);
    if p.usable && |memberTags| >= 2 {
      MemberTagsAreNodes(spell, c.tags, p.members, |c.nodes|);
      var tag := spell(PoolName(|c.pools|));
      AddedPoolIsShaped(spell, c, RuntimeConfig.PoolTarget(tag, spell(PoolAutoName(|c.pools|)), memberTags, p.options),
                        RC.PoolKey(p.id), RC.Entry(tag, p.signature, RC.Pool(p.id)));
    }
  }

  lemma {:induction false} ChainMemberAt(spell: Naming, k: nat, nodes: seq<RuntimeConfig.Node>, j: nat)
    requires j < |nodes|
    ensures ChainMembers(spell, k, nodes)[j] == ChainMember(spell, k, j, nodes[j])
    decreases |nodes|
  {
    if j < |nodes| - 1 {
      ChainMemberAt(spell, k, nodes[..|nodes| - 1], j);
    }
  }

  lemma NewChainIsShaped(spell: Naming, k: nat, exitTag: string, entry: EntrySource, n: nat)
    requires IsNodeTag(spell, exitTag, n) && (entry.PoolEntry? ==> |entry.nodes| >= 2)
    ensures ChainShaped(spell, NewChain(spell, k, exitTag, entry), k, n)
  {
    if entry.PoolEntry? {
      forall j | 0 <= j < |entry.nodes| ensures ChainMembers(spell, k, entry.nodes)[j].tag == spell(MemberName(k, j)) {
        ChainMemberAt(spell, k, entry.nodes, j);
      }
    }
  }

  lemma AddedChainLists(spell: Naming, c: Catalog, d: Catalog)
    requires ListsShaped(spell, c) && d.nodes == c.nodes && d.tags == c.tags && d.pools == c.pools
    requires |d.chains| == |c.chains| + 1 && c.chains <= d.chains
      && ChainShaped(spell, d.chains[|c.chains|], |c.chains|, |c.nodes|)
    ensures ListsShaped(spell, d)
  {
  }

  lemma AddedChainIsShaped(spell: Naming, c: Catalog, chain: RuntimeConfig.ChainTarget, key: RC.Key, e: RC.Entry)
    requires Shaped(spell, c) && ChainShaped(spell, chain, |c.chains|, |c.nodes|)
    requires RC.CurrentKey(e.target) == key && e.target != RC.NoTarget && e.tag == chain.tag
    ensures Shaped(spell, c.(chains := c.chains + [chain], targets := c.targets[key := e]))
  {
    var d := c.(chains := c.chains + [chain], targets := c.targets[key := e]);
    AddedChainLists(spell, c, d);
    AddedTarget(c, d, key, e);
  }

  lemma ChainKeepsShape(spell: Naming, c: Catalog, x: ChainSource, selected: RC.Key, haveUrls: bool)
    requires Shaped(spell, c) && Resolved(x)
    ensures WithChain(spell, c, x, selected, haveUrls).Ok? ==>
      Shaped(spell, WithChain(spell, c, x, selected, haveUrls).value)
  {
    var exitKey := RC.NodeKey(x.exitSubscription, x.exitNode);
    if exitKey in c.tags {
      NewChainIsShaped(spell, |c.chains|, c.tags[exitKey], x.entry, |c.nodes|);
      var chain := NewChain(spell, |c.chains|, c.tags[exitKey], x.entry);
      AddedChainIsShaped(spell, c, chain, RC.ChainKey(x.id), RC.Entry(chain.tag, x.signature, RC.Chain(x.id)));
    }
  }

  lemma {:induction false} NodesKeepShape(spell: Naming, c: Catalog, nodes: seq<NodeSource>, selected: RC.Key)
    requires Shaped(spell, c) && c.pools == [] && c.chains == []
    ensures
      var r := Fold(NodeAdder(spell, selected), c, nodes);
      r.Ok? ==> Shaped(spell, r.value) && r.value.pools == [] && r.value.chains == []
    decreases |nodes|
  {
    if nodes != [] {
      var rest := nodes[..|nodes| - 1];
      NodesKeepShape(spell, c, rest, selected);
      if Fold(NodeAdder(spell, selected), c, rest).Ok? {
        NodeKeepsShape(spell, Fold(NodeAdder(spell, selected), c, rest).value, nodes[|nodes| - 1], selected);
      }
    }
  }

  lemma {:induction false} PoolsKeepShape(spell: Naming, c: Catalog, pools: seq<PoolSource>, selected: RC.Key)
    requires Shaped(spell, c)
    ensures
      var r := Fold(PoolAdder(spell, selected), c, pools);
      r.Ok? ==> Shaped(spell, r.value)
    decreases |pools|
  {
    if pools != [] {
      var rest := pools[..|pools| - 1];
      PoolsKeepShape(spell, c, rest, selected);
      if Fold(PoolAdder(spell, selected), c, rest).Ok? {
        PoolKeepsShape(spell, Fold(PoolAdder(spell, selected), c, rest).value, pools[|pools| - 1], selected);
      }
    }
  }

  lemma {:induction false} ChainsKeepShape(spell: Naming, c: Catalog, chains: seq<ChainSource>, selected: RC.Key,
      haveUrls: bool)
    requires Shaped(spell, c) && forall x :: x in chains ==> Resolved(x)
    ensures
      var r := Fold(ChainAdder(spell, selected, haveUrls), c, chains);
      r.Ok? ==> Shaped(spell, r.value)
    decreases |chains|
  {
    if chains != [] {
      var rest := chains[..|chains| - 1];
      ChainsKeepShape(spell, c, rest, selected, haveUrls);
      if Fold(ChainAdder(spell, selected, haveUrls), c, rest).Ok? {
        ChainKeepsShape(spell, Fold(ChainAdder(spell, selected, haveUrls), c, rest).value, chains[|chains| - 1],
            selected, haveUrls);
      }
    }
  }

  lemma BuildIsShaped(spell: Naming, s: Sources, selected: RC.Key)
    requires forall x :: x in s.chains ==> Resolved(x)
    ensures BuildFrom(spell, s, selected).Ok? ==> Shaped(spell, BuildFrom(spell, s, selected).value)
  {
    NodesKeepShape(spell, EMPTY, s.nodes, selected);
    var withNodes := Fold(NodeAdder(spell, selected), EMPTY, s.nodes);
    if withNodes.Ok? {
      var pools := if s.haveUrls then s.pools else [];
      PoolsKeepShape(spell, withNodes.value, pools, selected);
      var withPools := Fold(PoolAdder(spell, selected), withNodes.value, pools);
      if withPools.Ok? {
        ChainsKeepShape(spell, withPools.value, s.chains, selected, s.haveUrls);
      }
    }
  }

  /**
   A catalog that was built is one that the hot switch can rely on: each entry under its own key, the
   selected one among them.
   */
  lemma BuiltCatalogIsValid(s: Sources, selected: RC.Key, signature: string)
    requires forall x :: x in s.chains ==> Resolved(x)
    ensures
      var r := Build(s, selected, signature);
      r.Ok? ==> RC.ValidBuild(RC.Build(r.value.targets, selected)) && r.value.targets[selected].signature == signature
  {
    BuildIsShaped(Spell, s, selected);
  }
}
