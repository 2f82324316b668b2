/**
 What exactly a catalog holds: which stored nodes, pools and chains are in it, under
 which tags, and that the compiled configuration starts at the one asked for.
 */
module CatalogContents {
  import opened Common
  import opened CatalogTags
  import opened RuntimeCatalog
  import CatalogCompiles
  import CatalogStarts
  import Config = RuntimeConfig
  import OutboundGraph
  import RC = RuntimeControl

  // ----- the sources that are used

  function KeyOfNode(s: NodeSource): RC.Key {
    RC.NodeKey(s.subscription, s.id)
  }

  function UsedNodes(nodes: seq<NodeSource>): seq<NodeSource>
    decreases |nodes|
  {
    if nodes == [] then []
    else
      var before, last := UsedNodes(nodes[..|nodes| - 1]), nodes[|nodes| - 1];
      if last.node.valid then before + [last] else before
  }

  /** The last of these sources that has this key. */
  ghost predicate LastNode(used: seq<NodeSource>, k: RC.Key, j: int) {
    0 <= j < |used| && KeyOfNode(used[j]) == k && forall i :: j < i < |used| ==> KeyOfNode(used[i]) != k
  }

  /** Under this key stands node `j`, the last of the used ones that has it. */
  ghost predicate NodeEntry(c: Catalog, used: seq<NodeSource>, k: RC.Key, j: int) {
    && LastNode(used, k, j) && j < |c.nodes|
    && k in c.tags && c.tags[k] == c.nodes[j].tag
    && k in c.targets
    && c.targets[k] == RC.Entry(c.nodes[j].tag, used[j].signature, RC.Node(used[j].subscription, used[j].id))
  }

  /** Every used node is compiled under its own tag. */
  ghost predicate NodesHeld(spell: Naming, c: Catalog, used: seq<NodeSource>) {
    && |c.nodes| == |used|
    && forall i :: 0 <= i < |used| ==> c.nodes[i] == Config.NodeTarget(spell(NodeName(i)), used[i].node)
  }

  ghost predicate EachNodeEntry(c: Catalog, used: seq<NodeSource>) {
    forall k :: k in c.tags ==> exists j :: NodeEntry(c, used, k, j)
  }

  ghost predicate NodeKeys(c: Catalog, used: seq<NodeSource>) {
    && (forall i :: 0 <= i < |used| ==> KeyOfNode(used[i]) in c.tags)
    && c.targets.Keys == c.tags.Keys + {RC.DirectKey}
    && c.targets[RC.DirectKey] == RC.Entry("direct", "direct", RC.Direct)
  }

  ghost predicate NodeEntries(c: Catalog, used: seq<NodeSource>) {
    EachNodeEntry(c, used) && NodeKeys(c, used)
  }

  lemma NodeEntryStays(c: Catalog, d: Catalog, used: seq<NodeSource>, s: NodeSource, k: RC.Key, j: int)
    requires NodeEntry(c, used, k, j) && k != KeyOfNode(s) && c.nodes <= d.nodes
    requires k in d.tags && d.tags[k] == c.tags[k] && k in d.targets && d.targets[k] == c.targets[k]
    ensures NodeEntry(d, used + [s], k, j)
  {
  }

  lemma NewNodeEntry(spell: Naming, c: Catalog, used: seq<NodeSource>, s: NodeSource, selected: RC.Key)
    requires |c.nodes| == |used| && s.node.valid
    ensures NodeEntry(WithNode(spell, c, s, selected).value, used + [s], KeyOfNode(s), |used|)
  {
  }

  lemma EachNodeEntryMore(spell: Naming, c: Catalog, used: seq<NodeSource>, s: NodeSource, selected: RC.Key)
    requires |c.nodes| == |used| && EachNodeEntry(c, used) && c.tags.Keys <= c.targets.Keys && s.node.valid
    ensures EachNodeEntry(WithNode(spell, c, s, selected).value, used + [s])
  {
    var d, all := WithNode(spell, c, s, selected).value, used + [s];
    NewNodeEntry(spell, c, used, s, selected);
    forall k | k in d.tags ensures exists j :: NodeEntry(d, all, k, j) {
      if k != KeyOfNode(s) {
        var j :| NodeEntry(c, used, k, j);
        NodeEntryStays(c, d, used, s, k, j);
      }
    }
  }

  lemma NodeKeysMore(spell: Naming, c: Catalog, used: seq<NodeSource>, s: NodeSource, selected: RC.Key)
    requires NodeKeys(c, used) && s.node.valid
    ensures NodeKeys(WithNode(spell, c, s, selected).value, used + [s])
  {
    var all := used + [s];
    forall i | 0 <= i < |all| ensures KeyOfNode(all[i]) in WithNode(spell, c, s, selected).value.tags {
      assert i < |used| ==> KeyOfNode(used[i]) in c.tags;
    }
  }

  lemma NodesHeldMore(spell: Naming, c: Catalog, used: seq<NodeSource>, s: NodeSource, selected: RC.Key)
    requires NodesHeld(spell, c, used) && s.node.valid
    ensures NodesHeld(spell, WithNode(spell, c, s, selected).value, used + [s])
  {
  }

  lemma OneMoreNode(spell: Naming, c: Catalog, used: seq<NodeSource>, s: NodeSource, selected: RC.Key)
    requires NodesHeld(spell, c, used) && NodeEntries(c, used) && s.node.valid
    ensures NodesHeld(spell, WithNode(spell, c, s, selected).value, used + [s])
    ensures NodeEntries(WithNode(spell, c, s, selected).value, used + [s])
  {
    NodesHeldMore(spell, c, used, s, selected);
    EachNodeEntryMore(spell, c, used, s, selected);
    NodeKeysMore(spell, c, used, s, selected);
  }

  ghost predicate NoneAskedFor(nodes: seq<NodeSource>, selected: RC.Key) {
    forall s :: s in nodes && !s.node.valid ==> KeyOfNode(s) != selected
  }

  lemma NoneAskedForMore(rest: seq<NodeSource>, last: NodeSource, selected: RC.Key)
    ensures
      NoneAskedFor(rest + [last], selected) <==>
        NoneAskedFor(rest, selected) && (last.node.valid || KeyOfNode(last) != selected)
  {
    assert last in rest + [last];
    assert forall s :: s in rest ==> s in rest + [last];
  }

  ghost predicate NodesDone(spell: Naming, nodes: seq<NodeSource>, selected: RC.Key, r: Result<Catalog, Error>) {
    && (r.Ok? <==> NoneAskedFor(nodes, selected))
    && (r.Ok? ==>
          && NodesHeld(spell, r.value, UsedNodes(nodes)) && NodeEntries(r.value, UsedNodes(nodes))
          && r.value.pools == [] && r.value.chains == [])
  }

  lemma OneNodeDone(spell: Naming, rest: seq<NodeSource>, last: NodeSource, selected: RC.Key, before: Catalog)
    requires NodesDone(spell, rest, selected, Ok(before))
    ensures NodesDone(spell, rest + [last], selected, WithNode(spell, before, last, selected))
  {
    DropLast(rest, last);
    NoneAskedForMore(rest, last, selected);
    if last.node.valid {
      OneMoreNode(spell, before, UsedNodes(rest), last, selected);
    }
  }

  /** The loop over the nodes uses exactly the valid ones, and fails exactly if an invalid one was asked for. */
  lemma {:induction false} NodesExactly(spell: Naming, nodes: seq<NodeSource>, selected: RC.Key)
    ensures NodesDone(spell, nodes, selected, Fold(NodeAdder(spell, selected), EMPTY, nodes))
    decreases |nodes|
  {
    if nodes != [] {
      var rest, last := nodes[..|nodes| - 1], nodes[|nodes| - 1];
      NodesExactly(spell, rest, selected);
      SplitLast(nodes);
      NoneAskedForMore(rest, last, selected);
      var before := Fold(NodeAdder(spell, selected), EMPTY, rest);
      if before.Ok? {
        OneNodeDone(spell, rest, last, selected, before.value);
      }
    }
  }

  // ----- pools

  function KnownMembers(tags: Tags, members: seq<(string, string)>): seq<(string, string)>
    decreases |members|
  {
    if members == [] then []
    else
      var before, last := KnownMembers(tags, members[..|members| - 1]), members[|members| - 1];
      if RC.NodeKey(last.0, last.1) in tags then before + [last] else before
  }

  /** The tags of those stored members whose node is in the catalog, in their order. */
  ghost predicate AreTagsOf(tags: Tags, members: seq<(string, string)>, memberTags: seq<string>) {
    var known := KnownMembers(tags, members);
    && |memberTags| == |known|
    && forall i :: 0 <= i < |known| ==>
         RC.NodeKey(known[i].0, known[i].1) in tags && memberTags[i] == tags[RC.NodeKey(known[i].0, known[i].1)]
  }

  lemma {:induction false} MemberTagsExactly(tags: Tags, members: seq<(string, string)>)
    ensures AreTagsOf(tags, members, MemberTags(tags, members))
    decreases |members|
  {
    if members != [] {
      MemberTagsExactly(tags, members[..|members| - 1]);
    }
  }

  predicate PoolUsable(tags: Tags, p: PoolSource) {
    p.usable && |KnownMembers(tags, p.members)| >= 2
  }

  function UsedPools(tags: Tags, pools: seq<PoolSource>): seq<PoolSource>
    decreases |pools|
  {
    if pools == [] then []
    else
      var before, last := UsedPools(tags, pools[..|pools| - 1]), pools[|pools| - 1];
      if PoolUsable(tags, last) then before + [last] else before
  }

  ghost predicate LastPool(used: seq<PoolSource>, id: string, j: int) {
    0 <= j < |used| && used[j].id == id && forall i :: j < i < |used| ==> used[i].id != id
  }

  ghost predicate PoolEntry(c: Catalog, used: seq<PoolSource>, id: string, j: int) {
    && LastPool(used, id, j) && j < |c.pools|
    && RC.PoolKey(id) in c.targets
    && c.targets[RC.PoolKey(id)] == RC.Entry(c.pools[j].tag, used[j].signature, RC.Pool(id))
  }

  ghost predicate PoolHeld(spell: Naming, tags: Tags, t: Config.PoolTarget, i: nat, p: PoolSource) {
    && t.tag == spell(PoolName(i)) && t.autoTag == spell(PoolAutoName(i))
    && t.options == p.options && AreTagsOf(tags, p.members, t.nodeTags)
  }

  ghost predicate PoolsHeld(spell: Naming, c: Catalog, used: seq<PoolSource>) {
    && |c.pools| == |used|
    && forall i :: 0 <= i < |used| ==> PoolHeld(spell, c.tags, c.pools[i], i, used[i])
  }

  ghost predicate EachPoolEntry(c: Catalog, used: seq<PoolSource>) {
    forall k :: k in c.targets && k.PoolKey? ==> exists j :: PoolEntry(c, used, k.pool, j)
  }

  ghost predicate PoolKeys(start: Catalog, c: Catalog, used: seq<PoolSource>) {
    && (forall k :: k in start.targets && !k.PoolKey? ==> k in c.targets && c.targets[k] == start.targets[k])
    && (forall k :: k in c.targets && !k.PoolKey? ==> k in start.targets)
    && (forall i :: 0 <= i < |used| ==> RC.PoolKey(used[i].id) in c.targets)
  }

  /** Besides the entries that there were, exactly those of the used pools. */
  ghost predicate PoolEntries(start: Catalog, c: Catalog, used: seq<PoolSource>) {
    PoolKeys(start, c, used) && EachPoolEntry(c, used)
  }

  lemma PoolEntryStays(c: Catalog, d: Catalog, used: seq<PoolSource>, p: PoolSource, id: string, j: int)
    requires PoolEntry(c, used, id, j) && id != p.id && c.pools <= d.pools
    requires RC.PoolKey(id) in d.targets && d.targets[RC.PoolKey(id)] == c.targets[RC.PoolKey(id)]
    ensures PoolEntry(d, used + [p], id, j)
  {
  }

  /** The catalog with one more usable pool. */
  ghost predicate AddsPool(spell: Naming, c: Catalog, p: PoolSource, d: Catalog) {
    && d.pools == c.pools + [Config.PoolTarget(
         spell(PoolName(|c.pools|)), spell(PoolAutoName(|c.pools|)), MemberTags(c.tags, p.members), p.options)]
    && d.targets == c.targets[RC.PoolKey(p.id) := RC.Entry(spell(PoolName(|c.pools|)), p.signature, RC.Pool(p.id))]
    && d.nodes == c.nodes && d.tags == c.tags && d.chains == c.chains
  }

  lemma UsableIsAdded(spell: Naming, c: Catalog, p: PoolSource, selected: RC.Key)
    requires PoolUsable(c.tags, p)
    ensures WithPool(spell, c, p, selected).Ok? && AddsPool(spell, c, p, WithPool(spell, c, p, selected).value)
  {
    MemberTagsExactly(c.tags, p.members);
  }

  lemma EachPoolEntryMore(spell: Naming, c: Catalog, used: seq<PoolSource>, p: PoolSource, d: Catalog)
    requires |c.pools| == |used| && EachPoolEntry(c, used) && AddsPool(spell, c, p, d)
    ensures EachPoolEntry(d, used + [p])
  {
    assert PoolEntry(d, used + [p], p.id, |used|);
    forall k | k in d.targets && k.PoolKey? ensures exists j :: PoolEntry(d, used + [p], k.pool, j) {
      if k.pool != p.id {
        var j :| PoolEntry(c, used, k.pool, j);
        PoolEntryStays(c, d, used, p, k.pool, j);
      }
    }
  }

  lemma PoolKeysMore(spell: Naming, start: Catalog, c: Catalog, used: seq<PoolSource>, p: PoolSource, d: Catalog)
    requires PoolKeys(start, c, used) && AddsPool(spell, c, p, d)
    ensures PoolKeys(start, d, used + [p])
  {
    forall i | 0 <= i < |used + [p]| ensures RC.PoolKey((used + [p])[i].id) in d.targets {
      assert i < |used| ==> RC.PoolKey(used[i].id) in c.targets;
    }
  }

  lemma PoolsHeldMore(spell: Naming, c: Catalog, used: seq<PoolSource>, p: PoolSource, d: Catalog)
    requires PoolsHeld(spell, c, used) && AddsPool(spell, c, p, d)
    ensures PoolsHeld(spell, d, used + [p])
  {
    MemberTagsExactly(c.tags, p.members);
    forall i | 0 <= i < |used| ensures PoolHeld(spell, d.tags, d.pools[i], i, (used + [p])[i]) {
      assert PoolHeld(spell, c.tags, c.pools[i], i, used[i]);
    }
  }

  lemma OneMorePool(spell: Naming, start: Catalog, c: Catalog, used: seq<PoolSource>, p: PoolSource, selected: RC.Key)
    requires PoolsHeld(spell, c, used) && PoolEntries(start, c, used) && PoolUsable(c.tags, p)
    ensures
      var r := WithPool(spell, c, p, selected);
      r.Ok? && PoolsHeld(spell, r.value, used + [p]) && PoolEntries(start, r.value, used + [p])
  {
    UsableIsAdded(spell, c, p, selected);
    var d := WithPool(spell, c, p, selected).value;
    PoolsHeldMore(spell, c, used, p, d);
    EachPoolEntryMore(spell, c, used, p, d);
    PoolKeysMore(spell, start, c, used, p, d);
  }

  ghost predicate NoPoolAskedFor(tags: Tags, pools: seq<PoolSource>, selected: RC.Key) {
    forall p :: p in pools && !PoolUsable(tags, p) ==> RC.PoolKey(p.id) != selected
  }

  lemma NoPoolAskedForMore(tags: Tags, rest: seq<PoolSource>, last: PoolSource, selected: RC.Key)
    ensures
      NoPoolAskedFor(tags, rest + [last], selected) <==>
        NoPoolAskedFor(tags, rest, selected) && (PoolUsable(tags, last) || RC.PoolKey(last.id) != selected)
  {
    assert last in rest + [last];
    assert forall p :: p in rest ==> p in rest + [last];
  }

  ghost predicate PoolsDone(
    spell: Naming, start: Catalog, pools: seq<PoolSource>, selected: RC.Key, r: Result<Catalog, Error>)
  {
    && (r.Ok? <==> NoPoolAskedFor(start.tags, pools, selected))
    && (r.Ok? ==>
          && r.value.nodes == start.nodes && r.value.tags == start.tags && r.value.chains == start.chains
          && PoolsHeld(spell, r.value, UsedPools(start.tags, pools))
          && PoolEntries(start, r.value, UsedPools(start.tags, pools)))
  }

  lemma OnePoolDone(
    spell: Naming, start: Catalog, rest: seq<PoolSource>, last: PoolSource, selected: RC.Key, before: Catalog)
    requires PoolsDone(spell, start, rest, selected, Ok(before))
    ensures PoolsDone(spell, start, rest + [last], selected, WithPool(spell, before, last, selected))
  {
    DropLast(rest, last);
    NoPoolAskedForMore(start.tags, rest, last, selected);
    MemberTagsExactly(start.tags, last.members);
    if PoolUsable(start.tags, last) {
      OneMorePool(spell, start, before, UsedPools(start.tags, rest), last, selected);
    }
  }

  /** The loop over the pools uses exactly those with two known members, and fails exactly if another was asked for. */
  lemma {:induction false} PoolsExactly(spell: Naming, start: Catalog, pools: seq<PoolSource>, selected: RC.Key)
    requires start.pools == [] && forall k :: k in start.targets ==> !k.PoolKey?
    ensures PoolsDone(spell, start, pools, selected, Fold(PoolAdder(spell, selected), start, pools))
    decreases |pools|
  {
    if pools != [] {
      var rest, last := pools[..|pools| - 1], pools[|pools| - 1];
      PoolsExactly(spell, start, rest, selected);
      SplitLast(pools);
      NoPoolAskedForMore(start.tags, rest, last, selected);
      var before := Fold(PoolAdder(spell, selected), start, rest);
      if before.Ok? {
        OnePoolDone(spell, start, rest, last, selected, before.value);
      }
    }
  }

  // ----- chains

  predicate ChainUsable(tags: Tags, x: ChainSource, haveUrls: bool) {
    && x.resolved && RC.NodeKey(x.exitSubscription, x.exitNode) in tags
    && (x.entry.PoolEntry? ==> haveUrls && x.entry.probesOk)
  }

  function UsedChains(tags: Tags, chains: seq<ChainSource>, haveUrls: bool): seq<ChainSource>
    decreases |chains|
  {
    if chains == [] then []
    else
      var before, last := UsedChains(tags, chains[..|chains| - 1], haveUrls), chains[|chains| - 1];
      if ChainUsable(tags, last, haveUrls) then before + [last] else before
  }

  /** The chain leaves at its exit node, and enters at its one node or at the nodes of its pool, in their order. */
  ghost predicate ChainHeld(spell: Naming, tags: Tags, t: Config.ChainTarget, k: nat, x: ChainSource) {
    && t.tag == spell(ChainName(k))
    && RC.NodeKey(x.exitSubscription, x.exitNode) in tags
    && t.exitTag == tags[RC.NodeKey(x.exitSubscription, x.exitNode)]
    && match x.entry
       case OneEntry(node) => t.members == [Config.NodeTarget(t.tag, node)] && t.options.None?
       case PoolEntry(_, nodes, options) =>
         && t.autoTag == spell(ChainAutoName(k)) && t.options == Some(options) && |t.members| == |nodes|
         && forall j :: 0 <= j < |nodes| ==> t.members[j] == Config.NodeTarget(spell(MemberName(k, j)), nodes[j])
  }

  lemma {:induction false} ChainMembersAre(spell: Naming, k: nat, nodes: seq<Config.Node>)
    ensures forall j :: 0 <= j < |nodes| ==>
              ChainMembers(spell, k, nodes)[j] == Config.NodeTarget(spell(MemberName(k, j)), nodes[j])
    decreases |nodes|
  {
    if nodes != [] {
      ChainMembersAre(spell, k, nodes[..|nodes| - 1]);
    }
  }

  lemma NewChainHolds(spell: Naming, tags: Tags, k: nat, x: ChainSource)
    requires RC.NodeKey(x.exitSubscription, x.exitNode) in tags
    ensures ChainHeld(spell, tags, NewChain(spell, k, tags[RC.NodeKey(x.exitSubscription, x.exitNode)], x.entry), k, x)
  {
    if x.entry.PoolEntry? {
      ChainMembersAre(spell, k, x.entry.nodes);
    }
  }

  ghost predicate LastChain(used: seq<ChainSource>, id: string, j: int) {
    0 <= j < |used| && used[j].id == id && forall i :: j < i < |used| ==> used[i].id != id
  }

  ghost predicate ChainEntry(c: Catalog, used: seq<ChainSource>, id: string, j: int) {
    && LastChain(used, id, j) && j < |c.chains|
    && RC.ChainKey(id) in c.targets
    && c.targets[RC.ChainKey(id)] == RC.Entry(c.chains[j].tag, used[j].signature, RC.Chain(id))
  }

  ghost predicate ChainsHeld(spell: Naming, c: Catalog, used: seq<ChainSource>) {
    && |c.chains| == |used|
    && forall i :: 0 <= i < |used| ==> ChainHeld(spell, c.tags, c.chains[i], i, used[i])
  }

  ghost predicate EachChainEntry(c: Catalog, used: seq<ChainSource>) {
    forall k :: k in c.targets && k.ChainKey? ==> exists j :: ChainEntry(c, used, k.chain, j)
  }

  ghost predicate ChainKeys(start: Catalog, c: Catalog, used: seq<ChainSource>) {
    && (forall k :: k in start.targets && !k.ChainKey? ==> k in c.targets && c.targets[k] == start.targets[k])
    && (forall k :: k in c.targets && !k.ChainKey? ==> k in start.targets)
    && (forall i :: 0 <= i < |used| ==> RC.ChainKey(used[i].id) in c.targets)
  }

  ghost predicate ChainEntries(start: Catalog, c: Catalog, used: seq<ChainSource>) {
    ChainKeys(start, c, used) && EachChainEntry(c, used)
  }

  lemma ChainEntryStays(c: Catalog, d: Catalog, used: seq<ChainSource>, x: ChainSource, id: string, j: int)
    requires ChainEntry(c, used, id, j) && id != x.id && c.chains <= d.chains
    requires RC.ChainKey(id) in d.targets && d.targets[RC.ChainKey(id)] == c.targets[RC.ChainKey(id)]
    ensures ChainEntry(d, used + [x], id, j)
  {
  }

  /** The catalog with one more usable chain. */
  ghost predicate AddsChain(c: Catalog, x: ChainSource, t: Config.ChainTarget, d: Catalog) {
    && d.chains == c.chains + [t]
    && d.targets == c.targets[RC.ChainKey(x.id) := RC.Entry(t.tag, x.signature, RC.Chain(x.id))]
    && d.nodes == c.nodes && d.tags == c.tags && d.pools == c.pools
  }

  lemma EachChainEntryMore(c: Catalog, used: seq<ChainSource>, x: ChainSource, t: Config.ChainTarget, d: Catalog)
    requires |c.chains| == |used| && EachChainEntry(c, used) && AddsChain(c, x, t, d)
    ensures EachChainEntry(d, used + [x])
  {
    assert ChainEntry(d, used + [x], x.id, |used|);
    forall k | k in d.targets && k.ChainKey? ensures exists j :: ChainEntry(d, used + [x], k.chain, j) {
      if k.chain != x.id {
        var j :| ChainEntry(c, used, k.chain, j);
        ChainEntryStays(c, d, used, x, k.chain, j);
      }
    }
  }

  lemma ChainKeysMore(start: Catalog, c: Catalog, used: seq<ChainSource>, x: ChainSource, t: Config.ChainTarget,
      d: Catalog)
    requires ChainKeys(start, c, used) && AddsChain(c, x, t, d)
    ensures ChainKeys(start, d, used + [x])
  {
    forall i | 0 <= i < |used + [x]| ensures RC.ChainKey((used + [x])[i].id) in d.targets {
      assert i < |used| ==> RC.ChainKey(used[i].id) in c.targets;
    }
  }

  lemma ChainsHeldMore(spell: Naming, c: Catalog, used: seq<ChainSource>, x: ChainSource, t: Config.ChainTarget,
      d: Catalog)
    requires ChainsHeld(spell, c, used) && AddsChain(c, x, t, d) && ChainHeld(spell, c.tags, t, |c.chains|, x)
    ensures ChainsHeld(spell, d, used + [x])
  {
    forall i | 0 <= i < |used| ensures ChainHeld(spell, d.tags, d.chains[i], i, (used + [x])[i]) {
      assert ChainHeld(spell, c.tags, c.chains[i], i, used[i]);
    }
  }

  lemma OneMoreChain(spell: Naming, start: Catalog, c: Catalog, used: seq<ChainSource>, x: ChainSource,
      selected: RC.Key, haveUrls: bool)
    requires ChainsHeld(spell, c, used) && ChainEntries(start, c, used) && ChainUsable(c.tags, x, haveUrls)
    ensures
      var r := WithChain(spell, c, x, selected, haveUrls);
      r.Ok? && ChainsHeld(spell, r.value, used + [x]) && ChainEntries(start, r.value, used + [x])
  {
    NewChainHolds(spell, c.tags, |c.chains|, x);
    var d := WithChain(spell, c, x, selected, haveUrls).value;
    var t := NewChain(spell, |c.chains|, c.tags[RC.NodeKey(x.exitSubscription, x.exitNode)], x.entry);
    ChainsHeldMore(spell, c, used, x, t, d);
    EachChainEntryMore(c, used, x, t, d);
    ChainKeysMore(start, c, used, x, t, d);
  }

  ghost predicate NoChainAskedFor(tags: Tags, chains: seq<ChainSource>, selected: RC.Key, haveUrls: bool) {
    forall x :: x in chains && !ChainUsable(tags, x, haveUrls) ==> RC.ChainKey(x.id) != selected
  }

  lemma NoChainAskedForMore(
    tags: Tags, rest: seq<ChainSource>, last: ChainSource, selected: RC.Key, haveUrls: bool)
    ensures
      NoChainAskedFor(tags, rest + [last], selected, haveUrls) <==>
        && NoChainAskedFor(tags, rest, selected, haveUrls)
        && (ChainUsable(tags, last, haveUrls) || RC.ChainKey(last.id) != selected)
  {
    assert last in rest + [last];
    assert forall x :: x in rest ==> x in rest + [last];
  }

  ghost predicate ChainsDone(
    spell: Naming, start: Catalog, chains: seq<ChainSource>, selected: RC.Key, haveUrls: bool,
        r: Result<Catalog, Error>)
  {
    && (r.Ok? <==> NoChainAskedFor(start.tags, chains, selected, haveUrls))
    && (r.Ok? ==>
          && r.value.nodes == start.nodes && r.value.tags == start.tags && r.value.pools == start.pools
          && ChainsHeld(spell, r.value, UsedChains(start.tags, chains, haveUrls))
          && ChainEntries(start, r.value, UsedChains(start.tags, chains, haveUrls)))
  }

  lemma OneChainDone(spell: Naming, start: Catalog, rest: seq<ChainSource>, last: ChainSource, selected: RC.Key,
      haveUrls: bool, before: Catalog)
    requires ChainsDone(spell, start, rest, selected, haveUrls, Ok(before))
    ensures
      ChainsDone(spell, start, rest + [last], selected, haveUrls, WithChain(spell, before, last, selected, haveUrls))
  {
    DropLast(rest, last);
    NoChainAskedForMore(start.tags, rest, last, selected, haveUrls);
    if ChainUsable(start.tags, last, haveUrls) {
      OneMoreChain(spell, start, before, UsedChains(start.tags, rest, haveUrls), last, selected, haveUrls);
    }
  }

  /** The loop over the chains uses exactly those it can, and fails exactly if another was asked for. */
  lemma {:induction false} ChainsExactly(
    spell: Naming, start: Catalog, chains: seq<ChainSource>, selected: RC.Key, haveUrls: bool)
    requires start.chains == [] && forall k :: k in start.targets ==> !k.ChainKey?
    ensures
      ChainsDone(spell, start, chains, selected, haveUrls, Fold(ChainAdder(spell, selected, haveUrls), start, chains))
    decreases |chains|
  {
    if chains != [] {
      var rest, last := chains[..|chains| - 1], chains[|chains| - 1];
      ChainsExactly(spell, start, rest, selected, haveUrls);
      SplitLast(chains);
      NoChainAskedForMore(start.tags, rest, last, selected, haveUrls);
      var before := Fold(ChainAdder(spell, selected, haveUrls), start, rest);
      if before.Ok? {
        OneChainDone(spell, start, rest, last, selected, haveUrls, before.value);
      }
    }
  }

  // ----- the catalog

  function PoolsOf(s: Sources): seq<PoolSource> {
    if s.haveUrls then s.pools else []
  }

  /** Under this key stands the compiled target of exactly the stored node, pool or chain that it names. */
  ghost predicate Holds(s: Sources, c: Catalog, k: RC.Key) {
    && k in c.targets
    && match k
       case DirectKey => c.targets[k] == RC.Entry("direct", "direct", RC.Direct)
       case NodeKey(_, _) => exists j :: NodeEntry(c, UsedNodes(s.nodes), k, j)
       case PoolKey(id) => exists j :: PoolEntry(c, UsedPools(c.tags, PoolsOf(s)), id, j)
       case ChainKey(id) => exists j :: ChainEntry(c, UsedChains(c.tags, s.chains, s.haveUrls), id, j)
  }

  ghost predicate IsKeyOfUsed(s: Sources, tags: Tags, k: RC.Key) {
    match k
    case DirectKey => true
    case NodeKey(_, _) => exists i :: 0 <= i < |UsedNodes(s.nodes)| && KeyOfNode(UsedNodes(s.nodes)[i]) == k
    case PoolKey(id) => exists i :: 0 <= i < |UsedPools(tags, PoolsOf(s))| && UsedPools(tags, PoolsOf(s))[i].id == id
    case ChainKey(id) =>
      exists i ::
        0 <= i < |UsedChains(tags, s.chains, s.haveUrls)| && UsedChains(tags, s.chains, s.haveUrls)[i].id == id
  }

  ghost predicate Contents(spell: Naming, s: Sources, c: Catalog) {
    && NodesHeld(spell, c, UsedNodes(s.nodes))
    && PoolsHeld(spell, c, UsedPools(c.tags, PoolsOf(s)))
    && ChainsHeld(spell, c, UsedChains(c.tags, s.chains, s.haveUrls))
    && (forall k :: k in c.targets ==> Holds(s, c, k))
    && (forall k :: IsKeyOfUsed(s, c.tags, k) ==> k in c.targets)
    && (forall k :: k in c.tags ==> k.NodeKey? && k in c.targets)
  }

  lemma NodeEntryAtEnd(c: Catalog, d: Catalog, used: seq<NodeSource>, k: RC.Key, j: int)
    requires NodeEntry(c, used, k, j) && d.nodes == c.nodes && d.tags == c.tags
    requires k in d.targets && d.targets[k] == c.targets[k]
    ensures NodeEntry(d, used, k, j)
  {
  }

  lemma PoolEntryAtEnd(c: Catalog, d: Catalog, used: seq<PoolSource>, id: string, j: int)
    requires PoolEntry(c, used, id, j) && d.pools == c.pools
    requires RC.PoolKey(id) in d.targets && d.targets[RC.PoolKey(id)] == c.targets[RC.PoolKey(id)]
    ensures PoolEntry(d, used, id, j)
  {
  }

  lemma HoldsAtEnd(s: Sources, a: Catalog, b: Catalog, c: Catalog, k: RC.Key)
    requires NodeEntries(a, UsedNodes(s.nodes)) && (forall x :: x in a.tags ==> x.NodeKey?)
    requires b.nodes == a.nodes && b.tags == a.tags && PoolEntries(a, b, UsedPools(a.tags, PoolsOf(s)))
    requires c.nodes == b.nodes && c.tags == b.tags && c.pools == b.pools
    requires ChainEntries(b, c, UsedChains(a.tags, s.chains, s.haveUrls)) && k in c.targets
    ensures Holds(s, c, k)
  {
    match k
    case DirectKey =>
    case NodeKey(_, _) =>
      var j :| NodeEntry(a, UsedNodes(s.nodes), k, j);
      NodeEntryAtEnd(a, c, UsedNodes(s.nodes), k, j);
    case PoolKey(id) =>
      var j :| PoolEntry(b, UsedPools(a.tags, PoolsOf(s)), id, j);
      PoolEntryAtEnd(b, c, UsedPools(a.tags, PoolsOf(s)), id, j);
    case ChainKey(_) =>
  }

  lemma {:induction false} OnlyNodeKeys(c: Catalog, used: seq<NodeSource>)
    requires NodeEntries(c, used)
    ensures forall k :: k in c.tags ==> k.NodeKey?
  {
    forall k | k in c.tags ensures k.NodeKey? {
      var j :| NodeEntry(c, used, k, j);
    }
  }

  /**
   What is built holds every usable node, pool and chain under its own tag and key, and nothing else; and it is built
   exactly if there is something to run and nothing unusable was asked for.
   */
  lemma CatalogExactly(spell: Naming, s: Sources, selected: RC.Key)
    ensures BuildFrom(spell, s, selected).Ok? ==> Contents(spell, s, BuildFrom(spell, s, selected).value)
    ensures
      var withNodes := Fold(NodeAdder(spell, selected), EMPTY, s.nodes);
      && (withNodes.Ok? <==> NoneAskedFor(s.nodes, selected))
      && (BuildFrom(spell, s, selected).Ok? <==>
            && withNodes.Ok? && (UsedNodes(s.nodes) == [] ==> selected == RC.DirectKey)
            && NoPoolAskedFor(withNodes.value.tags, PoolsOf(s), selected)
            && NoChainAskedFor(withNodes.value.tags, s.chains, selected, s.haveUrls))
  {
    NodesExactly(spell, s.nodes, selected);
    var withNodes := Fold(NodeAdder(spell, selected), EMPTY, s.nodes);
    if withNodes.Ok? && (UsedNodes(s.nodes) == [] ==> selected == RC.DirectKey) {
      var a := withNodes.value;
      OnlyNodeKeys(a, UsedNodes(s.nodes));
      PoolsExactly(spell, a, PoolsOf(s), selected);
      var withPools := Fold(PoolAdder(spell, selected), a, PoolsOf(s));
      if withPools.Ok? {
        NoChainsYet(s, a, withPools.value);
        ChainsExactly(spell, withPools.value, s.chains, selected, s.haveUrls);
        if BuildFrom(spell, s, selected).Ok? {
          ContentsFollow(spell, s, a, withPools.value, BuildFrom(spell, s, selected).value);
        }
      }
    }
  }

  lemma NoChainsYet(s: Sources, a: Catalog, b: Catalog)
    requires NodeEntries(a, UsedNodes(s.nodes)) && (forall x :: x in a.tags ==> x.NodeKey?)
    requires PoolEntries(a, b, UsedPools(a.tags, PoolsOf(s)))
    ensures forall k :: k in b.targets ==> !k.ChainKey?
  {
  }

  lemma ContentsFollow(spell: Naming, s: Sources, a: Catalog, b: Catalog, c: Catalog)
    requires NodesHeld(spell, a, UsedNodes(s.nodes)) && NodeEntries(a, UsedNodes(s.nodes))
    requires forall x :: x in a.tags ==> x.NodeKey?
    requires b.nodes == a.nodes && b.tags == a.tags
    requires PoolsHeld(spell, b, UsedPools(a.tags, PoolsOf(s))) && PoolEntries(a, b, UsedPools(a.tags, PoolsOf(s)))
    requires c.nodes == b.nodes && c.tags == b.tags && c.pools == b.pools
    requires ChainsHeld(spell, c, UsedChains(a.tags, s.chains, s.haveUrls))
    requires ChainEntries(b, c, UsedChains(a.tags, s.chains, s.haveUrls))
    ensures Contents(spell, s, c)
  {
    forall k | k in c.targets ensures Holds(s, c, k) {
      HoldsAtEnd(s, a, b, c, k);
    }
    forall k | IsKeyOfUsed(s, c.tags, k) ensures k in c.targets {
      if k.NodeKey? {
        assert k in a.tags && k in b.targets;
      } else if k.PoolKey? {
        assert k in b.targets;
      }
    }
  }

  // ----- the compiled configuration starts where it was asked to

  function ExitKey(x: ChainSource): RC.Key {
    RC.NodeKey(x.exitSubscription, x.exitNode)
  }

  /** The outbounds of the target that a key names, read off the stored sources. */
  ghost predicate Emits(s: Sources, c: Catalog, k: RC.Key, tag: string, outs: seq<Config.Outbound>) {
    match k
    case DirectKey => tag == Config.DIRECT && Config.Direct in outs
    case NodeKey(_, _) =>
      exists j :: LastNode(UsedNodes(s.nodes), k, j) && Config.Proxy(tag, UsedNodes(s.nodes)[j].node, None) in outs
    case PoolKey(id) =>
      exists j, autoTag, memberTags, options ::
        && LastPool(UsedPools(c.tags, PoolsOf(s)), id, j)
        && AreTagsOf(c.tags, UsedPools(c.tags, PoolsOf(s))[j].members, memberTags)
        && options == UsedPools(c.tags, PoolsOf(s))[j].options
        && OutboundGraph.GroupEmitted(outs, tag, autoTag, memberTags, options)
    case ChainKey(id) =>
      exists j, t, n ::
        && LastChain(UsedChains(c.tags, s.chains, s.haveUrls), id, j)
        && ChainHeld(Spell, c.tags, t, j, UsedChains(c.tags, s.chains, s.haveUrls)[j]) && t.tag == tag
        && LastNode(UsedNodes(s.nodes), ExitKey(UsedChains(c.tags, s.chains, s.haveUrls)[j]), n)
        && OutboundGraph.ChainEmitted(outs, map[t.exitTag := UsedNodes(s.nodes)[n].node], t)
  }

  /**
   The root selector of the compiled configuration starts at the outbound of exactly the stored node, pool or chain
   that was asked for, and at direct exactly if that was asked for.
   */
  lemma StartsAtTheRequestedTarget(
    s: Sources, selected: RC.Key, signature: string, channels: seq<CatalogStarts.ChannelSource>, x: Config.Input)
    requires Build(s, selected, signature).Ok? && Config.ParsedInput(x) && Config.Compile(x).Ok?
    requires CatalogStarts.CompiledFor(x, Build(s, selected, signature).value, selected, channels)
    ensures
      var c, outs := Build(s, selected, signature).value, Config.Compile(x).value.outbounds;
      && (exists offered ::
            Config.Selector(Config.PROXY, offered, c.targets[selected].tag, false) in outs)
      && Emits(s, c, selected, c.targets[selected].tag, outs)
      && (c.targets[selected].tag == Config.DIRECT <==> selected == RC.DirectKey)
  {
    var c, outs := Build(s, selected, signature).value, Config.Compile(x).value.outbounds;
    CatalogExactly(Spell, s, selected);
    OutboundGraph.EveryTargetIsEmitted(x);
    KeyIsEmitted(s, c, selected, x);
  }

  lemma DirectIsEmitted(x: Config.Input)
    requires Config.ParsedInput(x) && Config.Compile(x).Ok?
    ensures Config.Direct in Config.Compile(x).value.outbounds
  {
    OutboundGraph.CompiledFrom(x);
    var d := Config.Targets(x).value;
    assert Config.Outbounds(d, x.initial)[|d.outbounds| + 1] == Config.Direct;
  }

  lemma KeyIsEmitted(s: Sources, c: Catalog, k: RC.Key, x: Config.Input)
    requires Contents(Spell, s, c) && CatalogCompiles.MadeFrom(x, c) && k in c.targets
    requires Config.ParsedInput(x) && Config.Compile(x).Ok?
    ensures Emits(s, c, k, c.targets[k].tag, Config.Compile(x).value.outbounds)
    ensures c.targets[k].tag == Config.DIRECT <==> k == RC.DirectKey
  {
    var outs := Config.Compile(x).value.outbounds;
    OutboundGraph.EveryTargetIsEmitted(x);
    CatalogCompiles.SpellIsGood();
    assert Holds(s, c, k);
    match k
    case DirectKey => DirectIsEmitted(x);
    case NodeKey(_, _) =>
      var j :| NodeEntry(c, UsedNodes(s.nodes), k, j);
      assert c.nodes[j] in x.nodes;
    case PoolKey(id) =>
      var j :| PoolEntry(c, UsedPools(c.tags, PoolsOf(s)), id, j);
      var t := c.pools[j];
      assert t in x.pools && PoolHeld(Spell, c.tags, t, j, UsedPools(c.tags, PoolsOf(s))[j]);
      assert OutboundGraph.GroupEmitted(outs, t.tag, t.autoTag, t.nodeTags, t.options);
    case ChainKey(id) =>
      var j :| ChainEntry(c, UsedChains(c.tags, s.chains, s.haveUrls), id, j);
      var t := c.chains[j];
      assert t in x.chains && ChainHeld(Spell, c.tags, t, j, UsedChains(c.tags, s.chains, s.haveUrls)[j]);
      var exit :| Config.NodeTarget(t.exitTag, exit) in x.nodes
        && OutboundGraph.ChainEmitted(outs, map[t.exitTag := exit], t);
      var n := ExitIsTheStoredNode(s, c, ExitKey(UsedChains(c.tags, s.chains, s.haveUrls)[j]), exit);
      assert exit == UsedNodes(s.nodes)[n].node;
  }

  /** Tags differ, so the node compiled under a key's tag is the stored one. */
  lemma ExitIsTheStoredNode(s: Sources, c: Catalog, k: RC.Key, node: Config.Node) returns (n: int)
    requires Contents(Spell, s, c) && k in c.tags && Config.NodeTarget(c.tags[k], node) in c.nodes
    ensures LastNode(UsedNodes(s.nodes), k, n) && UsedNodes(s.nodes)[n].node == node
  {
    CatalogCompiles.SpellIsGood();
    var m :| 0 <= m < |c.nodes| && c.nodes[m] == Config.NodeTarget(c.tags[k], node);
    assert Holds(s, c, k);
    n :| NodeEntry(c, UsedNodes(s.nodes), k, n);
    assert Spell(NodeName(m)) == Spell(NodeName(n));
  }
}
