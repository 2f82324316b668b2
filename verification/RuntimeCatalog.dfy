/**
 The catalog of runtime targets (internal/control/service.go,
 buildRuntimeCatalog): every stored node, pool and chain that can be used gets a
 tag, an entry under its key, and a place in the compiler's input. What cannot be
 used is skipped, unless it is the one that was asked for.
 */
module RuntimeCatalog {
  import opened Common
  import opened CatalogTags
  import RuntimeConfig
  import RC = RuntimeControl

  type Tags = map<RC.Key, string>

  /** How names become tags; the catalog uses CatalogTags.Spell. */
  type Naming = Name -> string

  datatype NodeSource = NodeSource(subscription: string, id: string, node: RuntimeConfig.Node, signature: string)

  /** `usable` is whether its probe URLs validate and enough members resolve; the members are those that do. */
  datatype PoolSource = PoolSource(
    id: string, usable: bool, members: seq<(string, string)>, options: RuntimeConfig.Options, signature: string)

  datatype EntrySource =
    | OneEntry(node: RuntimeConfig.Node)
    | PoolEntry(probesOk: bool, nodes: seq<RuntimeConfig.Node>, options: RuntimeConfig.Options)

  datatype ChainSource = ChainSource(
    id: string, resolved: bool, exitSubscription: string, exitNode: string, entry: EntrySource, signature: string)

  /** A pool that resolves has at least two nodes. */
  predicate Resolved(x: ChainSource) {
    x.entry.PoolEntry? ==> |x.entry.nodes| >= 2
  }

  datatype Sources = Sources(nodes: seq<NodeSource>, pools: seq<PoolSource>, chains: seq<ChainSource>, haveUrls: bool)

  datatype Catalog = Catalog(
    nodes: seq<RuntimeConfig.NodeTarget>,
    tags: Tags,
    pools: seq<RuntimeConfig.PoolTarget>,
    chains: seq<RuntimeConfig.ChainTarget>,
    targets: map<RC.Key, RC.Entry>)

  datatype Error = SelectedUnusable | NoNodes | Unavailable

  const EMPTY := Catalog([], map[], [], [], map[RC.DirectKey := RC.Entry(RuntimeConfig.DIRECT, "direct", RC.Direct)])

  /** What happens to a source that cannot be used. */
  function Skip(c: Catalog, key: RC.Key, selected: RC.Key): Result<Catalog, Error> {
    if key == selected then Err(SelectedUnusable) else Ok(c)
  }

  function WithNode(spell: Naming, c: Catalog, s: NodeSource, selected: RC.Key): Result<Catalog, Error> {
    var key := RC.NodeKey(s.subscription, s.id);
    if !s.node.valid then Skip(c, key, selected)
    else
      var tag := spell(NodeName(|c.nodes|));
      Ok(c.(nodes := c.nodes + [RuntimeConfig.NodeTarget(tag, s.node)],
            tags := c.tags[key := tag],
            targets := c.targets[key := RC.Entry(tag, s.signature, RC.Node(s.subscription, s.id))]))
  }

  /** The tags of the members that are among the nodes. */
  function MemberTags(tags: Tags, members: seq<(string, string)>): seq<string>
    decreases |members|
  {
    if members == [] then []
    else
      var before, last := MemberTags(tags, members[..|members| - 1]), members[|members| - 1];
      var key := RC.NodeKey(last.0, last.1);
      if key in tags then before + [tags[key]] else before
  }

  function WithPool(spell: Naming, c: Catalog, p: PoolSource, selected: RC.Key): Result<Catalog, Error> {
    var key, memberTags := RC.PoolKey(p.id), MemberTags(c.tags, p.members);
    if !p.usable || |memberTags| < 2 then Skip(c, key, selected)
    else
      var tag, autoTag := spell(PoolName(|c.pools|)), spell(PoolAutoName(|c.pools|));
      Ok(c.(pools := c.pools + [RuntimeConfig.PoolTarget(tag, autoTag, memberTags, p.options)],
            targets := c.targets[key := RC.Entry(tag, p.signature, RC.Pool(p.id))]))
  }

  function ChainMember(spell: Naming, k: nat, j: nat, node: RuntimeConfig.Node): RuntimeConfig.NodeTarget {
    RuntimeConfig.NodeTarget(spell(MemberName(k, j)), node)
  }

  function ChainMembers(spell: Naming, k: nat, nodes: seq<RuntimeConfig.Node>): (members: seq<RuntimeConfig.NodeTarget>)
    ensures |members| == |nodes|
    decreases |nodes|
  {
    if nodes == [] then []
    else ChainMembers(spell, k, nodes[..|nodes| - 1]) + [ChainMember(spell, k, |nodes| - 1, nodes[|nodes| - 1])]
  }

  function NewChain(spell: Naming, k: nat, exitTag: string, entry: EntrySource): RuntimeConfig.ChainTarget {
    var tag := spell(ChainName(k));
    match entry
    case OneEntry(node) => RuntimeConfig.ChainTarget(tag, "", [RuntimeConfig.NodeTarget(tag, node)], exitTag, None)
    case PoolEntry(_, nodes, options) =>
      RuntimeConfig.ChainTarget(tag, spell(ChainAutoName(k)), ChainMembers(spell, k, nodes), exitTag, Some(options))
  }

  function WithChain(spell: Naming, c: Catalog, x: ChainSource, selected: RC.Key, haveUrls: bool)
    : Result<Catalog, Error>
  {
    var key, exitKey := RC.ChainKey(x.id), RC.NodeKey(x.exitSubscription, x.exitNode);
    if !x.resolved || exitKey !in c.tags then Skip(c, key, selected)
    else if x.entry.PoolEntry? && !(haveUrls && x.entry.probesOk) then Skip(c, key, selected)
    else
      var chain := NewChain(spell, |c.chains|, c.tags[exitKey], x.entry);
      Ok(c.(chains := c.chains + [chain],
            targets := c.targets[key := RC.Entry(chain.tag, x.signature, RC.Chain(x.id))]))
  }

  function NodeAdder(spell: Naming, selected: RC.Key): (Catalog, NodeSource) -> Result<Catalog, Error> {
    (c: Catalog, s: NodeSource) => WithNode(spell, c, s, selected)
  }

  function PoolAdder(spell: Naming, selected: RC.Key): (Catalog, PoolSource) -> Result<Catalog, Error> {
    (c: Catalog, p: PoolSource) => WithPool(spell, c, p, selected)
  }

  function ChainAdder(spell: Naming, selected: RC.Key, haveUrls: bool)
    : (Catalog, ChainSource) -> Result<Catalog, Error>
  {
    (c: Catalog, x: ChainSource) => WithChain(spell, c, x, selected, haveUrls)
  }

  function BuildFrom(spell: Naming, s: Sources, selected: RC.Key): Result<Catalog, Error> {
    var withNodes :- Fold(NodeAdder(spell, selected), EMPTY, s.nodes);
    if withNodes.nodes == [] && selected != RC.DirectKey then Err(NoNodes)
    else
      var withPools :- Fold(PoolAdder(spell, selected), withNodes, if s.haveUrls then s.pools else []);
      Fold(ChainAdder(spell, selected, s.haveUrls), withPools, s.chains)
  }

  /** The catalog, if the requested target is in it with the signature it has now. */
  function Build(s: Sources, selected: RC.Key, signature: string): Result<Catalog, Error> {
    var c :- BuildFrom(Spell, s, selected);
    if selected !in c.targets || c.targets[selected].signature != signature then Err(Unavailable) else Ok(c)
  }

  // ----- the loops

  method CollectNodes(spell: Naming, nodes: seq<NodeSource>, selected: RC.Key) returns (r: Result<Catalog, Error>)
    ensures r == Fold(NodeAdder(spell, selected), EMPTY, nodes)
  {
    var c := EMPTY;
    for i := 0 to |nodes|
      invariant Fold(NodeAdder(spell, selected), EMPTY, nodes[..i]) == Ok(c)
    {
      FoldStep(NodeAdder(spell, selected), EMPTY, nodes, i);
      var s := nodes[i];
      var key := RC.NodeKey(s.subscription, s.id);
      if !s.node.valid {
        if key == selected {
          FoldStops(NodeAdder(spell, selected), EMPTY, nodes, i + 1);
          return Err(SelectedUnusable);
        }
        continue;
      }
      var tag := spell(NodeName(|c.nodes|));
      c := c.(nodes := c.nodes + [RuntimeConfig.NodeTarget(tag, s.node)],
              tags := c.tags[key := tag],
              targets := c.targets[key := RC.Entry(tag, s.signature, RC.Node(s.subscription, s.id))]);
    }
    TakeAll(nodes);
    return Ok(c);
  }

  method CollectMemberTags(tags: Tags, members: seq<(string, string)>) returns (memberTags: seq<string>)
    ensures memberTags == MemberTags(tags, members)
  {
    memberTags := [];
    for i := 0 to |members|
      invariant memberTags == MemberTags(tags, members[..i])
    {
      TakeOneMore(members, i);
      var key := RC.NodeKey(members[i].0, members[i].1);
      if key in tags {
        memberTags := memberTags + [tags[key]];
      }
    }
    TakeAll(members);
  }

  method CollectPools(spell: Naming, start: Catalog, pools: seq<PoolSource>, selected: RC.Key)
    returns (r: Result<Catalog, Error>)
    ensures r == Fold(PoolAdder(spell, selected), start, pools)
  {
    var c := start;
    for i := 0 to |pools|
      invariant Fold(PoolAdder(spell, selected), start, pools[..i]) == Ok(c)
    {
      FoldStep(PoolAdder(spell, selected), start, pools, i);
      var p := pools[i];
      var key := RC.PoolKey(p.id);
      var memberTags := CollectMemberTags(c.tags, p.members);
      if !p.usable || |memberTags| < 2 {
        if key == selected {
          FoldStops(PoolAdder(spell, selected), start, pools, i + 1);
          return Err(SelectedUnusable);
        }
        continue;
      }
      var tag, autoTag := spell(PoolName(|c.pools|)), spell(PoolAutoName(|c.pools|));
      c := c.(pools := c.pools + [RuntimeConfig.PoolTarget(tag, autoTag, memberTags, p.options)],
              targets := c.targets[key := RC.Entry(tag, p.signature, RC.Pool(p.id))]);
    }
    TakeAll(pools);
    return Ok(c);
  }

  method CollectChains(spell: Naming, start: Catalog, chains: seq<ChainSource>, selected: RC.Key, haveUrls: bool)
    returns (r: Result<Catalog, Error>)
    ensures r == Fold(ChainAdder(spell, selected, haveUrls), start, chains)
  {
    var c := start;
    for i := 0 to |chains|
      invariant Fold(ChainAdder(spell, selected, haveUrls), start, chains[..i]) == Ok(c)
    {
      FoldStep(ChainAdder(spell, selected, haveUrls), start, chains, i);
      var x := chains[i];
      var key, exitKey := RC.ChainKey(x.id), RC.NodeKey(x.exitSubscription, x.exitNode);
      if !x.resolved || exitKey !in c.tags || (x.entry.PoolEntry? && !(haveUrls && x.entry.probesOk)) {
        if key == selected {
          FoldStops(ChainAdder(spell, selected, haveUrls), start, chains, i + 1);
          return Err(SelectedUnusable);
        }
        continue;
      }
      var chain := CollectChain(spell, |c.chains|, c.tags[exitKey], x.entry);
      c := c.(chains := c.chains + [chain],
              targets := c.targets[key := RC.Entry(chain.tag, x.signature, RC.Chain(x.id))]);
    }
    TakeAll(chains);
    return Ok(c);
  }

  method CollectChain(spell: Naming, k: nat, exitTag: string, entry: EntrySource)
    returns (chain: RuntimeConfig.ChainTarget)
    ensures chain == NewChain(spell, k, exitTag, entry)
  {
    var tag := spell(ChainName(k));
    if entry.OneEntry? {
      return RuntimeConfig.ChainTarget(tag, "", [RuntimeConfig.NodeTarget(tag, entry.node)], exitTag, None);
    }
    var members := CollectMembers(spell, k, entry.nodes);
    return RuntimeConfig.ChainTarget(tag, spell(ChainAutoName(k)), members, exitTag, Some(entry.options));
  }

  method CollectMembers(spell: Naming, k: nat, nodes: seq<RuntimeConfig.Node>)
    returns (members: seq<RuntimeConfig.NodeTarget>)
    ensures members == ChainMembers(spell, k, nodes)
  {
    members := [];
    for j := 0 to |nodes|
      invariant members == ChainMembers(spell, k, nodes[..j])
    {
      TakeOneMore(nodes, j);
      members := members + [ChainMember(spell, k, j, nodes[j])];
    }
    TakeAll(nodes);
  }

  method BuildRuntimeCatalog(s: Sources, selected: RC.Key, signature: string) returns (r: Result<Catalog, Error>)
    ensures r == Build(s, selected, signature)
  {
    var c :- CollectNodes(Spell, s.nodes, selected);
    if c.nodes == [] && selected != RC.DirectKey {
      return Err(NoNodes);
    }
    c :- CollectPools(Spell, c, if s.haveUrls then s.pools else [], selected);
    c :- CollectChains(Spell, c, s.chains, selected, s.haveUrls);
    if selected !in c.targets || c.targets[selected].signature != signature {
      return Err(Unavailable);
    }
    return Ok(c);
  }
}
