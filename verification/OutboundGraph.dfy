/**
 What holds of every configuration the compiler accepts: a well-formed, acyclic
 graph of outbounds that fails closed, with every target emitted.
 */
module OutboundGraph {
  import opened Common
  import opened RuntimeConfig
  import Cidr
  import TunDns

  // ----- well-formedness

  ghost predicate DistinctTags(outs: seq<Outbound>) {
    forall i, j :: 0 <= i < j < |outs| ==> outs[i].Tag() != outs[j].Tag()
  }

  ghost predicate Emitted(outs: seq<Outbound>, tag: string) {
    exists k :: 0 <= k < |outs| && outs[k].Tag() == tag
  }

  /** Every reference resolves, and to an outbound of a lower level. */
  ghost predicate Ranked(outs: seq<Outbound>) {
    forall i, b :: 0 <= i < |outs| && b in outs[i].Refs() ==> Lower(outs, outs[i], b)
  }

  lemma GraphIsRanked(d: Draft, initial: string)
    requires Inv(d) && (initial in d.roots || initial == DIRECT)
    ensures DistinctTags(Outbounds(d, initial)) && Ranked(Outbounds(d, initial))
  {
    var outs, n := Outbounds(d, initial), |d.outbounds|;
    var root := outs[n];
    assert root == Selector(PROXY, d.roots + [DIRECT, BLOCK], initial, false);
    assert outs[n + 1] == Direct && outs[n + 2] == Block;
    forall k | 0 <= k < n ensures outs[k] == d.outbounds[k] && outs[k].Level() < 4 && outs[k].Tag() !in BASE {}
    forall i, b | 0 <= i < |outs| && b in outs[i].Refs() ensures Lower(outs, outs[i], b) {
      if b == BLOCK {
        assert outs[n + 2].Level() < outs[i].Level() by {
          if i < n { assert BelowRoot(d.outbounds[i]); }
        }
      } else if i < n {
        assert RefsOk(d.outbounds, d.outbounds[i]);
        assert Lower(d.outbounds, d.outbounds[i], b);
        var k :| 0 <= k < n && d.outbounds[k].Tag() == b && d.outbounds[k].Level() < d.outbounds[i].Level();
        assert outs[k].Tag() == b;
      } else if i == n && b != DIRECT {
        assert b in d.roots;
        var k :| 0 <= k < n && d.outbounds[k].Tag() == b;
        assert outs[k].Tag() == b;
      } else {
        assert outs[n + 1].Tag() == b;
      }
    }
  }

  lemma CompiledFrom(x: Input)
    requires ParsedInput(x) && Compile(x).Ok?
    ensures Targets(x).Ok? && (x.initial in Targets(x).value.roots || x.initial == DIRECT)
    ensures Compile(x).value.outbounds == Outbounds(Targets(x).value, x.initial) && Compile(x).value.final == PROXY
  {
  }

  lemma BaseIsEmitted(d: Draft, initial: string)
    ensures
      var outs := Outbounds(d, initial);
      Emitted(outs, PROXY) && Emitted(outs, DIRECT) && Emitted(outs, BLOCK)
  {
    var outs, n := Outbounds(d, initial), |d.outbounds|;
    assert outs[n].Tag() == PROXY && outs[n + 1].Tag() == DIRECT && outs[n + 2].Tag() == BLOCK;
  }

  /** The outbounds of an accepted configuration have distinct tags and only resolved, descending references. */
  lemma AcceptedConfigIsWellFormed(x: Input)
    requires ParsedInput(x) && Compile(x).Ok?
    ensures
      var outs := Compile(x).value.outbounds;
      && DistinctTags(outs)
      && Ranked(outs)
      && Compile(x).value.final == PROXY && Emitted(outs, PROXY) && Emitted(outs, DIRECT) && Emitted(outs, BLOCK)
  {
    CompiledFrom(x);
    TargetsKeepInv(x);
    GraphIsRanked(Targets(x).value, x.initial);
    BaseIsEmitted(Targets(x).value, x.initial);
  }

  // ----- paths

  ghost predicate Edge(outs: seq<Outbound>, a: string, b: string) {
    exists k :: 0 <= k < |outs| && outs[k].Tag() == a && b in outs[k].Refs()
  }

  ghost predicate Path(outs: seq<Outbound>, p: seq<string>) {
    |p| >= 1 && forall i :: 0 <= i < |p| - 1 ==> Edge(outs, p[i], p[i + 1])
  }

  ghost predicate LevelOf(outs: seq<Outbound>, tag: string, level: nat) {
    exists k :: 0 <= k < |outs| && outs[k].Tag() == tag && outs[k].Level() == level
  }

  lemma {:induction false} LevelsDescend(outs: seq<Outbound>, p: seq<string>, first: nat) returns (last: nat)
    requires DistinctTags(outs) && Ranked(outs) && Path(outs, p) && LevelOf(outs, p[0], first)
    ensures LevelOf(outs, p[|p| - 1], last)
    ensures if |p| == 1 then last == first else last < first
    decreases |p|
  {
    if |p| == 1 {
      last := first;
    } else {
      assert Edge(outs, p[0], p[1]);
      var k :| 0 <= k < |outs| && outs[k].Tag() == p[0] && p[1] in outs[k].Refs();
      assert Lower(outs, outs[k], p[1]);
      var m :| 0 <= m < |outs| && outs[m].Tag() == p[1] && outs[m].Level() < outs[k].Level();
      forall i | 0 <= i < |p[1..]| - 1 ensures Edge(outs, p[1..][i], p[1..][i + 1]) {
        assert Edge(outs, p[i + 1], p[i + 2]);
      }
      last := LevelsDescend(outs, p[1..], outs[m].Level());
    }
  }

  /** No outbound can be reached from itself: the core never dials in a circle. */
  lemma NoCycles(x: Input, p: seq<string>)
    requires ParsedInput(x) && Compile(x).Ok?
    requires |p| >= 2 && Path(Compile(x).value.outbounds, p)
    ensures p[0] != p[|p| - 1]
  {
    AcceptedConfigIsWellFormed(x);
    var outs := Compile(x).value.outbounds;
    assert Edge(outs, p[0], p[1]);
    var k :| 0 <= k < |outs| && outs[k].Tag() == p[0] && p[1] in outs[k].Refs();
    var last := LevelsDescend(outs, p, outs[k].Level());
  }

  lemma WhoRefersIn(d: Draft, initial: string, a: string, b: string)
    requires Inv(d) && (initial in d.roots || initial == DIRECT) && Edge(Outbounds(d, initial), a, b)
    ensures b == DIRECT ==> a == PROXY
    ensures b != PROXY
  {
    var outs, n := Outbounds(d, initial), |d.outbounds|;
    var k :| 0 <= k < |outs| && outs[k].Tag() == a && b in outs[k].Refs();
    if k < n {
      assert outs[k] == d.outbounds[k] && RefsOk(d.outbounds, d.outbounds[k]);
      assert b == BLOCK || Lower(d.outbounds, d.outbounds[k], b);
    } else if k == n && b != DIRECT && b != BLOCK {
      assert b in d.roots;
    }
  }

  /** Only the root selector refers to `direct`, and nothing refers to the root. */
  lemma WhoRefersTo(x: Input, a: string, b: string)
    requires ParsedInput(x) && Compile(x).Ok? && Edge(Compile(x).value.outbounds, a, b)
    ensures b == DIRECT ==> a == PROXY
    ensures b != PROXY
  {
    CompiledFrom(x);
    TargetsKeepInv(x);
    WhoRefersIn(Targets(x).value, x.initial, a, b);
  }

  /**
   `direct` is reachable only from itself and from the root selector: no pool, no
   chain and no node ever leads to it.
   */
  lemma DirectOnlyFromTheRoot(x: Input, p: seq<string>)
    requires ParsedInput(x) && Compile(x).Ok?
    requires Path(Compile(x).value.outbounds, p) && p[|p| - 1] == DIRECT
    ensures p == [DIRECT] || p == [PROXY, DIRECT]
  {
    var outs := Compile(x).value.outbounds;
    if |p| >= 2 {
      assert Edge(outs, p[|p| - 2], p[|p| - 2 + 1]);
      WhoRefersTo(x, p[|p| - 2], DIRECT);
      if |p| >= 3 {
        assert Edge(outs, p[|p| - 3], p[|p| - 3 + 1]);
        WhoRefersTo(x, p[|p| - 3], PROXY);
      }
    }
  }

  ghost predicate Ends(outs: seq<Outbound>, tag: string) {
    forall k :: 0 <= k < |outs| && outs[k].Tag() == tag ==> outs[k].Refs() == []
  }

  /** Below the root, a path that cannot be extended ends at a proxy node or at `block`. */
  lemma FailsClosed(x: Input, p: seq<string>)
    requires ParsedInput(x) && Compile(x).Ok?
    requires Path(Compile(x).value.outbounds, p) && p[0] != PROXY && p[0] != DIRECT
    requires Ends(Compile(x).value.outbounds, p[|p| - 1])
    ensures
      var outs := Compile(x).value.outbounds;
      forall k :: 0 <= k < |outs| && outs[k].Tag() == p[|p| - 1] ==> outs[k].Proxy? || outs[k] == Block
  {
    var outs := Compile(x).value.outbounds;
    if p[|p| - 1] == DIRECT {
      DirectOnlyFromTheRoot(x, p);
    }
    forall k | 0 <= k < |outs| && outs[k].Tag() == p[|p| - 1] ensures outs[k].Proxy? || outs[k] == Block {
      NonEmptyGroups(x, k);
    }
  }

  // ----- what is emitted

  /** Folding keeps what is there and meets each target with a draft in which it is accepted. */
  ghost predicate Grows(d: Draft, v: Draft) {
    d.outbounds <= v.outbounds && d.roots <= v.roots && (forall t :: t in d.nodes ==> t in v.nodes)
  }

  predicate HasGroupRefs(o: Outbound) {
    o.UrlTest? ==> o.tests != []
  }

  ghost predicate GroupsFilled(outs: seq<Outbound>) {
    forall k :: 0 <= k < |outs| ==> HasGroupRefs(outs[k])
  }

  ghost predicate NodesDone(d: Draft, nodes: seq<NodeTarget>, v: Draft) {
    && Grows(d, v) && v.roots == d.roots + TagsOf(nodes)
    && (forall t :: t in nodes ==> Proxy(t.tag, t.node, None) in v.outbounds)
    && (forall t :: t in v.nodes ==> t in d.nodes || NodeTarget(t, v.nodes[t]) in nodes)
    && (GroupsFilled(d.outbounds) ==> GroupsFilled(v.outbounds))
  }

  lemma NodesDoneStep(d: Draft, rest: seq<NodeTarget>, before: Draft, last: NodeTarget, v: Draft)
    requires NodesDone(d, rest, before) && AddNode(before, last) == Ok(v)
    ensures NodesDone(d, rest + [last], v)
  {
    var nodes := rest + [last];
    assert TagsOf(nodes) == TagsOf(rest) + [last.tag];
    assert v.outbounds == before.outbounds + [Proxy(last.tag, last.node, None)];
    assert v.outbounds[|before.outbounds|] == Proxy(last.tag, last.node, None);
    forall t | t in nodes ensures Proxy(t.tag, t.node, None) in v.outbounds {
      assert t in rest || t == last;
    }
    forall t | t in v.nodes ensures t in d.nodes || NodeTarget(t, v.nodes[t]) in nodes {
      if t == last.tag {
        assert nodes[|rest|] == NodeTarget(t, v.nodes[t]);
      } else if t !in d.nodes {
        assert NodeTarget(t, before.nodes[t]) in rest;
      }
    }
  }

  lemma {:induction false} NodesEmitted(d: Draft, nodes: seq<NodeTarget>)
    requires Fold(NodeAdder(), d, nodes).Ok?
    ensures NodesDone(d, nodes, Fold(NodeAdder(), d, nodes).value)
    decreases |nodes|
  {
    if nodes != [] {
      var rest, last := nodes[..|nodes| - 1], nodes[|nodes| - 1];
      NodesEmitted(d, rest);
      NodesDoneStep(d, rest, Fold(NodeAdder(), d, rest).value, last, Fold(NodeAdder(), d, nodes).value);
      SplitLast(nodes);
    }
  }

  function PoolTags(pools: seq<PoolTarget>): seq<string> {
    seq(|pools|, i requires 0 <= i < |pools| => pools[i].tag)
  }

  ghost predicate GroupEmitted(outs: seq<Outbound>, tag: string, autoTag: string, members: seq<string>,
      options: Options) {
    NormalizeOptions(options).Ok? &&
    var o := NormalizeOptions(options).value;
    && UrlTest(autoTag, members, o) in outs
    && Selector(tag, [autoTag] + members + [BLOCK], BLOCK, o.interrupt) in outs
  }

  lemma GroupStays(outs: seq<Outbound>, more: seq<Outbound>, tag: string, autoTag: string, members: seq<string>,
      options: Options)
    requires outs <= more && GroupEmitted(outs, tag, autoTag, members, options)
    ensures GroupEmitted(more, tag, autoTag, members, options)
  {
  }

  lemma OnePoolEmitted(d: Draft, t: PoolTarget)
    requires AddPool(d, t).Ok?
    ensures
      var v := AddPool(d, t).value;
      && Grows(d, v) && v.nodes == d.nodes && v.roots == d.roots + [t.tag]
      && GroupEmitted(v.outbounds, t.tag, t.autoTag, t.nodeTags, t.options)
      && (GroupsFilled(d.outbounds) ==> GroupsFilled(v.outbounds))
  {
    var v := AddPool(d, t).value;
    var o := NormalizeOptions(t.options).value;
    var group := Group(t.tag, t.autoTag, t.nodeTags, o);
    assert v.outbounds == d.outbounds + group;
    assert v.outbounds[|d.outbounds|] == group[0] && v.outbounds[|d.outbounds| + 1] == group[1];
  }

  ghost predicate PoolsDone(d: Draft, pools: seq<PoolTarget>, v: Draft) {
    && Grows(d, v) && v.nodes == d.nodes && v.roots == d.roots + PoolTags(pools)
    && (forall t :: t in pools ==> GroupEmitted(v.outbounds, t.tag, t.autoTag, t.nodeTags, t.options))
    && (GroupsFilled(d.outbounds) ==> GroupsFilled(v.outbounds))
  }

  lemma PoolsDoneStep(d: Draft, rest: seq<PoolTarget>, before: Draft, last: PoolTarget, v: Draft)
    requires PoolsDone(d, rest, before) && AddPool(before, last) == Ok(v)
    ensures PoolsDone(d, rest + [last], v)
  {
    OnePoolEmitted(before, last);
    assert PoolTags(rest + [last]) == PoolTags(rest) + [last.tag];
    forall t | t in rest ensures GroupEmitted(v.outbounds, t.tag, t.autoTag, t.nodeTags, t.options) {
      GroupStays(before.outbounds, v.outbounds, t.tag, t.autoTag, t.nodeTags, t.options);
    }
  }

  lemma {:induction false} PoolsEmitted(d: Draft, pools: seq<PoolTarget>)
    requires Fold(PoolAdder(), d, pools).Ok?
    ensures PoolsDone(d, pools, Fold(PoolAdder(), d, pools).value)
    decreases |pools|
  {
    if pools != [] {
      var rest, last := pools[..|pools| - 1], pools[|pools| - 1];
      PoolsEmitted(d, rest);
      PoolsDoneStep(d, rest, Fold(PoolAdder(), d, rest).value, last, Fold(PoolAdder(), d, pools).value);
      SplitLast(pools);
    }
  }

  /** Traffic for the member's tag is dialled to the exit node through a copy of the entry node. */
  ghost predicate HopEmitted(outs: seq<Outbound>, exit: Node, member: NodeTarget) {
    exists entryTag :: Proxy(entryTag, member.node, None) in outs && Proxy(member.tag, exit, Some(entryTag)) in outs
  }

  lemma EntryEmitted(d: Draft, exit: Node, member: NodeTarget)
    requires AddEntry(d, exit, member).Ok?
    ensures
      var v := AddEntry(d, exit, member).value;
      && Grows(d, v) && v.nodes == d.nodes && v.roots == d.roots
      && HopEmitted(v.outbounds, exit, member) && (GroupsFilled(d.outbounds) ==> GroupsFilled(v.outbounds))
  {
    var v := AddEntry(d, exit, member).value;
    var entryTag := FreshTags.FreshTag(member.tag + "-entry", d.reserved + {member.tag});
    assert v.outbounds[|d.outbounds|] == Proxy(entryTag, member.node, None);
    assert v.outbounds[|d.outbounds| + 1] == Proxy(member.tag, exit, Some(entryTag));
  }

  lemma {:induction false} EntriesEmitted(d: Draft, exit: Node, members: seq<NodeTarget>)
    requires Fold(EntryAdder(exit), d, members).Ok?
    ensures
      var v := Fold(EntryAdder(exit), d, members).value;
      && Grows(d, v) && v.nodes == d.nodes && v.roots == d.roots
      && (forall m :: m in members ==> HopEmitted(v.outbounds, exit, m))
      && (GroupsFilled(d.outbounds) ==> GroupsFilled(v.outbounds))
    decreases |members|
  {
    if members != [] {
      var rest, last := members[..|members| - 1], members[|members| - 1];
      EntriesEmitted(d, exit, rest);
      var before := Fold(EntryAdder(exit), d, rest).value;
      EntryEmitted(before, exit, last);
      HopsStay(before.outbounds, Fold(EntryAdder(exit), d, members).value.outbounds, exit, rest);
      SplitLast(members);
    }
  }

  lemma HopsStay(outs: seq<Outbound>, more: seq<Outbound>, exit: Node, members: seq<NodeTarget>)
    requires outs <= more && forall m :: m in members ==> HopEmitted(outs, exit, m)
    ensures forall m :: m in members ==> HopEmitted(more, exit, m)
  {
    forall m | m in members ensures HopEmitted(more, exit, m) {
      var e :| Proxy(e, m.node, None) in outs && Proxy(m.tag, exit, Some(e)) in outs;
      assert Proxy(e, m.node, None) in more && Proxy(m.tag, exit, Some(e)) in more;
    }
  }

  ghost predicate ChainEmitted(outs: seq<Outbound>, nodes: map<string, Node>, t: ChainTarget) {
    && t.members != []
    && t.exitTag in nodes
    && (forall m :: m in t.members ==> HopEmitted(outs, nodes[t.exitTag], m))
    && (|t.members| == 1 ==> t.members[0].tag == t.tag)
    && (|t.members| > 1 ==> t.options.Some? && GroupEmitted(outs, t.tag, t.autoTag, TagsOf(t.members), t.options.value))
  }

  lemma OneChainEmitted(d: Draft, t: ChainTarget)
    requires AddChain(d, t).Ok?
    ensures
      var v := AddChain(d, t).value;
      && Grows(d, v) && v.nodes == d.nodes && v.roots == d.roots + [t.tag]
      && ChainEmitted(v.outbounds, v.nodes, t) && (GroupsFilled(d.outbounds) ==> GroupsFilled(v.outbounds))
  {
    var v, exit := AddChain(d, t).value, d.nodes[t.exitTag];
    if |t.members| == 1 {
      EntryEmitted(d, exit, t.members[0]);
    } else {
      var r := ReserveTwo(d, t.autoTag, t.tag).value;
      EntriesEmitted(r, exit, t.members);
      var all := Fold(EntryAdder(exit), r, t.members).value;
      var o := NormalizeOptions(t.options.value).value;
      assert v.outbounds[|all.outbounds|] == UrlTest(t.autoTag, TagsOf(t.members), o);
      assert v.outbounds[|all.outbounds| + 1] == Group(t.tag, t.autoTag, TagsOf(t.members), o)[1];
      HopsStay(all.outbounds, v.outbounds, exit, t.members);
    }
  }

  function ChainTags(chains: seq<ChainTarget>): seq<string> {
    seq(|chains|, i requires 0 <= i < |chains| => chains[i].tag)
  }

  ghost predicate ChainsDone(d: Draft, chains: seq<ChainTarget>, v: Draft) {
    && Grows(d, v) && v.nodes == d.nodes && v.roots == d.roots + ChainTags(chains)
    && (forall t :: t in chains ==> ChainEmitted(v.outbounds, v.nodes, t))
    && (GroupsFilled(d.outbounds) ==> GroupsFilled(v.outbounds))
  }

  lemma ChainsDoneStep(d: Draft, rest: seq<ChainTarget>, before: Draft, last: ChainTarget, v: Draft)
    requires ChainsDone(d, rest, before) && AddChain(before, last) == Ok(v)
    ensures ChainsDone(d, rest + [last], v)
  {
    OneChainEmitted(before, last);
    assert ChainTags(rest + [last]) == ChainTags(rest) + [last.tag];
    forall t | t in rest ensures ChainEmitted(v.outbounds, v.nodes, t) {
      HopsStay(before.outbounds, v.outbounds, before.nodes[t.exitTag], t.members);
    }
  }

  lemma {:induction false} ChainsEmitted(d: Draft, chains: seq<ChainTarget>)
    requires Fold(ChainAdder(), d, chains).Ok?
    ensures ChainsDone(d, chains, Fold(ChainAdder(), d, chains).value)
    decreases |chains|
  {
    if chains != [] {
      var rest, last := chains[..|chains| - 1], chains[|chains| - 1];
      ChainsEmitted(d, rest);
      ChainsDoneStep(d, rest, Fold(ChainAdder(), d, rest).value, last, Fold(ChainAdder(), d, chains).value);
      SplitLast(chains);
    }
  }

  ghost predicate TargetsEmitted(x: Input, outs: seq<Outbound>) {
    && (forall t :: t in x.nodes ==> Proxy(t.tag, t.node, None) in outs)
    && (forall t :: t in x.pools ==> GroupEmitted(outs, t.tag, t.autoTag, t.nodeTags, t.options))
    && (forall t :: t in x.chains ==>
          exists exit :: NodeTarget(t.exitTag, exit) in x.nodes && ChainEmitted(outs, map[t.exitTag := exit], t))
  }

  lemma ChainsHaveExits(nodes: seq<NodeTarget>, known: map<string, Node>, outs: seq<Outbound>, chains: seq<ChainTarget>)
    requires forall t :: t in known ==> NodeTarget(t, known[t]) in nodes
    requires forall t :: t in chains ==> ChainEmitted(outs, known, t)
    ensures forall t :: t in chains ==>
      exists exit :: NodeTarget(t.exitTag, exit) in nodes && ChainEmitted(outs, map[t.exitTag := exit], t)
  {
    forall t | t in chains
      ensures exists exit :: NodeTarget(t.exitTag, exit) in nodes && ChainEmitted(outs, map[t.exitTag := exit], t)
    {
      var exit := known[t.exitTag];
      assert NodeTarget(t.exitTag, exit) in nodes;
      assert ChainEmitted(outs, map[t.exitTag := exit], t);
    }
  }

  lemma DoneHoldsTargets(x: Input, withNodes: Draft, withPools: Draft, d: Draft)
    requires NodesDone(START, x.nodes, withNodes)
    requires PoolsDone(withNodes, x.pools, withPools)
    requires ChainsDone(withPools, x.chains, d)
    ensures TargetsEmitted(x, d.outbounds) && GroupsFilled(d.outbounds)
    ensures d.roots == TagsOf(x.nodes) + PoolTags(x.pools) + ChainTags(x.chains)
  {
    forall t | t in x.nodes ensures Proxy(t.tag, t.node, None) in d.outbounds {
      assert Proxy(t.tag, t.node, None) in withPools.outbounds;
    }
    forall t | t in x.pools ensures GroupEmitted(d.outbounds, t.tag, t.autoTag, t.nodeTags, t.options) {
      GroupStays(withPools.outbounds, d.outbounds, t.tag, t.autoTag, t.nodeTags, t.options);
    }
    ChainsHaveExits(x.nodes, withNodes.nodes, d.outbounds, x.chains);
  }

  lemma DraftHoldsTargets(x: Input)
    requires Targets(x).Ok?
    ensures
      var d := Targets(x).value;
      && TargetsEmitted(x, d.outbounds) && GroupsFilled(d.outbounds)
      && d.roots == TagsOf(x.nodes) + PoolTags(x.pools) + ChainTags(x.chains)
  {
    var withNodes := Fold(NodeAdder(), START, x.nodes).value;
    var withPools := Fold(PoolAdder(), withNodes, x.pools).value;
    NodesEmitted(START, x.nodes);
    PoolsEmitted(withNodes, x.pools);
    ChainsEmitted(withPools, x.chains);
    DoneHoldsTargets(x, withNodes, withPools, Targets(x).value);
  }

  lemma NonEmptyGroups(x: Input, k: nat)
    requires ParsedInput(x) && Compile(x).Ok? && k < |Compile(x).value.outbounds|
    ensures
      var o := Compile(x).value.outbounds[k];
      o.UrlTest? || o.Selector? ==> o.Refs() != []
  {
    DraftHoldsTargets(x);
    var outs := Targets(x).value.outbounds;
    assert k < |outs| ==> HasGroupRefs(outs[k]);
  }

  lemma TargetsStay(x: Input, outs: seq<Outbound>, more: seq<Outbound>)
    requires outs <= more && TargetsEmitted(x, outs)
    ensures TargetsEmitted(x, more)
  {
    forall t | t in x.pools ensures GroupEmitted(more, t.tag, t.autoTag, t.nodeTags, t.options) {
      GroupStays(outs, more, t.tag, t.autoTag, t.nodeTags, t.options);
    }
    forall t | t in x.chains
      ensures exists exit :: NodeTarget(t.exitTag, exit) in x.nodes && ChainEmitted(more, map[t.exitTag := exit], t)
    {
      var exit :| NodeTarget(t.exitTag, exit) in x.nodes && ChainEmitted(outs, map[t.exitTag := exit], t);
      HopsStay(outs, more, exit, t.members);
      assert ChainEmitted(more, map[t.exitTag := exit], t);
    }
  }

  /**
   Nothing is lost: each node, pool and chain of an accepted input is in the
   graph as itself, and the root offers exactly them, direct and block, with the
   requested one as its default.
   */
  lemma EveryTargetIsEmitted(x: Input)
    requires ParsedInput(x) && Compile(x).Ok?
    ensures
      var outs := Compile(x).value.outbounds;
      && TargetsEmitted(x, outs)
      && Selector(PROXY, TagsOf(x.nodes) + PoolTags(x.pools) + ChainTags(x.chains) + [DIRECT, BLOCK], x.initial,
          false) in outs
  {
    DraftHoldsTargets(x);
    var d := Targets(x).value;
    var outs := Outbounds(d, x.initial);
    TargetsStay(x, d.outbounds, outs);
    assert outs[|d.outbounds|] == Selector(PROXY, d.roots + [DIRECT, BLOCK], x.initial, false);
  }

  // ----- routing

  ghost predicate RouteResolves(outs: seq<Outbound>, r: Rule) {
    r.Route? ==> Emitted(outs, r.outbound)
  }

  ghost predicate ChannelsDone(c: Channels, channels: seq<ChannelTarget>, v: Channels) {
    && v.known == c.known && |v.rules| == |c.rules| + |channels|
    && c.rules <= v.rules
    && (forall i :: 0 <= i < |channels| ==>
          channels[i].outboundTag in c.known
              && v.rules[|c.rules| + i] == Route(Some(channels[i].tag), "", channels[i].outboundTag))
    && (forall i, j :: 0 <= i < j < |channels| ==> channels[i].tag != channels[j].tag)
    && v.tags == c.tags + set i | 0 <= i < |channels| :: channels[i].tag
  }

  lemma ChannelsDoneStep(c: Channels, rest: seq<ChannelTarget>, before: Channels, last: ChannelTarget, v: Channels)
    requires ChannelsDone(c, rest, before) && AddChannel(before, last) == Ok(v)
    ensures ChannelsDone(c, rest + [last], v)
  {
    var channels := rest + [last];
    forall i | 0 <= i < |rest| ensures channels[i].tag != last.tag {
      assert rest[i].tag == channels[i].tag;
    }
    forall tag | tag in v.tags ensures tag in c.tags || exists i :: 0 <= i < |channels| && channels[i].tag == tag {
      if tag == last.tag {
        assert channels[|rest|].tag == tag;
      } else if tag !in c.tags {
        var i :| 0 <= i < |rest| && rest[i].tag == tag;
        assert channels[i].tag == tag;
      }
    }
  }

  lemma {:induction false} ChannelsRouted(c: Channels, channels: seq<ChannelTarget>)
    requires Fold(ChannelAdder(), c, channels).Ok?
    ensures ChannelsDone(c, channels, Fold(ChannelAdder(), c, channels).value)
    decreases |channels|
  {
    if channels != [] {
      var rest, last := channels[..|channels| - 1], channels[|channels| - 1];
      ChannelsRouted(c, rest);
      ChannelsDoneStep(c, rest, Fold(ChannelAdder(), c, rest).value, last, Fold(ChannelAdder(), c, channels).value);
      SplitLast(channels);
    }
  }

  /** One rule for each channel, to the node it names. */
  ghost predicate ChannelRules(x: Input, outs: seq<Outbound>, rules: seq<Rule>) {
    && |rules| == |x.channels|
    && forall i :: 0 <= i < |rules| ==>
        && rules[i] == Route(Some(x.channels[i].tag), "", x.channels[i].outboundTag)
        && exists node :: Proxy(x.channels[i].outboundTag, node, None) in outs
  }

  /**
   The channel rules come before the user's, each channel goes to a node, and in
   TUN mode DNS is hijacked before every rule and sniffing comes last.
   */
  lemma RoutesAreOrdered(x: Input)
    requires ParsedInput(x) && Compile(x).Ok?
    ensures exists forChannels ::
      && ChannelRules(x, Compile(x).value.outbounds, forChannels)
      && Compile(x).value.rules ==
          if x.mode == Cidr.Tun then [HijackDns] + (forChannels + x.routeRules) + [Sniff]
              else forChannels + x.routeRules
  {
    TargetsKeepInv(x);
    var d := Targets(x).value;
    var outs := Compile(x).value.outbounds;
    ChannelsRouted(NoChannels(x, d), x.channels);
    var c := Fold(ChannelAdder(), NoChannels(x, d), x.channels).value;
    forall i | 0 <= i < |c.rules|
      ensures c.rules[i] == Route(Some(x.channels[i].tag), "", x.channels[i].outboundTag)
      ensures exists node :: Proxy(x.channels[i].outboundTag, node, None) in outs
    {
      assert c.rules[|NoChannels(x, d).rules| + i] == c.rules[i];
      var o := Proxy(x.channels[i].outboundTag, d.nodes[x.channels[i].outboundTag], None);
      assert o in d.outbounds;
      assert o in outs;
    }
    assert ChannelRules(x, outs, c.rules);
  }

  lemma ChannelRulesResolve(x: Input, outs: seq<Outbound>, rules: seq<Rule>)
    requires ChannelRules(x, outs, rules)
    ensures forall r :: r in rules ==> RouteResolves(outs, r)
  {
    forall r | r in rules ensures RouteResolves(outs, r) {
      var i :| 0 <= i < |rules| && rules[i] == r;
      var node :| Proxy(x.channels[i].outboundTag, node, None) in outs;
      var k :| 0 <= k < |outs| && outs[k] == Proxy(x.channels[i].outboundTag, node, None);
      assert outs[k].Tag() == r.outbound;
    }
  }

  /** Every outbound that a rule names is emitted, if the user's rules only name emitted ones. */
  lemma RoutesResolve(x: Input)
    requires ParsedInput(x) && Compile(x).Ok?
    requires forall r :: r in x.routeRules ==> RouteResolves(Compile(x).value.outbounds, r)
    ensures forall r :: r in Compile(x).value.rules ==> RouteResolves(Compile(x).value.outbounds, r)
  {
    RoutesAreOrdered(x);
    var rules, outs := Compile(x).value.rules, Compile(x).value.outbounds;
    var forChannels :|
      && ChannelRules(x, outs, forChannels)
      && rules == if x.mode == Cidr.Tun then [HijackDns] + (forChannels + x.routeRules) + [Sniff]
          else forChannels + x.routeRules;
    ChannelRulesResolve(x, outs, forChannels);
  }
}
