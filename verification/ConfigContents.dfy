/**
 What else an accepted configuration holds besides its graph: its listeners, the
 options of its groups, how many outbounds it has, and what its input must have been.
 */
module ConfigContents {
  import opened Common
  import opened RuntimeConfig
  import Cidr
  import OutboundGraph
  import TunDns

  // ----- listeners

  /** The inbounds besides those of the channels, which come after them in their order. */
  ghost predicate HasInbounds(inbounds: seq<Inbound>, own: seq<Inbound>, channels: seq<ChannelTarget>) {
    && |inbounds| == |own| + |channels| && own <= inbounds
    && forall i :: 0 <= i < |channels| ==> inbounds[|own| + i] == ChannelInbound(channels[i])
  }

  lemma {:induction false} ChannelsListen(c: Channels, channels: seq<ChannelTarget>)
    requires Fold(ChannelAdder(), c, channels).Ok?
    ensures HasInbounds(Fold(ChannelAdder(), c, channels).value.inbounds, c.inbounds, channels)
    decreases |channels|
  {
    if channels != [] {
      ChannelsListen(c, channels[..|channels| - 1]);
    }
  }

  predicate Lan(i: Inbound) {
    i.LanInbound? || (i.MixedInbound? && i.listen == "0.0.0.0")
  }

  /**
   In system-proxy mode there is one mixed listener, on all addresses exactly if the LAN is allowed and otherwise on
   the loopback; in TUN mode there is the TUN device, and a listener for the LAN exactly if it is allowed.
   */
  predicate OwnListeners(x: Input, own: seq<Inbound>) {
    && (x.mode == Cidr.SystemProxy ==>
          |own| == 1 && own[0].MixedInbound? && own[0].listen == if x.allowLan then "0.0.0.0" else "127.0.0.1")
    && (x.mode == Cidr.Tun ==> 1 <= |own| <= 2 && own[0] == TunInbound && forall i :: 1 <= i < |own| ==> Lan(own[i]))
    && ((exists i :: 0 <= i < |own| && Lan(own[i])) <==> x.allowLan)
  }

  /** An accepted configuration has these listeners of its own, and then one for each channel, in order. */
  lemma ListenersExactly(x: Input)
    requires ParsedInput(x) && Compile(x).Ok?
    ensures exists own :: OwnListeners(x, own) && HasInbounds(Compile(x).value.inbounds, own, x.channels)
  {
    var start := NoChannels(x, Targets(x).value);
    ChannelsListen(start, x.channels);
    var own := start.inbounds;
    assert "0.0.0.0"[0] != "127.0.0.1"[0];
    assert x.allowLan && x.mode == Cidr.Tun ==> Lan(own[1]);
    assert x.allowLan && x.mode == Cidr.SystemProxy ==> Lan(own[0]);
    assert OwnListeners(x, own);
  }

  /** DNS is compiled in, with its own resolver, exactly in TUN mode, and the API exactly if it has an address. */
  lemma ServicesExactly(x: Input)
    requires ParsedInput(x) && Compile(x).Ok?
    ensures
      var c := Compile(x).value;
      && (c.dns.Some? <==> x.mode == Cidr.Tun) && (c.defaultResolver.Some? <==> x.mode == Cidr.Tun)
      && (c.dns.Some? ==>
            && c.dns.value.final == x.dns.final && c.dns.value.strategy == x.dns.strategy
            && c.dns.value.servers != [] && c.defaultResolver == Some(c.dns.value.servers[0].tag))
      && (c.controller <==> x.controllerAddress != "") && (c.controller <==> x.controllerSecret != "")
      && (x.mode == Cidr.SystemProxy || x.mode == Cidr.Tun)
  {
  }

  // ----- the options of a group

  /** The limits of a url test, in nanoseconds and milliseconds. */
  predicate OptionsAllowed(o: Options) {
    && 15 * SECOND <= o.interval <= 3600 * SECOND && 0 <= o.tolerance <= 1000
    && !o.url.OtherUrl?
    && (o.idleTimeout == 0 || 60 * SECOND <= o.idleTimeout <= 86400 * SECOND)
    && o.interval <= if o.idleTimeout == 0 then 1800 * SECOND else o.idleTimeout
  }

  /** Options normalise exactly within the limits, and only a missing URL and a missing idle timeout are filled in. */
  lemma OptionsNormaliseExactly(o: Options)
    ensures NormalizeOptions(o).Ok? <==> OptionsAllowed(o)
    ensures NormalizeOptions(o).Ok? ==>
              var n := NormalizeOptions(o).value;
              && n.interval == o.interval && n.tolerance == o.tolerance && n.interrupt == o.interrupt
              && n.url == (if o.url.NoUrl? then HttpsUrl("https://cp.cloudflare.com/generate_204") else o.url)
              && n.idleTimeout == (if o.idleTimeout == 0 then 1800 * SECOND else o.idleTimeout)
              && OptionsAllowed(n) && NormalizeOptions(n) == Ok(n)
  {
  }

  // ----- how many outbounds there are

  function ChainSize(t: ChainTarget): nat {
    2 * |t.members| + if |t.members| == 1 then 0 else 2
  }

  function ChainSizes(chains: seq<ChainTarget>): nat
    decreases |chains|
  {
    if chains == [] then 0 else ChainSizes(chains[..|chains| - 1]) + ChainSize(chains[|chains| - 1])
  }

  lemma {:induction false} NodesCount(d: Draft, nodes: seq<NodeTarget>)
    requires Fold(NodeAdder(), d, nodes).Ok?
    ensures |Fold(NodeAdder(), d, nodes).value.outbounds| == |d.outbounds| + |nodes|
    decreases |nodes|
  {
    if nodes != [] {
      NodesCount(d, nodes[..|nodes| - 1]);
    }
  }

  lemma {:induction false} PoolsCount(d: Draft, pools: seq<PoolTarget>)
    requires Fold(PoolAdder(), d, pools).Ok?
    ensures |Fold(PoolAdder(), d, pools).value.outbounds| == |d.outbounds| + 2 * |pools|
    decreases |pools|
  {
    if pools != [] {
      PoolsCount(d, pools[..|pools| - 1]);
    }
  }

  lemma {:induction false} EntriesCount(exit: Node, d: Draft, members: seq<NodeTarget>)
    requires Fold(EntryAdder(exit), d, members).Ok?
    ensures |Fold(EntryAdder(exit), d, members).value.outbounds| == |d.outbounds| + 2 * |members|
    decreases |members|
  {
    if members != [] {
      EntriesCount(exit, d, members[..|members| - 1]);
    }
  }

  lemma OneChainCounts(d: Draft, t: ChainTarget)
    requires AddChain(d, t).Ok?
    ensures |AddChain(d, t).value.outbounds| == |d.outbounds| + ChainSize(t)
  {
    if |t.members| != 1 {
      EntriesCount(d.nodes[t.exitTag], ReserveTwo(d, t.autoTag, t.tag).value, t.members);
    }
  }

  lemma {:induction false} ChainsCount(d: Draft, chains: seq<ChainTarget>)
    requires Fold(ChainAdder(), d, chains).Ok?
    ensures |Fold(ChainAdder(), d, chains).value.outbounds| == |d.outbounds| + ChainSizes(chains)
    decreases |chains|
  {
    if chains != [] {
      ChainsCount(d, chains[..|chains| - 1]);
      OneChainCounts(Fold(ChainAdder(), d, chains[..|chains| - 1]).value, chains[|chains| - 1]);
    }
  }

  /**
   One outbound a node, two a pool, two an entry node of a chain and two more for a group of them, and the root
   selector, direct and block; their tags differ, so nothing besides the targets is emitted.
   */
  lemma NothingElseIsEmitted(x: Input)
    requires ParsedInput(x) && Compile(x).Ok?
    ensures |Compile(x).value.outbounds| == |x.nodes| + 2 * |x.pools| + ChainSizes(x.chains) + 3
    ensures OutboundGraph.DistinctTags(Compile(x).value.outbounds)
  {
    var withNodes := Fold(NodeAdder(), START, x.nodes).value;
    NodesCount(START, x.nodes);
    PoolsCount(withNodes, x.pools);
    ChainsCount(Fold(PoolAdder(), withNodes, x.pools).value, x.chains);
    OutboundGraph.AcceptedConfigIsWellFormed(x);
  }

  // ----- what is accepted

  predicate NodeFine(t: NodeTarget) {
    !Blank(t.tag) && t.tag !in BASE && t.node.valid
  }

  ghost predicate PoolFine(nodes: seq<NodeTarget>, t: PoolTarget) {
    && !Blank(t.tag) && !Blank(t.autoTag) && t.tag != t.autoTag && |t.nodeTags| >= 2 && OptionsAllowed(t.options)
    && forall m :: m in t.nodeTags ==> m in TagsOf(nodes)
  }

  ghost predicate ChainFine(nodes: seq<NodeTarget>, t: ChainTarget) {
    && !Blank(t.tag) && t.exitTag in TagsOf(nodes) && t.members != []
    && (forall m :: m in t.members ==> !Blank(m.tag) && m.node.valid)
    && (|t.members| == 1 ==> t.members[0].tag == t.tag)
    && (|t.members| > 1 ==>
          !Blank(t.autoTag) && t.tag != t.autoTag && t.options.Some? && OptionsAllowed(t.options.value))
  }

  ghost predicate KnowsOnly(d: Draft, nodes: seq<NodeTarget>) {
    d.nodes.Keys == set t | t in TagsOf(nodes)
  }

  lemma {:induction false} NodesAreFine(nodes: seq<NodeTarget>)
    requires Fold(NodeAdder(), START, nodes).Ok?
    ensures
      var d := Fold(NodeAdder(), START, nodes).value;
      && BASE <= d.reserved && KnowsOnly(d, nodes)
      && forall t :: t in nodes ==> NodeFine(t)
    decreases |nodes|
  {
    if nodes == [] {
      assert TagsOf(nodes) == [];
    } else {
      var rest, last := nodes[..|nodes| - 1], nodes[|nodes| - 1];
      NodesAreFine(rest);
      SplitLast(nodes);
      assert TagsOf(nodes) == TagsOf(rest) + [last.tag];
    }
  }

  lemma {:induction false} NoneIsUnknown(d: Draft, tags: seq<string>)
    ensures FirstUnknown(d, tags).None? <==> forall t :: t in tags ==> t in d.nodes
  {
    if tags != [] {
      NoneIsUnknown(d, tags[1..]);
      assert tags == [tags[0]] + tags[1..];
    }
  }

  lemma OnePoolIsFine(nodes: seq<NodeTarget>, d: Draft, t: PoolTarget)
    requires AddPool(d, t).Ok? && KnowsOnly(d, nodes)
    ensures KnowsOnly(AddPool(d, t).value, nodes) && PoolFine(nodes, t)
  {
    NoneIsUnknown(d, t.nodeTags);
    OptionsNormaliseExactly(t.options);
  }

  lemma {:induction false} PoolsAreFine(nodes: seq<NodeTarget>, d: Draft, pools: seq<PoolTarget>)
    requires Fold(PoolAdder(), d, pools).Ok? && KnowsOnly(d, nodes)
    ensures KnowsOnly(Fold(PoolAdder(), d, pools).value, nodes)
    ensures forall t :: t in pools ==> PoolFine(nodes, t)
    decreases |pools|
  {
    if pools != [] {
      var rest, last := pools[..|pools| - 1], pools[|pools| - 1];
      PoolsAreFine(nodes, d, rest);
      SplitLast(pools);
      OnePoolIsFine(nodes, Fold(PoolAdder(), d, rest).value, last);
    }
  }

  lemma {:induction false} EntriesAreFine(exit: Node, d: Draft, members: seq<NodeTarget>)
    requires Fold(EntryAdder(exit), d, members).Ok?
    ensures Fold(EntryAdder(exit), d, members).value.nodes == d.nodes
    ensures forall m :: m in members ==> !Blank(m.tag) && m.node.valid
    decreases |members|
  {
    if members != [] {
      EntriesAreFine(exit, d, members[..|members| - 1]);
      SplitLast(members);
    }
  }

  lemma OneChainIsFine(nodes: seq<NodeTarget>, d: Draft, t: ChainTarget)
    requires AddChain(d, t).Ok? && KnowsOnly(d, nodes)
    ensures KnowsOnly(AddChain(d, t).value, nodes) && ChainFine(nodes, t)
  {
    if |t.members| != 1 {
      EntriesAreFine(d.nodes[t.exitTag], ReserveTwo(d, t.autoTag, t.tag).value, t.members);
      OptionsNormaliseExactly(t.options.value);
    }
  }

  lemma {:induction false} ChainsAreFine(nodes: seq<NodeTarget>, d: Draft, chains: seq<ChainTarget>)
    requires Fold(ChainAdder(), d, chains).Ok? && KnowsOnly(d, nodes)
    ensures forall t :: t in chains ==> ChainFine(nodes, t)
    ensures KnowsOnly(Fold(ChainAdder(), d, chains).value, nodes)
    decreases |chains|
  {
    if chains != [] {
      var rest, last := chains[..|chains| - 1], chains[|chains| - 1];
      ChainsAreFine(nodes, d, rest);
      SplitLast(chains);
      OneChainIsFine(nodes, Fold(ChainAdder(), d, rest).value, last);
    }
  }

  /** Whatever is accepted has sound nodes, pools and chains, and starts at a target it offers. */
  lemma AcceptedInputIsFine(x: Input)
    requires ParsedInput(x) && Compile(x).Ok?
    ensures forall t :: t in x.nodes ==> NodeFine(t)
    ensures forall t :: t in x.pools ==> PoolFine(x.nodes, t)
    ensures forall t :: t in x.chains ==> ChainFine(x.nodes, t)
    ensures
      || x.initial == DIRECT
      || x.initial in TagsOf(x.nodes) + OutboundGraph.PoolTags(x.pools) + OutboundGraph.ChainTags(x.chains)
    ensures x.nodes == [] ==> x.initial == DIRECT
  {
    var withNodes := Fold(NodeAdder(), START, x.nodes).value;
    NodesAreFine(x.nodes);
    PoolsAreFine(x.nodes, withNodes, x.pools);
    ChainsAreFine(x.nodes, Fold(PoolAdder(), withNodes, x.pools).value, x.chains);
    OutboundGraph.DraftHoldsTargets(x);
  }
}
