/**
 The runtime config compiler (internal/singbox/config.go, BuildSelectableConfig):
 nodes, pools, chains and channels become one graph of tagged outbounds under the
 root selector "proxy".
 */
module RuntimeConfig {
  import opened Common
  import opened FreshTags
  import Cidr
  import TunDns

  const PROXY := "proxy"
  const DIRECT := "direct"
  const BLOCK := "block"
  const BASE := {PROXY, DIRECT, BLOCK}
  const SECOND := 1_000_000_000

  /** A node; `valid` is what ValidateNode says of it, `settings` all that is copied into the outbound. */
  datatype Node = Node(name: string, settings: string, valid: bool)

  datatype NodeTarget = NodeTarget(tag: string, node: Node)

  datatype Url = NoUrl | HttpsUrl(text: string) | OtherUrl(text: string)

  /** Durations are in nanoseconds, the tolerance in milliseconds. */
  datatype Options = Options(url: Url, interval: int, tolerance: int, idleTimeout: int, interrupt: bool)

  datatype PoolTarget = PoolTarget(tag: string, autoTag: string, nodeTags: seq<string>, options: Options)

  datatype ChainTarget = ChainTarget(
    tag: string, autoTag: string, members: seq<NodeTarget>, exitTag: string, options: Option<Options>)

  /** `wellFormed` is whether buildChannelInbound accepts the listener settings. */
  datatype ChannelTarget = ChannelTarget(tag: string, outboundTag: string, wellFormed: bool, settings: string)

  datatype Outbound =
    | Proxy(proxyTag: string, node: Node, detour: Option<string>)
    | UrlTest(testTag: string, tests: seq<string>, options: Options)
    | Selector(selectorTag: string, members: seq<string>, default: string, interrupt: bool)
    | Direct
    | Block
  {
    function Tag(): string {
      match this
      case Proxy(t, _, _) => t
      case UrlTest(t, _, _) => t
      case Selector(t, _, _, _) => t
      case Direct => DIRECT
      case Block => BLOCK
    }

    /** The outbounds this one refers to. */
    function Refs(): seq<string> {
      match this
      case Proxy(_, _, detour) => if detour.Some? then [detour.value] else []
      case UrlTest(_, tests, _) => tests
      case Selector(_, members, default, _) => members + [default]
      case Direct => []
      case Block => []
    }

    /** A ranking of the graph: every reference goes to a lower level. */
    function Level(): nat {
      match this
      case Proxy(_, _, detour) => if detour.Some? then 1 else 0
      case UrlTest(_, _, _) => 2
      case Selector(t, _, _, _) => if t == PROXY then 4 else 3
      case Direct => 0
      case Block => 0
    }
  }

  datatype Rule =
    | HijackDns
    | Sniff
    | Route(inbound: Option<string>, condition: string, outbound: string)

  datatype Inbound =
    | MixedInbound(listen: string)
    | TunInbound
    | LanInbound
    | ChannelInbound(channel: ChannelTarget)

  datatype Input = Input(
    nodes: seq<NodeTarget>, pools: seq<PoolTarget>, chains: seq<ChainTarget>, channels: seq<ChannelTarget>,
    initial: string, mode: Cidr.Mode, routeRules: seq<Rule>,
    controllerAddress: string, controllerSecret: string,
    dns: TunDns.Profile, tunAddress: Option<Cidr.Prefix>, allowLan: bool)

  /** Prefixes that came out of the parser. */
  ghost predicate ParsedInput(x: Input) {
    && (x.tunAddress.Some? ==> Cidr.ParsedWell(x.tunAddress.value))
    && (x.dns.fakeIP.inet4.ParsedRange? ==> Cidr.ParsedWell(x.dns.fakeIP.inet4.prefix))
  }

  datatype Config = Config(
    inbounds: seq<Inbound>, outbounds: seq<Outbound>, rules: seq<Rule>, final: string,
    dns: Option<TunDns.Section>, defaultResolver: Option<string>, controller: bool)

  datatype Error =
    | NoNodes | UnsupportedMode | HalfController | BadTunProfile
    | BlankTag | SameTags | DuplicateTag(tag: string) | InvalidNode(name: string)
    | TooFewMembers | UnknownTag(tag: string) | BadOptions
    | NoEntry | SingleTagMismatch | BadPoolChain | InitialUnavailable
    | BadChannel(tag: string) | DuplicateChannel(tag: string)

  /** strings.TrimSpace(s) == "" */
  predicate IsSpace(c: char) {
    || c in ['\t', '\n', '\U{0B}', '\U{0C}', '\r', ' ', '\U{85}', '\U{A0}', '\U{1680}']
    || '\U{2000}' <= c <= '\U{200A}'
    || c in ['\U{2028}', '\U{2029}', '\U{202F}', '\U{205F}', '\U{3000}']
  }

  predicate Blank(s: string) {
    forall i :: 0 <= i < |s| ==> IsSpace(s[i])
  }

  function NormalizeOptions(o: Options): Result<Options, Error> {
    if o.interval < 15 * SECOND || o.interval > 3600 * SECOND then Err(BadOptions)
    else if o.tolerance < 0 || o.tolerance > 1000 then Err(BadOptions)
    else
      var url := if o.url.NoUrl? then HttpsUrl("https://cp.cloudflare.com/generate_204") else o.url;
      if !url.HttpsUrl? then Err(BadOptions)
      else
        var idle := if o.idleTimeout == 0 then 1800 * SECOND else o.idleTimeout;
        if idle < 60 * SECOND || idle > 86400 * SECOND || o.interval > idle then Err(BadOptions)
        else Ok(o.(url := url, idleTimeout := idle))
  }

  // ----- one target at a time

  /** What the loops have built so far. */
  datatype Draft = Draft(reserved: set<string>, nodes: map<string, Node>, outbounds: seq<Outbound>, roots: seq<string>)

  const START := Draft(BASE, map[], [], [])

  function AddNode(d: Draft, t: NodeTarget): Result<Draft, Error> {
    if Blank(t.tag) then Err(BlankTag)
    else if t.tag in d.reserved then Err(DuplicateTag(t.tag))
    else if !t.node.valid then Err(InvalidNode(t.node.name))
    else Ok(Draft(d.reserved + {t.tag}, d.nodes[t.tag := t.node], d.outbounds + [Proxy(t.tag, t.node, None)],
        d.roots + [t.tag]))
  }

  /** The url test and the selector over a group; the selector blocks until a member is chosen. */
  function Group(tag: string, autoTag: string, members: seq<string>, o: Options): seq<Outbound> {
    [UrlTest(autoTag, members, o), Selector(tag, [autoTag] + members + [BLOCK], BLOCK, o.interrupt)]
  }

  function FirstUnknown(d: Draft, tags: seq<string>): Option<string> {
    if tags == [] then None
    else if tags[0] !in d.nodes then Some(tags[0])
    else FirstUnknown(d, tags[1..])
  }

  function ReserveTwo(d: Draft, first: string, second: string): Result<Draft, Error> {
    if first in d.reserved then Err(DuplicateTag(first))
    else if second in d.reserved + {first} then Err(DuplicateTag(second))
    else Ok(d.(reserved := d.reserved + {first, second}))
  }

  function AddPool(d: Draft, t: PoolTarget): Result<Draft, Error> {
    if Blank(t.tag) || Blank(t.autoTag) then Err(BlankTag)
    else if t.tag == t.autoTag then Err(SameTags)
    else
      var r :- ReserveTwo(d, t.autoTag, t.tag);
      if |t.nodeTags| < 2 then Err(TooFewMembers)
      else if FirstUnknown(d, t.nodeTags).Some? then Err(UnknownTag(FirstUnknown(d, t.nodeTags).value))
      else
        var o :- NormalizeOptions(t.options);
        Ok(r.(outbounds := d.outbounds + Group(t.tag, t.autoTag, t.nodeTags, o), roots := d.roots + [t.tag]))
  }

  /** One entry node of a chain: a copy of it, and the exit node dialled through that copy. */
  function AddEntry(d: Draft, exit: Node, member: NodeTarget): Result<Draft, Error> {
    if Blank(member.tag) then Err(BlankTag)
    else if member.tag in d.reserved then Err(DuplicateTag(member.tag))
    else
      var reserved := d.reserved + {member.tag};
      var entryTag := FreshTag(member.tag + "-entry", reserved);
      if !member.node.valid then Err(InvalidNode(member.node.name))
      else if !exit.valid then Err(InvalidNode(exit.name))
      else Ok(d.(reserved := reserved + {entryTag},
                 outbounds :=
                     d.outbounds + [Proxy(entryTag, member.node, None), Proxy(member.tag, exit, Some(entryTag))]))
  }

  function EntryAdder(exit: Node): (Draft, NodeTarget) -> Result<Draft, Error> {
    (d: Draft, member: NodeTarget) => AddEntry(d, exit, member)
  }

  function TagsOf(targets: seq<NodeTarget>): seq<string> {
    seq(|targets|, i requires 0 <= i < |targets| => targets[i].tag)
  }

  function AddChain(d: Draft, t: ChainTarget): Result<Draft, Error> {
    if Blank(t.tag) || Blank(t.exitTag) then Err(BlankTag)
    else if t.exitTag !in d.nodes then Err(UnknownTag(t.exitTag))
    else if t.members == [] then Err(NoEntry)
    else
      var exit := d.nodes[t.exitTag];
      if |t.members| == 1 then
        if t.members[0].tag != t.tag then Err(SingleTagMismatch)
        else
          var one :- AddEntry(d, exit, t.members[0]);
          Ok(one.(roots := d.roots + [t.tag]))
      else if Blank(t.autoTag) || t.tag == t.autoTag || t.options.None? then Err(BadPoolChain)
      else
        var r :- ReserveTwo(d, t.autoTag, t.tag);
        var all :- Fold(EntryAdder(exit), r, t.members);
        var o :- NormalizeOptions(t.options.value);
        Ok(all.(outbounds := all.outbounds + Group(t.tag, t.autoTag, TagsOf(t.members), o), roots := d.roots + [t.tag]))
  }

  /** Channel inbounds and their rules; `known` are the node tags. */
  datatype Channels = Channels(known: set<string>, inbounds: seq<Inbound>, rules: seq<Rule>, tags: set<string>)

  function AddChannel(c: Channels, t: ChannelTarget): Result<Channels, Error> {
    if Blank(t.tag) || Blank(t.outboundTag) then Err(BlankTag)
    else if t.tag in c.tags then Err(DuplicateChannel(t.tag))
    else if t.outboundTag !in c.known then Err(UnknownTag(t.outboundTag))
    else if !t.wellFormed then Err(BadChannel(t.tag))
    else Ok(c.(inbounds := c.inbounds + [ChannelInbound(t)],
               rules := c.rules + [Route(Some(t.tag), "", t.outboundTag)],
               tags := c.tags + {t.tag}))
  }

  function NodeAdder(): (Draft, NodeTarget) -> Result<Draft, Error> { (d: Draft, t: NodeTarget) => AddNode(d, t) }

  function PoolAdder(): (Draft, PoolTarget) -> Result<Draft, Error> { (d: Draft, t: PoolTarget) => AddPool(d, t) }

  function ChainAdder(): (Draft, ChainTarget) -> Result<Draft, Error> { (d: Draft, t: ChainTarget) => AddChain(d, t) }

  function ChannelAdder(): (Channels, ChannelTarget) -> Result<Channels, Error> {
    (c: Channels, t: ChannelTarget) => AddChannel(c, t)
  }

  function BaseInbounds(mode: Cidr.Mode, allowLan: bool): seq<Inbound> {
    if mode == Cidr.SystemProxy then [MixedInbound(if allowLan then "0.0.0.0" else "127.0.0.1")]
    else [TunInbound] + if allowLan && mode == Cidr.Tun then [LanInbound] else []
  }

  /** buildRoute: in TUN mode DNS is hijacked before any rule and sniffing comes last. */
  function RouteRules(mode: Cidr.Mode, rules: seq<Rule>): seq<Rule> {
    if mode == Cidr.Tun then [HijackDns] + rules + [Sniff] else rules
  }

  function Outbounds(d: Draft, initial: string): seq<Outbound> {
    d.outbounds + [Selector(PROXY, d.roots + [DIRECT, BLOCK], initial, false), Direct, Block]
  }

  function Assemble(x: Input, d: Draft, c: Channels): Config {
    Config(
      c.inbounds, Outbounds(d, x.initial), RouteRules(x.mode, c.rules + x.routeRules), PROXY,
      if x.mode == Cidr.Tun then Some(TunDns.BuildSection(x.dns)) else None,
      if x.mode == Cidr.Tun then Some(TunDns.BootstrapTag(x.dns)) else None,
      x.controllerAddress != "")
  }

  function Rejects(x: Input): Option<Error>
    requires ParsedInput(x)
  {
    if x.nodes == [] && x.initial != DIRECT then Some(NoNodes)
    else if x.mode.OtherMode? then Some(UnsupportedMode)
    else if (x.controllerAddress == "") != (x.controllerSecret == "") then Some(HalfController)
    else if Cidr.ValidateTun(x.mode, x.tunAddress, x.dns.fakeIP.enabled, x.dns.fakeIP.inet4).Some? then
      Some(BadTunProfile)
    else None
  }

  function Targets(x: Input): Result<Draft, Error> {
    var withNodes :- Fold(NodeAdder(), START, x.nodes);
    var withPools :- Fold(PoolAdder(), withNodes, x.pools);
    Fold(ChainAdder(), withPools, x.chains)
  }

  function NoChannels(x: Input, d: Draft): Channels {
    Channels(d.nodes.Keys, BaseInbounds(x.mode, x.allowLan), [], {})
  }

  function Compile(x: Input): Result<Config, Error>
    requires ParsedInput(x)
  {
    if Rejects(x).Some? then Err(Rejects(x).value)
    else
      var d :- Targets(x);
      if x.initial !in d.roots && x.initial != DIRECT then Err(InitialUnavailable)
      else
        var c :- Fold(ChannelAdder(), NoChannels(x, d), x.channels);
        Ok(Assemble(x, d, c))
  }

  // ----- the invariant of the loops

  ghost predicate Lower(outs: seq<Outbound>, o: Outbound, ref: string) {
    exists k :: 0 <= k < |outs| && outs[k].Tag() == ref && outs[k].Level() < o.Level()
  }

  ghost predicate RefsOk(outs: seq<Outbound>, o: Outbound) {
    forall b :: b in o.Refs() ==> b == BLOCK || Lower(outs, o, b)
  }

  /** The shape of an outbound below the root. */
  predicate BelowRoot(o: Outbound) {
    match o
    case Proxy(_, node, _) => node.valid
    case UrlTest(_, _, _) => true
    case Selector(_, members, default, _) => default == BLOCK && BLOCK in members
    case _ => false
  }

  ghost predicate Good(outs: seq<Outbound>, tags: set<string>) {
    && (forall i, j :: 0 <= i < j < |outs| ==> outs[i].Tag() != outs[j].Tag())
    && (forall i :: 0 <= i < |outs| ==> outs[i].Tag() in tags && outs[i].Tag() !in BASE)
    && (forall i :: 0 <= i < |outs| ==> RefsOk(outs, outs[i]) && BelowRoot(outs[i]))
  }

  ghost predicate Known(outs: seq<Outbound>, nodes: map<string, Node>) {
    forall t :: t in nodes ==> nodes[t].valid && Proxy(t, nodes[t], None) in outs
  }

  ghost predicate RootsOk(outs: seq<Outbound>, roots: seq<string>) {
    forall r :: r in roots ==> exists k :: 0 <= k < |outs| && outs[k].Tag() == r
  }

  ghost predicate Inv(d: Draft) {
    Good(d.outbounds, d.reserved) && Known(d.outbounds, d.nodes) && RootsOk(d.outbounds, d.roots) && BASE <= d.reserved
  }

  lemma GoodAppend(outs: seq<Outbound>, tags: set<string>, o: Outbound, more: set<string>)
    requires Good(outs, tags) && tags <= more
    requires o.Tag() in more && o.Tag() !in BASE && forall k :: 0 <= k < |outs| ==> outs[k].Tag() != o.Tag()
    requires RefsOk(outs, o) && BelowRoot(o)
    ensures Good(outs + [o], more)
  {
    var all := outs + [o];
    forall i, b | 0 <= i < |all| && b in all[i].Refs() && b != BLOCK ensures Lower(all, all[i], b) {
      assert Lower(outs, all[i], b);
      var k :| 0 <= k < |outs| && outs[k].Tag() == b && outs[k].Level() < all[i].Level();
      assert all[k] == outs[k];
    }
  }

  lemma StillThere(outs: seq<Outbound>, more: seq<Outbound>, nodes: map<string, Node>, roots: seq<string>)
    requires Known(outs, nodes) && RootsOk(outs, roots)
    ensures Known(outs + more, nodes) && RootsOk(outs + more, roots)
  {
    forall r | r in roots ensures exists k :: 0 <= k < |outs + more| && (outs + more)[k].Tag() == r {
      var k :| 0 <= k < |outs| && outs[k].Tag() == r;
      assert (outs + more)[k] == outs[k];
    }
  }

  lemma RootAdded(outs: seq<Outbound>, roots: seq<string>, k: nat)
    requires RootsOk(outs, roots) && k < |outs|
    ensures RootsOk(outs, roots + [outs[k].Tag()])
  {
  }

  lemma NodeKeepsInv(d: Draft, t: NodeTarget)
    requires Inv(d) && AddNode(d, t).Ok?
    ensures Inv(AddNode(d, t).value)
  {
    var o := Proxy(t.tag, t.node, None);
    GoodAppend(d.outbounds, d.reserved, o, d.reserved + {t.tag});
    StillThere(d.outbounds, [o], d.nodes, d.roots);
    var outs := d.outbounds + [o];
    assert outs[|d.outbounds|] == o;
    RootAdded(outs, d.roots, |d.outbounds|);
  }

  lemma {:induction false} NoneUnknown(d: Draft, tags: seq<string>)
    ensures FirstUnknown(d, tags).None? <==> forall t :: t in tags ==> t in d.nodes
  {
    if tags != [] {
      NoneUnknown(d, tags[1..]);
      assert forall t :: t in tags <==> t == tags[0] || t in tags[1..];
    }
  }

  /** A group over proxies keeps the invariant; its two tags are reserved but not yet used. */
  lemma GroupKeepsGood(outs: seq<Outbound>, tags: set<string>, tag: string, autoTag: string, members: seq<string>,
      o: Options)
    requires Good(outs, tags) && tag != autoTag
    requires tag in tags && autoTag in tags && tag !in BASE && autoTag !in BASE
    requires forall k :: 0 <= k < |outs| ==> outs[k].Tag() != tag && outs[k].Tag() != autoTag
    requires forall m :: m in members ==> exists k :: 0 <= k < |outs| && outs[k].Tag() == m && outs[k].Proxy?
    ensures Good(outs + Group(tag, autoTag, members, o), tags)
  {
    var test, selector := Group(tag, autoTag, members, o)[0], Group(tag, autoTag, members, o)[1];
    forall m | m in members ensures Lower(outs, test, m) {
      var k :| 0 <= k < |outs| && outs[k].Tag() == m && outs[k].Proxy?;
    }
    GoodAppend(outs, tags, test, tags);
    var some := outs + [test];
    forall b | b in selector.Refs() && b != BLOCK ensures Lower(some, selector, b) {
      if b == autoTag {
        assert some[|outs|] == test;
      } else {
        assert b in members;
        var k :| 0 <= k < |outs| && outs[k].Tag() == b && outs[k].Proxy?;
        assert some[k] == outs[k];
      }
    }
    GoodAppend(some, tags, selector, tags);
    assert some + [selector] == outs + Group(tag, autoTag, members, o);
  }

  lemma PoolKeepsInv(d: Draft, t: PoolTarget)
    requires Inv(d) && AddPool(d, t).Ok?
    ensures Inv(AddPool(d, t).value)
  {
    var v := AddPool(d, t).value;
    var o := NormalizeOptions(t.options).value;
    NoneUnknown(d, t.nodeTags);
    assert Good(d.outbounds, v.reserved);
    forall m | m in t.nodeTags
        ensures exists k :: 0 <= k < |d.outbounds| && d.outbounds[k].Tag() == m && d.outbounds[k].Proxy? {
      assert Proxy(m, d.nodes[m], None) in d.outbounds;
    }
    GroupKeepsGood(d.outbounds, v.reserved, t.tag, t.autoTag, t.nodeTags, o);
    StillThere(d.outbounds, Group(t.tag, t.autoTag, t.nodeTags, o), d.nodes, d.roots);
    assert v.outbounds[|d.outbounds| + 1].Tag() == t.tag;
    RootAdded(v.outbounds, d.roots, |d.outbounds| + 1);
  }

  ghost predicate Avoids(outs: seq<Outbound>, tags: set<string>) {
    forall k :: 0 <= k < |outs| ==> outs[k].Tag() !in tags
  }

  lemma EntryKeepsInv(d: Draft, exit: Node, member: NodeTarget, pending: set<string>)
    requires Inv(d) && AddEntry(d, exit, member).Ok?
    requires pending <= d.reserved && Avoids(d.outbounds, pending)
    ensures
      var v := AddEntry(d, exit, member).value;
      && Inv(v) && pending <= v.reserved && Avoids(v.outbounds, pending)
      && v.nodes == d.nodes && v.roots == d.roots && |v.outbounds| == |d.outbounds| + 2
      && v.outbounds[..|d.outbounds|] == d.outbounds
      && v.outbounds[|d.outbounds| + 1].Tag() == member.tag && v.outbounds[|d.outbounds| + 1].Proxy?
  {
    var v := AddEntry(d, exit, member).value;
    var first, second := v.outbounds[|d.outbounds|], v.outbounds[|d.outbounds| + 1];
    GoodAppend(d.outbounds, d.reserved, first, v.reserved);
    var some := d.outbounds + [first];
    assert some[|d.outbounds|] == first;
    assert Lower(some, second, first.Tag());
    GoodAppend(some, v.reserved, second, v.reserved);
    assert some + [second] == d.outbounds + [first, second] == v.outbounds;
    StillThere(d.outbounds, [first, second], d.nodes, d.roots);
  }

  lemma {:induction false} EntriesKeepInv(d: Draft, exit: Node, members: seq<NodeTarget>, pending: set<string>)
    requires Inv(d) && Fold(EntryAdder(exit), d, members).Ok?
    requires pending <= d.reserved && Avoids(d.outbounds, pending)
    ensures
      var v := Fold(EntryAdder(exit), d, members).value;
      && Inv(v) && pending <= v.reserved && Avoids(v.outbounds, pending)
      && v.nodes == d.nodes && v.roots == d.roots
      && (forall m :: m in members ==>
          exists k :: 0 <= k < |v.outbounds| && v.outbounds[k].Tag() == m.tag && v.outbounds[k].Proxy?)
    decreases |members|
  {
    if members != [] {
      var rest, last := members[..|members| - 1], members[|members| - 1];
      EntriesKeepInv(d, exit, rest, pending);
      var before := Fold(EntryAdder(exit), d, rest).value;
      EntryKeepsInv(before, exit, last, pending);
      var v := Fold(EntryAdder(exit), d, members).value;
      forall m | m in members
        ensures exists k :: 0 <= k < |v.outbounds| && v.outbounds[k].Tag() == m.tag && v.outbounds[k].Proxy?
      {
        if m in rest {
          var k :| 0 <= k < |before.outbounds| && before.outbounds[k].Tag() == m.tag && before.outbounds[k].Proxy?;
          assert v.outbounds[k] == before.outbounds[k];
        }
      }
    }
  }

  lemma ChainKeepsInv(d: Draft, t: ChainTarget)
    requires Inv(d) && AddChain(d, t).Ok?
    ensures Inv(AddChain(d, t).value)
  {
    var v := AddChain(d, t).value;
    var exit := d.nodes[t.exitTag];
    if |t.members| == 1 {
      EntryKeepsInv(d, exit, t.members[0], {});
      RootAdded(v.outbounds, d.roots, |d.outbounds| + 1);
    } else {
      var r := ReserveTwo(d, t.autoTag, t.tag).value;
      var pending := {t.autoTag, t.tag};
      assert Good(d.outbounds, r.reserved);
      EntriesKeepInv(r, exit, t.members, pending);
      var all := Fold(EntryAdder(exit), r, t.members).value;
      var o := NormalizeOptions(t.options.value).value;
      var names := TagsOf(t.members);
      forall m | m in names
        ensures exists k :: 0 <= k < |all.outbounds| && all.outbounds[k].Tag() == m && all.outbounds[k].Proxy?
      {
        var i :| 0 <= i < |names| && names[i] == m;
        assert t.members[i] in t.members;
      }
      GroupKeepsGood(all.outbounds, all.reserved, t.tag, t.autoTag, names, o);
      StillThere(all.outbounds, Group(t.tag, t.autoTag, names, o), all.nodes, all.roots);
      assert v.outbounds[|all.outbounds| + 1].Tag() == t.tag;
      RootAdded(v.outbounds, d.roots, |all.outbounds| + 1);
    }
  }

  lemma {:induction false} NodesKeepInv(d: Draft, nodes: seq<NodeTarget>)
    requires Inv(d) && Fold(NodeAdder(), d, nodes).Ok?
    ensures Inv(Fold(NodeAdder(), d, nodes).value)
    decreases |nodes|
  {
    if nodes != [] {
      NodesKeepInv(d, nodes[..|nodes| - 1]);
      NodeKeepsInv(Fold(NodeAdder(), d, nodes[..|nodes| - 1]).value, nodes[|nodes| - 1]);
    }
  }

  lemma {:induction false} PoolsKeepInv(d: Draft, pools: seq<PoolTarget>)
    requires Inv(d) && Fold(PoolAdder(), d, pools).Ok?
    ensures Inv(Fold(PoolAdder(), d, pools).value)
    decreases |pools|
  {
    if pools != [] {
      PoolsKeepInv(d, pools[..|pools| - 1]);
      PoolKeepsInv(Fold(PoolAdder(), d, pools[..|pools| - 1]).value, pools[|pools| - 1]);
    }
  }

  lemma {:induction false} ChainsKeepInv(d: Draft, chains: seq<ChainTarget>)
    requires Inv(d) && Fold(ChainAdder(), d, chains).Ok?
    ensures Inv(Fold(ChainAdder(), d, chains).value)
    decreases |chains|
  {
    if chains != [] {
      ChainsKeepInv(d, chains[..|chains| - 1]);
      ChainKeepsInv(Fold(ChainAdder(), d, chains[..|chains| - 1]).value, chains[|chains| - 1]);
    }
  }

  lemma TargetsKeepInv(x: Input)
    requires Targets(x).Ok?
    ensures Inv(Targets(x).value)
  {
    NodesKeepInv(START, x.nodes);
    var withNodes := Fold(NodeAdder(), START, x.nodes).value;
    PoolsKeepInv(withNodes, x.pools);
    ChainsKeepInv(Fold(PoolAdder(), withNodes, x.pools).value, x.chains);
  }

  // ----- the compiler itself

  method EmitNodes(start: Draft, nodes: seq<NodeTarget>) returns (r: Result<Draft, Error>)
    ensures r == Fold(NodeAdder(), start, nodes)
  {
    var d := start;
    for i := 0 to |nodes|
      invariant Fold(NodeAdder(), start, nodes[..i]) == Ok(d)
    {
      var target := nodes[i];
      FoldStep(NodeAdder(), start, nodes, i);
      if AddNode(d, target).Err? {
        FoldStops(NodeAdder(), start, nodes, i + 1);
      }
      if Blank(target.tag) {
        return Err(BlankTag);
      }
      if target.tag in d.reserved {
        return Err(DuplicateTag(target.tag));
      }
      if !target.node.valid {
        return Err(InvalidNode(target.node.name));
      }
      d := d.(reserved := d.reserved + {target.tag},
              nodes := d.nodes[target.tag := target.node],
              outbounds := d.outbounds + [Proxy(target.tag, target.node, None)],
              roots := d.roots + [target.tag]);
    }
    TakeAll(nodes);
    r := Ok(d);
  }

  /** The loop over the two tags of a group. */
  method Reserve(start: Draft, first: string, second: string) returns (r: Result<Draft, Error>)
    ensures r == ReserveTwo(start, first, second)
  {
    var reserved := start.reserved;
    var tags := [first, second];
    for i := 0 to 2
      invariant reserved == start.reserved + (if i > 0 then {first} else {}) + (if i > 1 then {second} else {})
      invariant i > 0 ==> first !in start.reserved
      invariant i > 1 ==> second !in start.reserved + {first}
    {
      if tags[i] in reserved {
        return Err(DuplicateTag(tags[i]));
      }
      reserved := reserved + {tags[i]};
    }
    assert reserved == start.reserved + {first, second};
    r := Ok(start.(reserved := reserved));
  }

  method EmitPool(start: Draft, target: PoolTarget) returns (r: Result<Draft, Error>)
    ensures r == AddPool(start, target)
  {
    if Blank(target.tag) || Blank(target.autoTag) {
      return Err(BlankTag);
    }
    if target.tag == target.autoTag {
      return Err(SameTags);
    }
    var d :- Reserve(start, target.autoTag, target.tag);
    if |target.nodeTags| < 2 {
      return Err(TooFewMembers);
    }
    for i := 0 to |target.nodeTags|
      invariant FirstUnknown(start, target.nodeTags) == FirstUnknown(start, target.nodeTags[i..])
    {
      if target.nodeTags[i] !in d.nodes {
        return Err(UnknownTag(target.nodeTags[i]));
      }
      assert target.nodeTags[i..][1..] == target.nodeTags[i + 1..];
    }
    var options :- NormalizeOptions(target.options);
    d := d.(outbounds := d.outbounds + [
              UrlTest(target.autoTag, target.nodeTags, options),
              Selector(target.tag, [target.autoTag] + target.nodeTags + [BLOCK], BLOCK, options.interrupt)],
            roots := d.roots + [target.tag]);
    r := Ok(d);
  }

  method EmitPools(start: Draft, pools: seq<PoolTarget>) returns (r: Result<Draft, Error>)
    ensures r == Fold(PoolAdder(), start, pools)
  {
    var d := start;
    for i := 0 to |pools|
      invariant Fold(PoolAdder(), start, pools[..i]) == Ok(d)
    {
      FoldStep(PoolAdder(), start, pools, i);
      if AddPool(d, pools[i]).Err? {
        FoldStops(PoolAdder(), start, pools, i + 1);
      }
      d :- EmitPool(d, pools[i]);
    }
    TakeAll(pools);
    r := Ok(d);
  }

  method EmitEntry(start: Draft, exit: Node, member: NodeTarget) returns (r: Result<Draft, Error>)
    ensures r == AddEntry(start, exit, member)
  {
    if Blank(member.tag) {
      return Err(BlankTag);
    }
    if member.tag in start.reserved {
      return Err(DuplicateTag(member.tag));
    }
    var reserved := start.reserved + {member.tag};
    var entryTag := UniqueTag(member.tag + "-entry", reserved);
    reserved := reserved + {entryTag};
    if !member.node.valid {
      return Err(InvalidNode(member.node.name));
    }
    if !exit.valid {
      return Err(InvalidNode(exit.name));
    }
    r := Ok(start.(reserved := reserved,
                   outbounds := start.outbounds
                     + [Proxy(entryTag, member.node, None), Proxy(member.tag, exit, Some(entryTag))]));
  }

  method EmitChain(start: Draft, target: ChainTarget) returns (r: Result<Draft, Error>)
    ensures r == AddChain(start, target)
  {
    if Blank(target.tag) || Blank(target.exitTag) {
      return Err(BlankTag);
    }
    if target.exitTag !in start.nodes {
      return Err(UnknownTag(target.exitTag));
    }
    var exit := start.nodes[target.exitTag];
    if |target.members| == 0 {
      return Err(NoEntry);
    }
    var d := start;
    if |target.members| == 1 {
      if target.members[0].tag != target.tag {
        return Err(SingleTagMismatch);
      }
      d :- EmitEntry(d, exit, target.members[0]);
    } else {
      if Blank(target.autoTag) || target.tag == target.autoTag || target.options.None? {
        return Err(BadPoolChain);
      }
      var reserved :- Reserve(d, target.autoTag, target.tag);
      d := reserved;
      var memberTags: seq<string> := [];
      for i := 0 to |target.members|
        invariant Fold(EntryAdder(exit), reserved, target.members[..i]) == Ok(d)
        invariant memberTags == TagsOf(target.members[..i])
      {
        FoldStep(EntryAdder(exit), reserved, target.members, i);
        if AddEntry(d, exit, target.members[i]).Err? {
          FoldStops(EntryAdder(exit), reserved, target.members, i + 1);
        }
        d :- EmitEntry(d, exit, target.members[i]);
        memberTags := memberTags + [target.members[i].tag];
      }
      TakeAll(target.members);
      var options :- NormalizeOptions(target.options.value);
      d := d.(outbounds := d.outbounds + [
                UrlTest(target.autoTag, memberTags, options),
                Selector(target.tag, [target.autoTag] + memberTags + [BLOCK], BLOCK, options.interrupt)]);
    }
    r := Ok(d.(roots := start.roots + [target.tag]));
  }

  method EmitChains(start: Draft, chains: seq<ChainTarget>) returns (r: Result<Draft, Error>)
    ensures r == Fold(ChainAdder(), start, chains)
  {
    var d := start;
    for i := 0 to |chains|
      invariant Fold(ChainAdder(), start, chains[..i]) == Ok(d)
    {
      FoldStep(ChainAdder(), start, chains, i);
      if AddChain(d, chains[i]).Err? {
        FoldStops(ChainAdder(), start, chains, i + 1);
      }
      d :- EmitChain(d, chains[i]);
    }
    TakeAll(chains);
    r := Ok(d);
  }

  method EmitChannels(start: Channels, channels: seq<ChannelTarget>) returns (r: Result<Channels, Error>)
    ensures r == Fold(ChannelAdder(), start, channels)
  {
    var c := start;
    for i := 0 to |channels|
      invariant Fold(ChannelAdder(), start, channels[..i]) == Ok(c)
    {
      var channel := channels[i];
      FoldStep(ChannelAdder(), start, channels, i);
      if AddChannel(c, channel).Err? {
        FoldStops(ChannelAdder(), start, channels, i + 1);
      }
      if Blank(channel.tag) || Blank(channel.outboundTag) {
        return Err(BlankTag);
      }
      if channel.tag in c.tags {
        return Err(DuplicateChannel(channel.tag));
      }
      if channel.outboundTag !in c.known {
        return Err(UnknownTag(channel.outboundTag));
      }
      if !channel.wellFormed {
        return Err(BadChannel(channel.tag));
      }
      c := c.(tags := c.tags + {channel.tag},
              inbounds := c.inbounds + [ChannelInbound(channel)],
              rules := c.rules + [Route(Some(channel.tag), "", channel.outboundTag)]);
    }
    TakeAll(channels);
    r := Ok(c);
  }

  method BuildSelectableConfig(x: Input) returns (r: Result<Config, Error>)
    requires ParsedInput(x)
    ensures r == Compile(x)
  {
    if |x.nodes| == 0 && x.initial != DIRECT {
      return Err(NoNodes);
    }
    if x.mode != Cidr.SystemProxy && x.mode != Cidr.Tun {
      return Err(UnsupportedMode);
    }
    if (x.controllerAddress == "") != (x.controllerSecret == "") {
      return Err(HalfController);
    }
    if Cidr.ValidateTun(x.mode, x.tunAddress, x.dns.fakeIP.enabled, x.dns.fakeIP.inet4).Some? {
      return Err(BadTunProfile);
    }
    var withNodes :- EmitNodes(START, x.nodes);
    var withPools :- EmitPools(withNodes, x.pools);
    var d :- EmitChains(withPools, x.chains);
    if x.initial !in d.roots && x.initial != DIRECT {
      return Err(InitialUnavailable);
    }
    var outbounds := d.outbounds + [Selector(PROXY, d.roots + [DIRECT, BLOCK], x.initial, false), Direct, Block];
    var c :- EmitChannels(NoChannels(x, d), x.channels);
    var rules := c.rules + x.routeRules;
    var dns: Option<TunDns.Section> := None;
    var resolver: Option<string> := None;
    if x.mode == Cidr.Tun {
      rules := [HijackDns] + rules + [Sniff];
      var section := TunDns.BuildTunDns(x.dns);
      dns, resolver := Some(section), Some(TunDns.BootstrapTag(x.dns));
    }
    r := Ok(Config(c.inbounds, outbounds, rules, PROXY, dns, resolver, x.controllerAddress != ""));
  }
}
