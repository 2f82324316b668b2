/**
 Name resolution in TUN mode: DNS servers and outbounds depend on each other
 through domain_resolver, detour, default_domain_resolver and selector membership
 (internal/singbox/config.go, buildTUNDNS and buildRoute). The combined graph has
 no cycle, so resolving a proxy's address never waits for that proxy.
 */
module ResolutionGraph {
  import opened Common
  import opened RuntimeConfig
  import OutboundGraph
  import Cidr
  import TunDns

  datatype Vertex = Dns(tag: string) | Out(tag: string)

  /** Outbounds that dial a server address or a destination, and may have to resolve it. */
  predicate Dials(o: Outbound) {
    o.Proxy? || o.Direct?
  }

  ghost predicate DependsOn(cfg: Config, a: Vertex, b: Vertex) {
    match (a, b)
    case (Out(t), Out(u)) => OutboundGraph.Edge(cfg.outbounds, t, u)
    case (Out(t), Dns(r)) =>
      cfg.defaultResolver == Some(r)
      && exists k ::
          0 <= k < |cfg.outbounds| && cfg.outbounds[k].Tag() == t && Dials(cfg.outbounds[k])
    case (Dns(s), Dns(r)) => cfg.dns.Some? && ServerNeeds(cfg.dns.value.servers, s, r)
    case (Dns(s), Out(d)) => cfg.dns.Some? && ServerDetours(cfg.dns.value.servers, s, d)
  }

  ghost predicate ServerNeeds(servers: seq<TunDns.Compiled>, tag: string, resolver: string) {
    exists i :: 0 <= i < |servers| && servers[i].tag == tag && servers[i].Resolver?
        && servers[i].resolver == Some(resolver)
  }

  ghost predicate ServerDetours(servers: seq<TunDns.Compiled>, tag: string, detour: string) {
    exists i :: 0 <= i < |servers| && servers[i].tag == tag && servers[i].Resolver? && servers[i].detour == Some(detour)
  }

  /** The ranking: the bootstrap resolver, then the outbounds by level, then the other DNS servers. */
  ghost predicate At(cfg: Config, bootstrap: string, v: Vertex, rank: nat) {
    match v
    case Dns(t) => rank == if t == bootstrap then 0 else 6
    case Out(t) => rank >= 1 && OutboundGraph.LevelOf(cfg.outbounds, t, rank - 1)
  }

  ghost predicate TunInput(x: Input) {
    ParsedInput(x) && x.mode == Cidr.Tun && Compile(x).Ok? && TunDns.ValidProfile(x.dns)
  }

  lemma BootstrapNeedsNothing(x: Input, b: Vertex)
    requires TunInput(x)
    ensures !DependsOn(Compile(x).value, Dns(TunDns.BootstrapTag(x.dns)), b)
  {
    var servers := TunDns.BuildSection(x.dns).servers;
    TunDns.SectionTags(x.dns);
    TunDns.BootstrapIsNotFake(x.dns);
    forall i | 1 <= i < |servers| ensures servers[i].tag != TunDns.BootstrapTag(x.dns) {
      if i <= |x.dns.servers| {
        assert x.dns.servers[i - 1].tag in TunDns.Tags(x.dns);
        assert servers[i - 1 + 1] == TunDns.CompileServer(x.dns.servers[i - 1], TunDns.BootstrapTag(x.dns));
      }
    }
  }

  /** What a compiled server refers to: at most the bootstrap resolver and an emitted outbound. */
  lemma ServersReferWell(x: Input, i: nat)
    requires TunInput(x) && i < |Compile(x).value.dns.value.servers|
    ensures
      var s := Compile(x).value.dns.value.servers[i];
      s.Resolver? ==>
        && (s.resolver.Some? ==> s.resolver.value == TunDns.BootstrapTag(x.dns))
        && (s.detour.Some? ==> s.detour.value == PROXY || s.detour.value == DIRECT || s.detour.value == BLOCK)
  {
    TunDns.SectionTags(x.dns);
    if 1 <= i <= |x.dns.servers| {
      assert x.dns.servers[i - 1].detour in ["", "proxy", "direct", "block"];
      var servers := Compile(x).value.dns.value.servers;
      assert servers[i - 1 + 1] == TunDns.CompileServer(x.dns.servers[i - 1], TunDns.BootstrapTag(x.dns));
    }
  }

  lemma HasLevel(outs: seq<Outbound>, tag: string) returns (level: nat)
    requires OutboundGraph.Emitted(outs, tag)
    ensures OutboundGraph.LevelOf(outs, tag, level) && level <= 4
  {
    var k :| 0 <= k < |outs| && outs[k].Tag() == tag;
    level := outs[k].Level();
  }

  lemma DependenciesDescend(x: Input, a: Vertex, ra: nat, b: Vertex) returns (rb: nat)
    requires TunInput(x)
    requires At(Compile(x).value, TunDns.BootstrapTag(x.dns), a, ra) && DependsOn(Compile(x).value, a, b)
    ensures At(Compile(x).value, TunDns.BootstrapTag(x.dns), b, rb) && rb < ra
  {
    OutboundGraph.AcceptedConfigIsWellFormed(x);
    var cfg := Compile(x).value;
    var outs := cfg.outbounds;
    match (a, b)
    case (Out(t), Out(u)) =>
      var k :| 0 <= k < |outs| && outs[k].Tag() == t && u in outs[k].Refs();
      assert Lower(outs, outs[k], u);
      var m :| 0 <= m < |outs| && outs[m].Tag() == u && outs[m].Level() < outs[k].Level();
      rb := outs[m].Level() + 1;
    case (Out(t), Dns(r)) =>
      rb := 0;
    case (Dns(s), Dns(r)) =>
      BootstrapNeedsNothing(x, b);
      var servers := cfg.dns.value.servers;
      var i :| 0 <= i < |servers| && servers[i].tag == s && servers[i].Resolver? && servers[i].resolver == Some(r);
      ServersReferWell(x, i);
      rb := 0;
    case (Dns(s), Out(d)) =>
      BootstrapNeedsNothing(x, b);
      var servers := cfg.dns.value.servers;
      var i :| 0 <= i < |servers| && servers[i].tag == s && servers[i].Resolver? && servers[i].detour == Some(d);
      ServersReferWell(x, i);
      var level := HasLevel(outs, d);
      rb := level + 1;
  }

  ghost predicate Chain(cfg: Config, p: seq<Vertex>) {
    |p| >= 1 && forall i :: 0 <= i < |p| - 1 ==> DependsOn(cfg, p[i], p[i + 1])
  }

  lemma {:induction false} RanksDescend(x: Input, p: seq<Vertex>, first: nat) returns (last: nat)
    requires TunInput(x) && Chain(Compile(x).value, p)
    requires At(Compile(x).value, TunDns.BootstrapTag(x.dns), p[0], first)
    ensures At(Compile(x).value, TunDns.BootstrapTag(x.dns), p[|p| - 1], last)
    ensures last + |p| <= first + 1
    decreases |p|
  {
    if |p| == 1 {
      last := first;
    } else {
      var cfg := Compile(x).value;
      assert DependsOn(cfg, p[0], p[0 + 1]);
      var second := DependenciesDescend(x, p[0], first, p[1]);
      forall i | 0 <= i < |p[1..]| - 1 ensures DependsOn(cfg, p[1..][i], p[1..][i + 1]) {
        assert DependsOn(cfg, p[i + 1], p[i + 1 + 1]);
      }
      last := RanksDescend(x, p[1..], second);
    }
  }

  lemma StartsSomewhere(x: Input, a: Vertex, b: Vertex) returns (rank: nat)
    requires TunInput(x) && DependsOn(Compile(x).value, a, b)
    ensures At(Compile(x).value, TunDns.BootstrapTag(x.dns), a, rank) && rank <= 6
  {
    if a.Dns? {
      rank := if a.tag == TunDns.BootstrapTag(x.dns) then 0 else 6;
    } else {
      var outs := Compile(x).value.outbounds;
      var k :| 0 <= k < |outs| && outs[k].Tag() == a.tag;
      rank := outs[k].Level() + 1;
    }
  }

  /**
   In TUN mode no chain of dependencies comes back to where it started, and none
   is longer than seven steps; the bootstrap resolver depends on nothing.
   */
  lemma ResolutionCannotDeadlock(x: Input, p: seq<Vertex>)
    requires TunInput(x) && |p| >= 2 && Chain(Compile(x).value, p)
    ensures p[0] != p[|p| - 1]
    ensures |p| <= 7
    ensures p[0] != Dns(TunDns.BootstrapTag(x.dns))
  {
    var cfg := Compile(x).value;
    assert DependsOn(cfg, p[0], p[0 + 1]);
    BootstrapNeedsNothing(x, p[1]);
    OutboundGraph.AcceptedConfigIsWellFormed(x);
    var first := StartsSomewhere(x, p[0], p[1]);
    var last := RanksDescend(x, p, first);
  }

  /**
   The independent bootstrap is needed: with the profile's final server as the
   default resolver, a final server that detours through the proxy makes a cycle
   with any node.
   */
  lemma FinalAsResolverWouldDeadlock(x: Input, i: nat)
    requires TunInput(x) && x.nodes != []
    requires i < |Compile(x).value.dns.value.servers|
    requires
      var s := Compile(x).value.dns.value.servers[i];
      s.Resolver? && s.tag == x.dns.final && s.detour == Some(PROXY)
    ensures
      var altered := Compile(x).value.(defaultResolver := Some(x.dns.final));
      Chain(altered, [Out(PROXY), Out(x.nodes[0].tag), Dns(x.dns.final), Out(PROXY)])
  {
    OutboundGraph.EveryTargetIsEmitted(x);
    var altered := Compile(x).value.(defaultResolver := Some(x.dns.final));
    var outs, tag := altered.outbounds, x.nodes[0].tag;
    var members :=
        TagsOf(x.nodes) + OutboundGraph.PoolTags(x.pools) + OutboundGraph.ChainTags(x.chains) + [DIRECT, BLOCK];
    var root := Selector(PROXY, members, x.initial, false);
    assert members[0] == tag;
    assert tag in root.Refs();
    var r :| 0 <= r < |outs| && outs[r] == root;
    assert OutboundGraph.Edge(outs, PROXY, tag);
    assert Proxy(tag, x.nodes[0].node, None) in outs;
    var k :| 0 <= k < |outs| && outs[k] == Proxy(tag, x.nodes[0].node, None);
    assert DependsOn(altered, Out(tag), Dns(x.dns.final));
    assert DependsOn(altered, Dns(x.dns.final), Out(PROXY));
  }
}
