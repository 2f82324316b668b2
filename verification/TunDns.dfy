/**
 The DNS section compiled for TUN mode (internal/singbox/config.go, buildTUNDNS):
 a direct bootstrap resolver, the servers of the profile, and the fake-IP responder.
 */
module TunDns {
  import opened Common
  import opened FreshTags
  import Cidr

  datatype Kind = Udp | Tcp | Tls | Https | Quic | H3 | Local | Hosts

  /** `literal` is whether the address is an IP literal rather than a domain. */
  datatype Server = Server(tag: string, kind: Kind, address: string, literal: bool, port: Option<int>, detour: string)

  datatype FakeIP = FakeIP(enabled: bool, inet4: Cidr.Range, inet6: string)

  datatype Profile = Profile(servers: seq<Server>, final: string, strategy: string, fakeIP: FakeIP)

  datatype Compiled =
    | Resolver(tag: string, kind: Kind, resolver: Option<string>, address: Option<string>, port: Option<int>,
        detour: Option<string>)
    | FakeResponder(tag: string, inet4: Cidr.Range, inet6: string)

  datatype Section = Section(servers: seq<Compiled>, final: string, strategy: string, addressRule: Option<string>)

  const PROXY := "proxy"
  const BOOTSTRAP_ADDRESS := "223.5.5.5"

  predicate IsLocal(kind: Kind) {
    kind == Local || kind == Hosts
  }

  /** What dnsprofile's validateProfile guarantees about tags and detours. */
  ghost predicate ValidProfile(p: Profile) {
    && (forall i, j :: 0 <= i < j < |p.servers| ==> p.servers[i].tag != p.servers[j].tag)
    && (forall i :: 0 <= i < |p.servers| ==> p.servers[i].detour in ["", "proxy", "direct", "block"])
    && (exists i :: 0 <= i < |p.servers| && p.servers[i].tag == p.final)
  }

  function Tags(p: Profile): set<string> {
    set i | 0 <= i < |p.servers| :: p.servers[i].tag
  }

  function BootstrapTag(p: Profile): (tag: string)
    ensures tag !in Tags(p)
  {
    FreshTag("dns-bootstrap", Tags(p))
  }

  function FakeTag(p: Profile): string {
    p.final + "-fakeip"
  }

  function Bootstrap(p: Profile): Compiled {
    Resolver(BootstrapTag(p), Udp, None, Some(BOOTSTRAP_ADDRESS), None, None)
  }

  function CompileServer(s: Server, bootstrap: string): Compiled {
    if IsLocal(s.kind) then Resolver(s.tag, s.kind, None, None, None, None)
    else
      var detour :=
        if s.detour != "" then Some(s.detour)
        else if s.kind == Https || s.kind == Tls || s.kind == Quic || s.kind == H3 then Some(PROXY)
        else None;
      Resolver(s.tag, s.kind, if s.literal then None else Some(bootstrap), Some(s.address), s.port, detour)
  }

  function CompileServers(servers: seq<Server>, bootstrap: string): seq<Compiled> {
    seq(|servers|, i requires 0 <= i < |servers| => CompileServer(servers[i], bootstrap))
  }

  function BuildSection(p: Profile): Section {
    var fake := if p.fakeIP.enabled then [FakeResponder(FakeTag(p), p.fakeIP.inet4, p.fakeIP.inet6)] else [];
    Section([Bootstrap(p)] + CompileServers(p.servers, BootstrapTag(p)) + fake, p.final, p.strategy,
            if p.fakeIP.enabled then Some(FakeTag(p)) else None)
  }

  method BuildTunDns(p: Profile) returns (section: Section)
    ensures section == BuildSection(p)
  {
    var bootstrapTag := UniqueTag("dns-bootstrap", Tags(p));
    var servers := [Resolver(bootstrapTag, Udp, None, Some(BOOTSTRAP_ADDRESS), None, None)];
    for i := 0 to |p.servers|
      invariant servers == [Bootstrap(p)] + CompileServers(p.servers[..i], bootstrapTag)
    {
      var server := p.servers[i];
      var compiled := Resolver(server.tag, server.kind, None, None, None, None);
      if !IsLocal(server.kind) {
        if !server.literal {
          compiled := compiled.(resolver := Some(bootstrapTag));
        }
        compiled := compiled.(address := Some(server.address), port := server.port);
        if server.detour != "" {
          compiled := compiled.(detour := Some(server.detour));
        } else if server.kind == Https || server.kind == Tls || server.kind == Quic || server.kind == H3 {
          compiled := compiled.(detour := Some(PROXY));
        }
      }
      assert CompileServers(p.servers[..i + 1], bootstrapTag) ==
          CompileServers(p.servers[..i], bootstrapTag) + [compiled];
      servers := servers + [compiled];
    }
    TakeAll(p.servers);
    if p.fakeIP.enabled {
      servers := servers + [FakeResponder(FakeTag(p), p.fakeIP.inet4, p.fakeIP.inet6)];
    }
    section := Section(servers, p.final, p.strategy, if p.fakeIP.enabled then Some(FakeTag(p)) else None);
  }

  ghost predicate DistinctTags(servers: seq<Compiled>) {
    forall i, j :: 0 <= i < j < |servers| ==> servers[i].tag != servers[j].tag
  }

  /** The bootstrap tag ends in "bootstrap" or a digit, never in "-fakeip". */
  lemma BootstrapIsNotFake(p: Profile)
    ensures BootstrapTag(p) != FakeTag(p)
  {
    var b, f := BootstrapTag(p), FakeTag(p);
    assert f[|f| - 1] == 'p' && f[|f| - 2] == 'i';
    if "dns-bootstrap" in Tags(p) {
      var k := FirstFree("dns-bootstrap", Tags(p), 2);
      assert b[|b| - 1] == Decimal(k)[|Decimal(k)| - 1] == Digit(k % 10);
    } else {
      assert b[|b| - 2] == 'a';
    }
  }

  /** The tag of each compiled server. */
  lemma SectionTags(p: Profile)
    ensures
      var servers := BuildSection(p).servers;
      && |servers| == |p.servers| + 1 + (if p.fakeIP.enabled then 1 else 0)
      && servers[0].tag == BootstrapTag(p)
      && (forall i {:trigger p.servers[i]} :: 0 <= i < |p.servers| ==>
        servers[i + 1] == CompileServer(p.servers[i], BootstrapTag(p)))
      && (p.fakeIP.enabled ==> servers[|p.servers| + 1].tag == FakeTag(p))
  {
  }

  /**
   The compiled servers have distinct tags exactly when no configured server
   already has the tag made up for the fake-IP responder.
   */
  lemma TagsDistinctExactly(p: Profile)
    requires ValidProfile(p)
    ensures DistinctTags(BuildSection(p).servers) <==> !(p.fakeIP.enabled && FakeTag(p) in Tags(p))
  {
    var servers := BuildSection(p).servers;
    var n := |p.servers|;
    SectionTags(p);
    BootstrapIsNotFake(p);
    forall i | 1 <= i <= n ensures servers[i].tag == p.servers[i - 1].tag && servers[i].tag in Tags(p) {
      assert servers[i - 1 + 1] == CompileServer(p.servers[i - 1], BootstrapTag(p));
    }
    if p.fakeIP.enabled && FakeTag(p) in Tags(p) {
      var i :| 0 <= i < n && p.servers[i].tag == FakeTag(p);
      assert servers[i + 1].tag == servers[n + 1].tag;
    } else {
      forall i, j | 0 <= i < j < |servers| ensures servers[i].tag != servers[j].tag {
        if 1 <= i && j <= n {
          assert p.servers[i - 1].tag != p.servers[j - 1].tag;
        }
      }
    }
  }

  predicate Encrypted(kind: Kind) {
    kind == Tls || kind == Https || kind == Quic || kind == H3
  }

  /** `c` is server `s` in the compiled section, and looks up domains at the server called `bootstrap`. */
  predicate Compiles(s: Server, c: Compiled, bootstrap: string) {
    && c.Resolver? && c.tag == s.tag && c.kind == s.kind
    && (s.kind == Local || s.kind == Hosts ==>
          c.resolver.None? && c.address.None? && c.port.None? && c.detour.None?)
    && (s.kind != Local && s.kind != Hosts ==>
          && c.address == Some(s.address) && c.port == s.port
          && (c.resolver == Some(bootstrap) <==> !s.literal) && (c.resolver.None? <==> s.literal)
          && (s.detour != "" ==> c.detour == Some(s.detour))
          && (s.detour == "" ==> (c.detour == Some("proxy") <==> Encrypted(s.kind)))
          && (s.detour == "" ==> (c.detour.None? <==> !Encrypted(s.kind))))
  }

  /**
   The section holds a plain resolver at a fixed address, each server as configured, with encrypted ones sent through
   the proxy unless they say otherwise and domains looked up at the first, and the responder exactly if enabled.
   */
  lemma SectionIsAsConfigured(p: Profile)
    ensures
      var section, n := BuildSection(p), |p.servers|;
      && section.servers != []
      && section.servers[0] == Resolver(section.servers[0].tag, Udp, None, Some("223.5.5.5"), None, None)
      && |section.servers| == 1 + n + (if p.fakeIP.enabled then 1 else 0)
      && (forall i {:trigger p.servers[i]} :: 0 <= i < n ==>
            Compiles(p.servers[i], section.servers[i + 1], section.servers[0].tag))
      && (p.fakeIP.enabled ==>
            && section.servers[n + 1].FakeResponder? && section.servers[n + 1].tag == p.final + "-fakeip"
            && section.servers[n + 1].inet4 == p.fakeIP.inet4 && section.servers[n + 1].inet6 == p.fakeIP.inet6)
      && section.addressRule == (if p.fakeIP.enabled then Some(p.final + "-fakeip") else None)
      && section.final == p.final && section.strategy == p.strategy
  {
    SectionTags(p);
    forall i {:trigger p.servers[i]} | 0 <= i < |p.servers|
      ensures Compiles(p.servers[i], CompileServer(p.servers[i], BootstrapTag(p)), BootstrapTag(p))
    {
    }
  }

  /** A valid profile with a server that happens to be called like the responder for its final server. */
  const NAMESAKES := Profile(
    [Server("dns", Udp, "1.1.1.1", true, None, ""), Server("dns-fakeip", Udp, "8.8.8.8", true, None, "")],
    "dns", "prefer_ipv4", FakeIP(true, Cidr.ParsedRange(Cidr.Prefix(true, 0xC612_0000, 15)), "fc00::/18"))

  lemma MadeUpTagCanCollide()
    ensures ValidProfile(NAMESAKES) && !DistinctTags(BuildSection(NAMESAKES).servers)
    ensures
      var servers := BuildSection(NAMESAKES).servers;
      |servers| == 4 && servers[2].tag == servers[3].tag == "dns-fakeip"
  {
    assert NAMESAKES.servers[0].tag != NAMESAKES.servers[1].tag by {
      assert |"dns"| != |"dns-fakeip"|;
    }
    assert NAMESAKES.servers[0].tag == NAMESAKES.final;
    assert NAMESAKES.servers[1].tag == FakeTag(NAMESAKES);
    SectionTags(NAMESAKES);
    assert BuildSection(NAMESAKES).servers[1 + 1] == CompileServer(NAMESAKES.servers[1], BootstrapTag(NAMESAKES));
    TagsDistinctExactly(NAMESAKES);
  }
}
