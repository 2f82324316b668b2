/**
 The whole configuration that is compiled for a catalog: the channels that the
 service adds to it (internal/control/service.go, buildRuntimeCatalog), and
 exactly when the compiler accepts all of it.
 */
module CatalogStarts {
  import opened Common
  import opened CatalogTags
  import opened RuntimeConfig
  import Cidr
  import TunDns
  import OutboundGraph
  import A = CatalogAccepted
  import C = RuntimeCatalog
  import K = CatalogCompiles
  import RC = RuntimeControl

  /** An enabled channel; `wellFormed` is whether its listener can be built. */
  datatype ChannelSource = ChannelSource(subscription: string, node: string, wellFormed: bool, settings: string)

  const CHANNEL := "runtime-channel-"

  function ChannelName(i: nat): string {
    CHANNEL + Pad3(i)
  }

  lemma ChannelNamesDiffer(i: nat, j: nat)
    requires ChannelName(i) == ChannelName(j)
    ensures i == j
  {
    assert ChannelName(i)[|CHANNEL|..] == Pad3(i) && ChannelName(j)[|CHANNEL|..] == Pad3(j);
    Pad3Injective(i, j);
  }

  lemma ChannelNameIsNotBlank(i: nat)
    ensures !Blank(ChannelName(i))
  {
    assert ChannelName(i)[0] == 'r';
  }

  function KeyOf(s: ChannelSource): RC.Key {
    RC.NodeKey(s.subscription, s.node)
  }

  /** Channels whose node the catalog does not have are left out; the others are numbered by their place. */
  function ChannelTargets(tags: C.Tags, channels: seq<ChannelSource>): seq<ChannelTarget>
    decreases |channels|
  {
    if channels == [] then []
    else
      var n := |channels| - 1;
      var before, s := ChannelTargets(tags, channels[..n]), channels[n];
      if KeyOf(s) in tags then before + [ChannelTarget(ChannelName(n), tags[KeyOf(s)], s.wellFormed, s.settings)]
          else before
  }

  method CollectChannels(tags: C.Tags, channels: seq<ChannelSource>) returns (targets: seq<ChannelTarget>)
    ensures targets == ChannelTargets(tags, channels)
  {
    targets := [];
    for i := 0 to |channels|
      invariant targets == ChannelTargets(tags, channels[..i])
    {
      TakeOneMore(channels, i);
      var key := RC.NodeKey(channels[i].subscription, channels[i].node);
      if key !in tags {
        continue;
      }
      targets := targets + [ChannelTarget(ChannelName(i), tags[key], channels[i].wellFormed, channels[i].settings)];
    }
    TakeAll(channels);
  }

  /** The target of channel `i`: numbered by its place, with the tag of its own node and its own listener. */
  ghost predicate TargetOf(tags: C.Tags, channels: seq<ChannelSource>, t: ChannelTarget, i: int) {
    && 0 <= i < |channels| && RC.NodeKey(channels[i].subscription, channels[i].node) in tags
    && t.tag == "runtime-channel-" + Pad3(i)
    && t.outboundTag == tags[RC.NodeKey(channels[i].subscription, channels[i].node)]
    && t.wellFormed == channels[i].wellFormed && t.settings == channels[i].settings
  }

  /** The targets are exactly those of the channels whose node the catalog has, in order. */
  lemma {:induction false} ChannelsExactly(tags: C.Tags, channels: seq<ChannelSource>, k: nat, t: ChannelTarget)
    requires k <= |channels|
    ensures t in ChannelTargets(tags, channels) <==> exists i :: TargetOf(tags, channels, t, i)
    ensures ChannelTargets(tags, channels[..k]) <= ChannelTargets(tags, channels)
    decreases |channels|
  {
    if channels == [] {
      assert channels[..k] == [];
    } else {
      var n := |channels| - 1;
      var rest := channels[..n];
      ChannelsExactly(tags, rest, if k > n then n else k, t);
      if k <= n {
        assert rest[..k] == channels[..k];
      } else {
        TakeAll(channels);
      }
      assert forall i :: 0 <= i < n ==> (TargetOf(tags, channels, t, i) <==> TargetOf(tags, rest, t, i));
      if t in ChannelTargets(tags, channels) && t !in ChannelTargets(tags, rest) {
        assert TargetOf(tags, channels, t, n);
      }
    }
  }

  ghost predicate ListenersFine(tags: C.Tags, channels: seq<ChannelSource>) {
    forall s :: s in channels && KeyOf(s) in tags ==> s.wellFormed
  }

  ghost predicate NumberedBelow(tags: set<string>, n: nat) {
    forall t :: t in tags ==> exists i: nat :: i < n && t == ChannelName(i)
  }

  /** Each node that a channel can name is known to the compiler. */
  ghost predicate TagsKnown(tags: C.Tags, known: set<string>) {
    forall k :: k in tags ==> tags[k] in known && !Blank(tags[k])
  }

  lemma NextNumberIsFree(tags: set<string>, n: nat)
    requires NumberedBelow(tags, n)
    ensures ChannelName(n) !in tags && NumberedBelow(tags + {ChannelName(n)}, n + 1) && NumberedBelow(tags, n + 1)
  {
    if ChannelName(n) in tags {
      var i: nat :| i < n && ChannelName(n) == ChannelName(i);
      ChannelNamesDiffer(n, i);
    }
    forall t | t in tags ensures exists i: nat :: i < n + 1 && t == ChannelName(i) {
      var i: nat :| i < n && t == ChannelName(i);
    }
  }

  ghost predicate ChannelsDone(tags: C.Tags, start: Channels, channels: seq<ChannelSource>,
      r: Result<Channels, Error>) {
    && (r.Ok? <==> ListenersFine(tags, channels))
    && (r.Ok? ==> r.value.known == start.known && NumberedBelow(r.value.tags, |channels|))
  }

  lemma OneMoreChannel(tags: C.Tags, start: Channels, rest: seq<ChannelSource>, last: ChannelSource, before: Channels)
    requires TagsKnown(tags, start.known) && ChannelsDone(tags, start, rest, Ok(before)) && KeyOf(last) in tags
    ensures
      var t := ChannelTarget(ChannelName(|rest|), tags[KeyOf(last)], last.wellFormed, last.settings);
      ChannelsDone(tags, start, rest + [last], AddChannel(before, t))
  {
    NextNumberIsFree(before.tags, |rest|);
    ChannelNameIsNotBlank(|rest|);
    ListenersFineMore(tags, rest, last);
  }

  lemma ListenersFineMore(tags: C.Tags, rest: seq<ChannelSource>, last: ChannelSource)
    ensures
      ListenersFine(tags, rest + [last]) <==>
        ListenersFine(tags, rest) && (KeyOf(last) in tags ==> last.wellFormed)
  {
    assert last in rest + [last];
    assert forall s :: s in rest ==> s in rest + [last];
  }

  /** Made-up tags and left-out channels are never the reason; only a listener that cannot be built is. */
  lemma {:induction false} ChannelsAcceptedExactly(tags: C.Tags, start: Channels, channels: seq<ChannelSource>)
    requires TagsKnown(tags, start.known) && start.tags == {}
    ensures ChannelsDone(tags, start, channels, Fold(ChannelAdder(), start, ChannelTargets(tags, channels)))
    decreases |channels|
  {
    if channels != [] {
      var rest, last := channels[..|channels| - 1], channels[|channels| - 1];
      ChannelsAcceptedExactly(tags, start, rest);
      SplitLast(channels);
      ListenersFineMore(tags, rest, last);
      var r := Fold(ChannelAdder(), start, ChannelTargets(tags, rest));
      if KeyOf(last) in tags {
        var t := ChannelTarget(ChannelName(|rest|), tags[KeyOf(last)], last.wellFormed, last.settings);
        DropLast(ChannelTargets(tags, rest), t);
        if r.Ok? {
          OneMoreChannel(tags, start, rest, last, r.value);
        }
      } else if r.Ok? {
        NextNumberIsFree(r.value.tags, |rest|);
      }
    }
  }

  /** What the service compiles for a catalog. */
  predicate CompiledFor(x: Input, c: C.Catalog, selected: RC.Key, channels: seq<ChannelSource>) {
    && K.MadeFrom(x, c)
    && selected in c.targets && x.initial == c.targets[selected].tag
    && x.channels == ChannelTargets(c.tags, channels)
  }

  /** The settings of the mode: a known one, both halves of a controller or none, and for TUN a valid profile. */
  predicate SettingsFine(x: Input)
    requires x.tunAddress.Some? ==> Cidr.ParsedWell(x.tunAddress.value)
    requires x.dns.fakeIP.inet4.ParsedRange? ==> Cidr.ParsedWell(x.dns.fakeIP.inet4.prefix)
  {
    && !x.mode.OtherMode?
    && ((x.controllerAddress == "") <==> (x.controllerSecret == ""))
    && Cidr.ValidateTun(x.mode, x.tunAddress, x.dns.fakeIP.enabled, x.dns.fakeIP.inet4).None?
  }

  /** A catalog without nodes offers nothing but the direct connection. */
  lemma WithoutNodesOnlyDirect(c: C.Catalog, tag: string)
    requires A.ListsShaped(Spell, c) && A.Offered(c, tag) && c.nodes == []
    ensures tag == DIRECT
  {
    assert forall t :: !A.IsNodeTag(Spell, t, 0);
    assert forall i :: 0 <= i < |c.pools| ==> c.pools[i].nodeTags[0] in c.pools[i].nodeTags;
  }

  lemma NodeTagsKnown(c: C.Catalog, nodes: map<string, Node>)
    requires A.TagsShaped(Spell, c.tags, |c.nodes|) && K.KnowsNodes(Spell, nodes, |c.nodes|)
    ensures TagsKnown(c.tags, nodes.Keys)
  {
    K.SpellIsGood();
    forall k | k in c.tags ensures c.tags[k] in nodes && !Blank(c.tags[k]) {
      assert A.IsNodeTag(Spell, c.tags[k], |c.nodes|);
    }
  }

  /**
   Whatever is stored, the configuration for a built catalog compiles exactly if the settings of the mode are
   fine, all options normalise, all chain entry nodes validate, and every listener of a channel that is not
   left out can be built. Tags, references and the initial target are never the reason.
   */
  lemma WholeConfigCompilesExactly(s: C.Sources, selected: RC.Key, signature: string, channels: seq<ChannelSource>,
      x: Input)
    requires forall chain :: chain in s.chains ==> C.Resolved(chain)
    requires C.Build(s, selected, signature).Ok? && ParsedInput(x)
    requires CompiledFor(x, C.Build(s, selected, signature).value, selected, channels)
    ensures
      var c := C.Build(s, selected, signature).value;
      Compile(x).Ok? <==>
        SettingsFine(x) && K.OptionsFine(c.pools) && K.ChainsFine(c.chains) && ListenersFine(c.tags, channels)
  {
    var c := C.Build(s, selected, signature).value;
    A.BuildIsShaped(Spell, s, selected);
    K.SpellIsGood();
    K.ShapedCatalogCompiles(Spell, x, c);
    K.CatalogCompilesExactly(s, selected, signature, x);
    assert A.TargetOk(c, selected, c.targets[selected]);
    if c.nodes == [] {
      WithoutNodesOnlyDirect(c, x.initial);
    }
    if Targets(x).Ok? {
      var d := Targets(x).value;
      NodeTagsKnown(c, d.nodes);
      ChannelsAcceptedExactly(c.tags, NoChannels(x, d), channels);
    }
  }
}
