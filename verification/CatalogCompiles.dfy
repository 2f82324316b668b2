/**
 The compiler never rejects a catalog because of its tags: it rejects one exactly
 for options that do not normalise or chain nodes that do not validate.
 */
module CatalogCompiles {
  import opened Common
  import opened CatalogTags
  import opened RuntimeConfig
  import FreshTags
  import OutboundGraph
  import A = CatalogAccepted
  import C = RuntimeCatalog
  import RC = RuntimeControl

  /** What the compiler needs of a way to name things. */
  ghost predicate GoodNaming(spell: C.Naming) {
    && (forall x, y :: spell(x) == spell(y) ==> x == y)
    && (forall x :: 'y' !in spell(x) && spell(x) !in BASE && !Blank(spell(x)))
  }

  /** How many nodes, pools and chains have been named, and how far the chain at hand has come. */
  datatype Progress = Progress(nodes: nat, pools: nat, chains: nat, open: bool, members: nat)

  predicate Issued(x: Name, b: Progress) {
    match x
    case NodeName(i) => i < b.nodes
    case PoolName(i) => i < b.pools
    case PoolAutoName(i) => i < b.pools
    case ChainName(i) => i < b.chains || (i == b.chains && b.open)
    case ChainAutoName(i) => i < b.chains || (i == b.chains && b.open)
    case MemberName(i, j) => i < b.chains || (i == b.chains && j < b.members)
  }

  ghost predicate IsIssued(spell: C.Naming, t: string, b: Progress) {
    exists x :: Issued(x, b) && t == spell(x)
  }

  /** Reserved are the base tags, tags of issued names, and entry tags, which have a letter that the others lack. */
  ghost predicate Clean(spell: C.Naming, reserved: set<string>, b: Progress) {
    forall t :: t in reserved ==> t in BASE || 'y' in t || IsIssued(spell, t, b)
  }

  lemma NewNameIsFree(spell: C.Naming, reserved: set<string>, b: Progress, x: Name)
    requires GoodNaming(spell) && Clean(spell, reserved, b) && !Issued(x, b)
    ensures spell(x) !in reserved && !Blank(spell(x))
  {
    forall y | Issued(y, b) ensures spell(x) != spell(y) {}
    assert !IsIssued(spell, spell(x), b);
  }

  /** Progress only adds names. */
  predicate Follows(a: Progress, b: Progress) {
    && a.nodes <= b.nodes && a.pools <= b.pools
    && (a.chains < b.chains || (a.chains == b.chains && (a.open ==> b.open) && a.members <= b.members))
  }

  lemma CleanGrows(spell: C.Naming, reserved: set<string>, added: set<string>, a: Progress, b: Progress)
    requires Clean(spell, reserved, a) && Follows(a, b)
    requires forall t :: t in added ==> 'y' in t || IsIssued(spell, t, b)
    ensures Clean(spell, reserved + added, b)
  {
    forall t | t in reserved && IsIssued(spell, t, a) ensures IsIssued(spell, t, b) {
      var x :| Issued(x, a) && t == spell(x);
      assert Issued(x, b);
    }
  }

  function At(nodes: nat, pools: nat, chains: nat): Progress {
    Progress(nodes, pools, chains, false, 0)
  }

  // ----- nodes

  /** The node tags are known, and their nodes validate. */
  ghost predicate KnowsNodes(spell: C.Naming, nodes: map<string, Node>, n: nat) {
    && (forall t :: A.IsNodeTag(spell, t, n) ==> t in nodes)
    && (forall t :: t in nodes ==> nodes[t].valid)
  }

  lemma NodeIsAccepted(spell: C.Naming, d: Draft, t: NodeTarget, n: nat)
    requires GoodNaming(spell) && Clean(spell, d.reserved, At(n, 0, 0)) && KnowsNodes(spell, d.nodes, n)
    requires t.tag == spell(NodeName(n)) && t.node.valid
    ensures AddNode(d, t).Ok?
    ensures Clean(spell, AddNode(d, t).value.reserved, At(n + 1, 0, 0))
      && KnowsNodes(spell, AddNode(d, t).value.nodes, n + 1)
  {
    NewNameIsFree(spell, d.reserved, At(n, 0, 0), NodeName(n));
    assert Issued(NodeName(n), At(n + 1, 0, 0));
    CleanGrows(spell, d.reserved, {t.tag}, At(n, 0, 0), At(n + 1, 0, 0));
    forall tag | A.IsNodeTag(spell, tag, n + 1) ensures tag in d.nodes || tag == t.tag {
      var i: nat :| i < n + 1 && tag == spell(NodeName(i));
      assert i < n ==> A.IsNodeTag(spell, tag, n);
    }
  }

  lemma {:induction false} NodesAreAccepted(spell: C.Naming, nodes: seq<NodeTarget>)
    requires GoodNaming(spell) && A.NodesShaped(spell, nodes)
    ensures
      var r := Fold(NodeAdder(), START, nodes);
      r.Ok? && Clean(spell, r.value.reserved, At(|nodes|, 0, 0)) && KnowsNodes(spell, r.value.nodes, |nodes|)
    decreases |nodes|
  {
    if nodes != [] {
      var rest, last := nodes[..|nodes| - 1], nodes[|nodes| - 1];
      NodesAreAccepted(spell, rest);
      NodeIsAccepted(spell, Fold(NodeAdder(), START, rest).value, last, |rest|);
    }
  }

  // ----- pools

  lemma {:induction false} NoneUnknown(spell: C.Naming, d: Draft, tags: seq<string>, n: nat)
    requires KnowsNodes(spell, d.nodes, n) && forall t :: t in tags ==> A.IsNodeTag(spell, t, n)
    ensures FirstUnknown(d, tags).None?
  {
    if tags != [] {
      assert tags[0] in tags;
      NoneUnknown(spell, d, tags[1..], n);
    }
  }

  lemma TwoNamesAreFree(spell: C.Naming, d: Draft, b: Progress, x: Name, y: Name, after: Progress)
    requires GoodNaming(spell) && Clean(spell, d.reserved, b) && !Issued(x, b) && !Issued(y, b) && x != y
    requires Issued(x, after) && Issued(y, after) && Follows(b, after)
    ensures
      var r := ReserveTwo(d, spell(x), spell(y));
      && r.Ok? && r.value.nodes == d.nodes && Clean(spell, r.value.reserved, after)
      && !Blank(spell(x)) && !Blank(spell(y)) && spell(x) != spell(y)
  {
    NewNameIsFree(spell, d.reserved, b, x);
    NewNameIsFree(spell, d.reserved, b, y);
    CleanGrows(spell, d.reserved, {spell(x), spell(y)}, b, after);
  }

  lemma PoolIsAccepted(spell: C.Naming, d: Draft, t: PoolTarget, n: nat, p: nat)
    requires GoodNaming(spell) && Clean(spell, d.reserved, At(n, p, 0)) && KnowsNodes(spell, d.nodes, n)
    requires A.PoolShaped(spell, t, p, n)
    ensures AddPool(d, t).Ok? <==> NormalizeOptions(t.options).Ok?
    ensures AddPool(d, t).Ok? ==>
      Clean(spell, AddPool(d, t).value.reserved, At(n, p + 1, 0)) && AddPool(d, t).value.nodes == d.nodes
  {
    TwoNamesAreFree(spell, d, At(n, p, 0), PoolAutoName(p), PoolName(p), At(n, p + 1, 0));
    NoneUnknown(spell, d, t.nodeTags, n);
  }

  ghost predicate OptionsFine(pools: seq<PoolTarget>) {
    forall i :: 0 <= i < |pools| ==> NormalizeOptions(pools[i].options).Ok?
  }

  lemma OptionsFineMore(rest: seq<PoolTarget>, last: PoolTarget)
    ensures OptionsFine(rest + [last]) <==> OptionsFine(rest) && NormalizeOptions(last.options).Ok?
  {
    assert (rest + [last])[|rest|] == last;
    assert forall i :: 0 <= i < |rest| ==> (rest + [last])[i] == rest[i];
  }

  /** The outcome of the compiler's loop over the pools. */
  ghost predicate PoolsDone(spell: C.Naming, d: Draft, pools: seq<PoolTarget>, n: nat, r: Result<Draft, Error>) {
    && (r.Ok? <==> OptionsFine(pools))
    && (r.Ok? ==> Clean(spell, r.value.reserved, At(n, |pools|, 0)) && r.value.nodes == d.nodes)
  }

  lemma OneMorePool(spell: C.Naming, d: Draft, rest: seq<PoolTarget>, last: PoolTarget, n: nat, before: Draft)
    requires GoodNaming(spell) && KnowsNodes(spell, d.nodes, n) && A.PoolShaped(spell, last, |rest|, n)
    requires PoolsDone(spell, d, rest, n, Ok(before))
    ensures PoolsDone(spell, d, rest + [last], n, AddPool(before, last))
  {
    PoolIsAccepted(spell, before, last, n, |rest|);
    OptionsFineMore(rest, last);
  }

  lemma {:induction false} PoolsAreAccepted(spell: C.Naming, d: Draft, pools: seq<PoolTarget>, n: nat)
    requires GoodNaming(spell) && Clean(spell, d.reserved, At(n, 0, 0)) && KnowsNodes(spell, d.nodes, n)
    requires A.PoolsShaped(spell, pools, n)
    ensures PoolsDone(spell, d, pools, n, Fold(PoolAdder(), d, pools))
    decreases |pools|
  {
    if pools != [] {
      var rest, last := pools[..|pools| - 1], pools[|pools| - 1];
      PoolsAreAccepted(spell, d, rest, n);
      SplitLast(pools);
      OptionsFineMore(rest, last);
      if Fold(PoolAdder(), d, rest).Ok? {
        OneMorePool(spell, d, rest, last, n, Fold(PoolAdder(), d, rest).value);
      }
    }
  }

  // ----- chains

  lemma EntryIsAccepted(spell: C.Naming, d: Draft, exit: Node, member: NodeTarget, x: Name, b: Progress,
      after: Progress)
    requires GoodNaming(spell) && Clean(spell, d.reserved, b) && exit.valid
    requires member.tag == spell(x) && !Issued(x, b) && Issued(x, after) && Follows(b, after)
    ensures AddEntry(d, exit, member).Ok? <==> member.node.valid
    ensures
      var r := AddEntry(d, exit, member);
      r.Ok? ==> Clean(spell, r.value.reserved, after) && r.value.nodes == d.nodes
  {
    NewNameIsFree(spell, d.reserved, b, x);
    var reserved := d.reserved + {member.tag};
    var entryTag := FreshTags.FreshTag(member.tag + "-entry", reserved);
    EntryTagHasY(member.tag, reserved);
    CleanGrows(spell, d.reserved, {member.tag, entryTag}, b, after);
    assert d.reserved + {member.tag, entryTag} == reserved + {entryTag};
  }

  ghost predicate NodesValid(members: seq<NodeTarget>) {
    forall j :: 0 <= j < |members| ==> members[j].node.valid
  }

  ghost predicate MembersNamed(spell: C.Naming, members: seq<NodeTarget>, k: nat) {
    forall j :: 0 <= j < |members| ==> members[j].tag == spell(MemberName(k, j))
  }

  lemma NodesValidMore(rest: seq<NodeTarget>, last: NodeTarget)
    ensures NodesValid(rest + [last]) <==> NodesValid(rest) && last.node.valid
  {
    assert (rest + [last])[|rest|] == last;
    assert forall i :: 0 <= i < |rest| ==> (rest + [last])[i] == rest[i];
  }

  ghost predicate EntriesDone(spell: C.Naming, d: Draft, members: seq<NodeTarget>, b: Progress,
      r: Result<Draft, Error>) {
    && (r.Ok? <==> NodesValid(members))
    && (r.Ok? ==> Clean(spell, r.value.reserved, b.(members := |members|)) && r.value.nodes == d.nodes)
  }

  lemma OneMoreEntry(spell: C.Naming, d: Draft, exit: Node, rest: seq<NodeTarget>, last: NodeTarget, b: Progress,
      before: Draft)
    requires GoodNaming(spell) && exit.valid && last.tag == spell(MemberName(b.chains, |rest|))
    requires EntriesDone(spell, d, rest, b, Ok(before))
    ensures EntriesDone(spell, d, rest + [last], b, AddEntry(before, exit, last))
  {
    EntryIsAccepted(spell, before, exit, last, MemberName(b.chains, |rest|), b.(members := |rest|),
        b.(members := |rest| + 1));
    NodesValidMore(rest, last);
  }

  lemma {:induction false} EntriesAreAccepted(spell: C.Naming, d: Draft, exit: Node, members: seq<NodeTarget>,
      b: Progress)
    requires GoodNaming(spell) && Clean(spell, d.reserved, b) && exit.valid && b.members == 0
    requires MembersNamed(spell, members, b.chains)
    ensures EntriesDone(spell, d, members, b, Fold(EntryAdder(exit), d, members))
    decreases |members|
  {
    if members != [] {
      var rest, last := members[..|members| - 1], members[|members| - 1];
      EntriesAreAccepted(spell, d, exit, rest, b);
      SplitLast(members);
      NodesValidMore(rest, last);
      if Fold(EntryAdder(exit), d, rest).Ok? {
        OneMoreEntry(spell, d, exit, rest, last, b, Fold(EntryAdder(exit), d, rest).value);
      }
    } else {
      assert b.(members := |members|) == b;
    }
  }

  ghost predicate ChainFine(t: ChainTarget) {
    NodesValid(t.members) && (t.options.Some? ==> NormalizeOptions(t.options.value).Ok?)
  }

  lemma OneEntryChain(spell: C.Naming, d: Draft, t: ChainTarget, n: nat, p: nat, k: nat)
    requires GoodNaming(spell) && Clean(spell, d.reserved, At(n, p, k)) && KnowsNodes(spell, d.nodes, n)
    requires A.ChainShaped(spell, t, k, n) && |t.members| == 1
    ensures AddChain(d, t).Ok? <==> ChainFine(t)
    ensures AddChain(d, t).Ok? ==>
      Clean(spell, AddChain(d, t).value.reserved, At(n, p, k + 1)) && AddChain(d, t).value.nodes == d.nodes
  {
    NewNameIsFree(spell, d.reserved, At(n, p, k), ChainName(k));
    assert !Blank(t.exitTag);
    EntryIsAccepted(spell, d, d.nodes[t.exitTag], t.members[0], ChainName(k), At(n, p, k), At(n, p, k + 1));
  }

  lemma CleanCloses(spell: C.Naming, reserved: set<string>, b: Progress)
    requires Clean(spell, reserved, b)
    ensures Clean(spell, reserved, At(b.nodes, b.pools, b.chains + 1))
  {
    CleanGrows(spell, reserved, {}, b, At(b.nodes, b.pools, b.chains + 1));
    assert reserved + {} == reserved;
  }

  lemma PoolChain(spell: C.Naming, d: Draft, t: ChainTarget, n: nat, p: nat, k: nat)
    requires GoodNaming(spell) && Clean(spell, d.reserved, At(n, p, k)) && KnowsNodes(spell, d.nodes, n)
    requires A.ChainShaped(spell, t, k, n) && |t.members| >= 2
    ensures AddChain(d, t).Ok? <==> ChainFine(t)
    ensures AddChain(d, t).Ok? ==>
      Clean(spell, AddChain(d, t).value.reserved, At(n, p, k + 1)) && AddChain(d, t).value.nodes == d.nodes
  {
    var b := Progress(n, p, k, true, 0);
    assert !Blank(t.exitTag);
    TwoNamesAreFree(spell, d, At(n, p, k), ChainAutoName(k), ChainName(k), b);
    var r := ReserveTwo(d, t.autoTag, t.tag).value;
    EntriesAreAccepted(spell, r, d.nodes[t.exitTag], t.members, b);
    if NodesValid(t.members) {
      CleanCloses(spell, Fold(EntryAdder(d.nodes[t.exitTag]), r, t.members).value.reserved, b.(members := |t.members|));
    }
  }

  ghost predicate ChainsFine(chains: seq<ChainTarget>) {
    forall i :: 0 <= i < |chains| ==> ChainFine(chains[i])
  }

  lemma ChainsFineMore(rest: seq<ChainTarget>, last: ChainTarget)
    ensures ChainsFine(rest + [last]) <==> ChainsFine(rest) && ChainFine(last)
  {
    assert (rest + [last])[|rest|] == last;
    assert forall i :: 0 <= i < |rest| ==> (rest + [last])[i] == rest[i];
  }

  ghost predicate ChainsDone(spell: C.Naming, d: Draft, chains: seq<ChainTarget>, n: nat, p: nat,
      r: Result<Draft, Error>) {
    && (r.Ok? <==> ChainsFine(chains))
    && (r.Ok? ==> Clean(spell, r.value.reserved, At(n, p, |chains|)) && r.value.nodes == d.nodes)
  }

  lemma OneMoreChain(spell: C.Naming, d: Draft, rest: seq<ChainTarget>, last: ChainTarget, n: nat, p: nat,
      before: Draft)
    requires GoodNaming(spell) && KnowsNodes(spell, d.nodes, n) && A.ChainShaped(spell, last, |rest|, n)
    requires ChainsDone(spell, d, rest, n, p, Ok(before))
    ensures ChainsDone(spell, d, rest + [last], n, p, AddChain(before, last))
  {
    if |last.members| == 1 {
      OneEntryChain(spell, before, last, n, p, |rest|);
    } else {
      PoolChain(spell, before, last, n, p, |rest|);
    }
    ChainsFineMore(rest, last);
  }

  lemma {:induction false} ChainsAreAccepted(spell: C.Naming, d: Draft, chains: seq<ChainTarget>, n: nat, p: nat)
    requires GoodNaming(spell) && Clean(spell, d.reserved, At(n, p, 0)) && KnowsNodes(spell, d.nodes, n)
    requires A.ChainsShaped(spell, chains, n)
    ensures ChainsDone(spell, d, chains, n, p, Fold(ChainAdder(), d, chains))
    decreases |chains|
  {
    if chains != [] {
      var rest, last := chains[..|chains| - 1], chains[|chains| - 1];
      ChainsAreAccepted(spell, d, rest, n, p);
      SplitLast(chains);
      ChainsFineMore(rest, last);
      if Fold(ChainAdder(), d, rest).Ok? {
        OneMoreChain(spell, d, rest, last, n, p, Fold(ChainAdder(), d, rest).value);
      }
    }
  }

  // ----- the catalog

  lemma SpellIsGood()
    ensures GoodNaming(Spell)
  {
    forall x, y | Spell(x) == Spell(y) ensures x == y {
      TagsDiffer(x, y);
    }
    forall x ensures 'y' !in Spell(x) && Spell(x) !in BASE && !Blank(Spell(x)) {
      NoY(x);
      LongAndNotBlank(x);
    }
  }

  lemma LongAndNotBlank(x: Name)
    ensures |Spell(x)| > 6 && !Blank(Spell(x)) && Spell(x) !in BASE
  {
    assert Spell(x)[0] == 'r';
    assert |PROXY| <= 6 && |DIRECT| <= 6 && |BLOCK| <= 6;
  }

  /** The compiler's input that a catalog makes, whatever the rest of it is. */
  predicate MadeFrom(x: Input, c: C.Catalog) {
    x.nodes == c.nodes && x.pools == c.pools && x.chains == c.chains
  }

  lemma {:induction false} ShapedCatalogCompiles(spell: C.Naming, x: Input, c: C.Catalog)
    requires GoodNaming(spell) && A.ListsShaped(spell, c) && MadeFrom(x, c)
    ensures Targets(x).Ok? <==> OptionsFine(c.pools) && ChainsFine(c.chains)
    ensures Targets(x).Ok? ==> KnowsNodes(spell, Targets(x).value.nodes, |c.nodes|)
  {
    NodesAreAccepted(spell, c.nodes);
    var withNodes := Fold(NodeAdder(), START, c.nodes).value;
    PoolsAreAccepted(spell, withNodes, c.pools, |c.nodes|);
    if OptionsFine(c.pools) {
      ChainsAreAccepted(spell, Fold(PoolAdder(), withNodes, c.pools).value, c.chains, |c.nodes|, |c.pools|);
    }
  }

  /**
   Whatever is stored, the targets of a catalog that was built compile exactly if
   every pool's and chain's options normalise and every chain's entry nodes
   validate; and then each entry of the catalog can be selected.
   */
  lemma CatalogCompilesExactly(s: C.Sources, selected: RC.Key, signature: string, x: Input)
    requires forall chain :: chain in s.chains ==> C.Resolved(chain)
    requires C.Build(s, selected, signature).Ok? && MadeFrom(x, C.Build(s, selected, signature).value)
    ensures
      var c := C.Build(s, selected, signature).value;
      && (Targets(x).Ok? <==> OptionsFine(c.pools) && ChainsFine(c.chains))
      && (Targets(x).Ok? ==> forall k :: k in c.targets ==>
            c.targets[k].tag in Targets(x).value.roots || c.targets[k].tag == DIRECT)
  {
    var c := C.Build(s, selected, signature).value;
    A.BuildIsShaped(Spell, s, selected);
    SpellIsGood();
    ShapedCatalogCompiles(Spell, x, c);
    if Targets(x).Ok? {
      OutboundGraph.DraftHoldsTargets(x);
      var roots := Targets(x).value.roots;
      forall k | k in c.targets ensures c.targets[k].tag in roots || c.targets[k].tag == DIRECT {
        assert A.TargetOk(c, k, c.targets[k]);
        OfferedIsRoot(x, c, c.targets[k].tag);
      }
    }
  }

  lemma OfferedIsRoot(x: Input, c: C.Catalog, tag: string)
    requires MadeFrom(x, c) && A.Offered(c, tag)
    ensures tag == DIRECT
      || tag in TagsOf(x.nodes) + OutboundGraph.PoolTags(x.pools) + OutboundGraph.ChainTags(x.chains)
  {
    if i :| 0 <= i < |c.nodes| && c.nodes[i].tag == tag {
      assert TagsOf(x.nodes)[i] == tag;
    } else if i :| 0 <= i < |c.pools| && c.pools[i].tag == tag {
      assert OutboundGraph.PoolTags(x.pools)[i] == tag;
    } else if i :| 0 <= i < |c.chains| && c.chains[i].tag == tag {
      assert OutboundGraph.ChainTags(x.chains)[i] == tag;
    }
  }
}
