/**
 What the rules contain: each subscription's rules are its last import with the switches that
 the events since then leave, and the user's own are as they were created and edited.
 */
module RoutingContents {
  import opened Common
  import opened RoutingRules
  import opened RoutingRuns
  import RoutingOrder

  // ----- one subscription's rules, their switches aside

  /** The subscription's rules in order, with their switches off. */
  ghost function Shown(rules: seq<Rule>, sub: string): seq<Rule>
    decreases |rules|
  {
    if rules == [] then []
    else
      var before, last := Shown(rules[..|rules| - 1], sub), rules[|rules| - 1];
      if IsOf(last, sub) then before + [last.(enabled := false)] else before
  }

  lemma {:induction false} ShownInParts(a: seq<Rule>, b: seq<Rule>, sub: string)
    ensures Shown(a + b, sub) == Shown(a, sub) + Shown(b, sub)
    decreases |b|
  {
    if b == [] {
      assert a + b == a;
    } else {
      var rest, last := b[..|b| - 1], b[|b| - 1];
      ShownInParts(a, rest, sub);
      assert a + b == a + rest + [last];
      DropLast(a + rest, last);
    }
  }

  /** The two are the same to the subscription, but for a switch. */
  ghost predicate SameFor(r: Rule, v: Rule, sub: string) {
    (IsOf(r, sub) <==> IsOf(v, sub)) && (IsOf(r, sub) ==> r.(enabled := false) == v.(enabled := false))
  }

  lemma {:induction false} ShownPointwise(rules: seq<Rule>, v: seq<Rule>, sub: string)
    requires |v| == |rules| && forall k :: 0 <= k < |rules| ==> SameFor(rules[k], v[k], sub)
    ensures Shown(v, sub) == Shown(rules, sub)
    decreases |rules|
  {
    if rules != [] {
      ShownPointwise(rules[..|rules| - 1], v[..|v| - 1], sub);
      assert SameFor(rules[|rules| - 1], v[|rules| - 1], sub);
    }
  }

  lemma {:induction false} ShownOfKept(rules: seq<Rule>, sub: string, other: string)
    ensures Shown(Kept(rules, other), sub) == if sub == other then [] else Shown(rules, sub)
    decreases |rules|
  {
    if rules != [] {
      var rest, last := rules[..|rules| - 1], rules[|rules| - 1];
      ShownOfKept(rest, sub, other);
      DropLast(Kept(rest, other), last);
    }
  }

  lemma {:induction false} ShownOfOthers(rules: seq<Rule>, sub: string)
    requires forall r :: r in rules ==> !IsOf(r, sub)
    ensures Shown(rules, sub) == []
    decreases |rules|
  {
    if rules != [] {
      assert rules[|rules| - 1] in rules;
      ShownOfOthers(rules[..|rules| - 1], sub);
    }
  }

  lemma {:induction false} ShownOfOwn(rules: seq<Rule>, sub: string)
    requires forall r :: r in rules ==> IsOf(r, sub)
    ensures Shown(rules, sub) == seq(|rules|, i requires 0 <= i < |rules| => rules[i].(enabled := false))
    decreases |rules|
  {
    if rules != [] {
      assert rules[|rules| - 1] in rules;
      ShownOfOwn(rules[..|rules| - 1], sub);
    }
  }

  // ----- the last import

  datatype Import = Import(name: string, rules: seq<ImportedRule>)

  /** What the subscription brought last, and nothing before it did or after it was deleted. */
  ghost function LastImport(events: seq<Event>, sub: string): Import
    decreases |events|
  {
    if events == [] then Import("", [])
    else
      var before, e := LastImport(events[..|events| - 1], sub), events[|events| - 1];
      if e.Sync? && e.sub == sub then Import(e.name, e.imported)
      else if e.DropSub? && e.sub == sub then Import("", [])
      else before
  }

  /** Each rule as it was brought, at its place, named by its source and how often that occurred before. */
  ghost predicate IsImport(rules: seq<Rule>, sub: string, import_: Import) {
    |rules| == |import_.rules| && forall i :: 0 <= i < |rules| ==> IsImportedRule(rules[i], sub, import_, i)
  }

  ghost predicate IsImportedRule(r: Rule, sub: string, import_: Import, i: nat)
    requires i < |import_.rules|
  {
    var brought := import_.rules[i];
    && r.id == Imported(sub, brought.source, Count(import_.rules[..i], brought.source))
    && r.name == brought.name && r.conditions == brought.conditions && r.action == brought.action
    && r.supported == brought.supported && r.reason == brought.reason && r.source == brought.source
    && r.origin == FromSubscription && r.subscription == sub && r.subscriptionName == import_.name
    && r.position == i && !r.enabled
  }

  lemma SyncShows(rules: seq<Rule>, sub: string, name: string, imported: seq<ImportedRule>)
    ensures IsImport(Shown(Synced(rules, sub, name, imported), sub), sub, Import(name, imported))
  {
    var own := NewRules(rules, sub, name, imported);
    ShownInParts(Kept(rules, sub), own, sub);
    ShownOfKept(rules, sub, sub);
    NewRulesAreOwn(rules, sub, name, imported);
    ShownOfOwn(own, sub);
    assert Shown(Synced(rules, sub, name, imported), sub) == Shown(own, sub);
  }

  lemma OtherSyncShows(rules: seq<Rule>, other: string, name: string, imported: seq<ImportedRule>, sub: string)
    requires sub != other
    ensures Shown(Synced(rules, other, name, imported), sub) == Shown(rules, sub)
  {
    var own := NewRules(rules, other, name, imported);
    ShownInParts(Kept(rules, other), own, sub);
    ShownOfKept(rules, sub, other);
    NewRulesAreOwn(rules, other, name, imported);
    ShownOfOthers(own, sub);
  }

  lemma CreateShows(rules: seq<Rule>, e: Event, sub: string)
    requires e.CreateRule?
    ensures Shown(Step(rules, e), sub) == Shown(rules, sub)
  {
    var v := Step(rules, e);
    if v != rules {
      ShownInParts(rules, [v[|rules|]], sub);
      ShownOfOthers([v[|rules|]], sub);
      assert v == rules + [v[|rules|]];
    }
  }

  lemma UpdateShows(rules: seq<Rule>, e: Event, sub: string)
    requires e.UpdateRule?
    ensures Shown(Step(rules, e), sub) == Shown(rules, sub)
  {
    ShownPointwise(rules, Step(rules, e), sub);
  }

  lemma RemoveShows(rules: seq<Rule>, i: nat, sub: string)
    requires IsManual(rules, i)
    ensures Shown(Removed(rules, i), sub) == Shown(rules, sub)
  {
    ShownInParts(rules[..i], [rules[i]], sub);
    ShownOfOthers([rules[i]], sub);
    ShownInParts(rules[..i] + [rules[i]], rules[i + 1..], sub);
    ShownInParts(rules[..i], rules[i + 1..], sub);
    assert rules == rules[..i] + [rules[i]] + rules[i + 1..];
  }

  lemma NumberShows(rules: seq<Rule>, order: seq<nat>, sub: string)
    requires SortsManual(rules, order)
    ensures Shown(Numbered(rules, order), sub) == Shown(rules, sub)
  {
    var v := Numbered(rules, order);
    RoutingOrder.NumberedFacts(rules, order);
    forall k | 0 <= k < |rules| ensures SameFor(rules[k], v[k], sub) {
      assert v[k].(position := 0) == rules[k].(position := 0);
      if rules[k].origin != Manual {
        assert k !in order;
      }
    }
    ShownPointwise(rules, v, sub);
  }

  lemma DeleteShows(rules: seq<Rule>, e: Event, sub: string)
    requires e.DeleteRule?
    ensures Shown(Step(rules, e), sub) == Shown(rules, sub)
  {
    if Deletes(rules, e.target, e.order) {
      RemoveShows(rules, IndexOf(rules, e.target), sub);
      NumberShows(Removed(rules, IndexOf(rules, e.target)), e.order, sub);
    }
  }

  lemma ReorderShows(rules: seq<Rule>, ids: seq<RuleId>, sub: string)
    ensures Shown(Reordered(rules, ids).0, sub) == Shown(rules, sub)
  {
    var v, good := Reordered(rules, ids).0, ids[..FirstBad(rules, ids, 0)];
    if v != rules {
      RoutingOrder.GoodPrefix(rules, ids, |good|);
      RoutingOrder.PlacedFacts(rules, good);
      TakeAll(ids);
      assert v == PlacedAll(rules, good);
      forall k | 0 <= k < |rules| ensures SameFor(rules[k], v[k], sub) {
        assert v[k].(position := 0) == rules[k].(position := 0);
      }
      ShownPointwise(rules, v, sub);
    }
  }

  /** On every run a subscription's rules are its last import, in its order and as it was brought, switches aside. */
  lemma {:induction false} ImportIsShown(events: seq<Event>, sub: string)
    ensures IsImport(Shown(Run(events), sub), sub, LastImport(events, sub))
    decreases |events|
  {
    if events != [] {
      var rest, e := events[..|events| - 1], events[|events| - 1];
      var rules := Run(rest);
      ImportIsShown(rest, sub);
      match e
      case CreateRule(_, _, _, _, _) => CreateShows(rules, e, sub);
      case UpdateRule(_, _, _) => UpdateShows(rules, e, sub);
      case DeleteRule(_, _) => DeleteShows(rules, e, sub);
      case Sync(other, name, imported) =>
        if other == sub {
          SyncShows(rules, sub, name, imported);
        } else {
          OtherSyncShows(rules, other, name, imported, sub);
        }
      case DropSub(other) => ShownOfKept(rules, sub, other);
      case ReorderRules(ids) => ReorderShows(rules, ids, sub);
    }
  }

  // ----- the switches

  /** The import has this rule, and the core supports it. */
  ghost predicate Offers(imported: seq<ImportedRule>, id: RuleId) {
    id.Imported? && exists i ::
      0 <= i < |imported| && IdAt(id.subscription, imported, i) == id && imported[i].supported
  }

  /** Whether the events leave an imported rule switched on; each new import of a rule leaves its switch alone. */
  ghost predicate IsOn(events: seq<Event>, id: RuleId)
    requires id.Imported?
    decreases |events|
  {
    if events == [] then false
    else
      var rest, e := events[..|events| - 1], events[|events| - 1];
      match e
      case UpdateRule(target, edit, switch) =>
        if target == id && edit.None? && switch == Some(false) then false
        else if target == id && edit.None? && switch == Some(true)
          && Offers(LastImport(rest, id.subscription).rules, id)
        then true
        else IsOn(rest, id)
      case Sync(sub, _, imported) => IsOn(rest, id) && (sub == id.subscription ==> Offers(imported, id))
      case DropSub(sub) => IsOn(rest, id) && sub != id.subscription
      case _ => IsOn(rest, id)
  }

  lemma {:induction false} ShownHas(rules: seq<Rule>, sub: string, r: Rule)
    requires r in rules && IsOf(r, sub)
    ensures r.(enabled := false) in Shown(rules, sub)
    decreases |rules|
  {
    SplitLast(rules);
    if r != rules[|rules| - 1] {
      ShownHas(rules[..|rules| - 1], sub, r);
    }
  }

  lemma {:induction false} ShownAre(rules: seq<Rule>, sub: string, x: Rule)
    requires x in Shown(rules, sub)
    ensures exists r :: r in rules && IsOf(r, sub) && r.(enabled := false) == x
    decreases |rules|
  {
    SplitLast(rules);
    if x in Shown(rules[..|rules| - 1], sub) {
      ShownAre(rules[..|rules| - 1], sub, x);
    }
  }

  /** The rule with this id is there, and the core supports it. */
  ghost predicate SupportedIn(rules: seq<Rule>, id: RuleId)
    requires id.Imported?
  {
    exists r :: r in rules && IsOf(r, id.subscription) && r.id == id && r.supported
  }

  lemma OffersExactly(events: seq<Event>, id: RuleId)
    requires id.Imported?
    ensures SupportedIn(Run(events), id) <==> Offers(LastImport(events, id.subscription).rules, id)
  {
    var rules, sub := Run(events), id.subscription;
    var imported := LastImport(events, sub).rules;
    ImportIsShown(events, sub);
    if SupportedIn(rules, id) {
      var r :| r in rules && IsOf(r, sub) && r.id == id && r.supported;
      ShownHas(rules, sub, r);
      var i :| 0 <= i < |Shown(rules, sub)| && Shown(rules, sub)[i] == r.(enabled := false);
      assert IsImportedRule(Shown(rules, sub)[i], sub, LastImport(events, sub), i);
      assert IdAt(sub, imported, i) == id;
    }
    if Offers(imported, id) {
      var i :| 0 <= i < |imported| && IdAt(sub, imported, i) == id && imported[i].supported;
      assert IsImportedRule(Shown(rules, sub)[i], sub, LastImport(events, sub), i);
      ShownAre(rules, sub, Shown(rules, sub)[i]);
    }
  }

  /** WasOn for the subscription of the id. */
  ghost predicate On(rules: seq<Rule>, id: RuleId)
    requires id.Imported?
  {
    exists r :: r in rules && IsOf(r, id.subscription) && r.id == id && r.enabled
  }

  lemma OnIsWasOn(rules: seq<Rule>, id: RuleId)
    requires id.Imported?
    ensures On(rules, id) <==> WasOn(rules, id.subscription, id)
  {
    if On(rules, id) {
      var r :| r in rules && IsOf(r, id.subscription) && r.id == id && r.enabled;
      var k :| 0 <= k < |rules| && rules[k] == r;
    }
  }

  lemma SyncSwitch(rules: seq<Rule>, sub: string, name: string, imported: seq<ImportedRule>, id: RuleId)
    requires Inv(rules) && id.Imported?
    ensures On(Synced(rules, sub, name, imported), id) <==>
        On(rules, id) && (sub == id.subscription ==> Offers(imported, id))
  {
    var v, kept := Synced(rules, sub, name, imported), Kept(rules, sub);
    if sub != id.subscription {
      SyncLeavesOthersAlone(rules, sub, name, imported);
    } else {
      OnIsWasOn(rules, id);
      if On(v, id) {
        var r :| r in v && IsOf(r, sub) && r.id == id && r.enabled;
        KeptAre(rules, sub, r);
        var i :| 0 <= i < |imported| && NewRules(rules, sub, name, imported)[i] == r;
        SwitchSurvivesExactly(rules, sub, name, imported, i);
        assert IdAt(sub, imported, i) == id;
      }
      if On(rules, id) && Offers(imported, id) {
        var i :| 0 <= i < |imported| && IdAt(sub, imported, i) == id && imported[i].supported;
        SwitchSurvivesExactly(rules, sub, name, imported, i);
        assert v[|kept| + i] in v;
      }
    }
  }

  lemma DropSwitch(rules: seq<Rule>, sub: string, id: RuleId)
    requires id.Imported?
    ensures On(Kept(rules, sub), id) <==> On(rules, id) && sub != id.subscription
  {
    forall r ensures r in Kept(rules, sub) <==> r in rules && !IsOf(r, sub) {
      KeptAre(rules, sub, r);
    }
  }

  lemma UpdateOther(rules: seq<Rule>, e: Event, id: RuleId)
    requires Inv(rules) && id.Imported? && e.UpdateRule? && e.target != id
    ensures On(Step(rules, e), id) <==> On(rules, id)
  {
    var v, i := Step(rules, e), IndexOf(rules, e.target);
    if v != rules {
      forall r: Rule | r.id == id ensures r in v <==> r in rules {
        if r in rules {
          var k :| 0 <= k < |rules| && rules[k] == r;
          assert v[k] == r;
        }
        if r in v {
          var k :| 0 <= k < |v| && v[k] == r;
          assert rules[k] == r;
        }
      }
    }
  }

  lemma OnAt(rules: seq<Rule>, i: nat)
    requires Inv(rules) && i < |rules| && rules[i].id.Imported?
    ensures rules[i].origin == FromSubscription && IsOf(rules[i], rules[i].id.subscription)
    ensures On(rules, rules[i].id) <==> rules[i].enabled
    ensures SupportedIn(rules, rules[i].id) <==> rules[i].supported
  {
    var id := rules[i].id;
    assert RuleOk(rules[i]);
    forall r | r in rules && r.id == id ensures r == rules[i] {
      var k :| 0 <= k < |rules| && rules[k] == r;
    }
  }

  lemma UpdateSwitch(rules: seq<Rule>, e: Event)
    requires Inv(rules) && e.UpdateRule? && e.target.Imported?
    ensures On(Step(rules, e), e.target) <==>
        if e.edit.None? && e.switch == Some(false) then false
        else if e.edit.None? && e.switch == Some(true) && SupportedIn(rules, e.target) then true
        else On(rules, e.target)
  {
    var v, i := Step(rules, e), IndexOf(rules, e.target);
    if i < |rules| {
      OnAt(rules, i);
      UpdateKeepsInv(rules, e);
      OnAt(v, i);
    } else {
      forall r | r in rules ensures r.id != e.target {
        var k :| 0 <= k < |rules| && rules[k] == r;
      }
    }
  }

  /** What leaves imported rules alone leaves their switches alone. */
  lemma SameSwitch(rules: seq<Rule>, v: seq<Rule>, id: RuleId)
    requires id.Imported? && forall r: Rule :: r.origin == FromSubscription ==> (r in v <==> r in rules)
    ensures On(v, id) <==> On(rules, id)
  {
  }

  lemma RemovedOthers(rules: seq<Rule>, i: nat, r: Rule)
    requires i < |rules|
    ensures r in Removed(rules, i) ==> r in rules
    ensures r in rules && r != rules[i] ==> r in Removed(rules, i)
  {
    if r in rules && r != rules[i] {
      var k :| 0 <= k < |rules| && rules[k] == r;
      assert Removed(rules, i)[if k < i then k else k - 1] == r;
    }
  }

  lemma NumberedOthers(rules: seq<Rule>, order: seq<nat>, r: Rule)
    requires SortsManual(rules, order) && r.origin == FromSubscription
    ensures r in Numbered(rules, order) <==> r in rules
  {
    var v := Numbered(rules, order);
    RoutingOrder.NumberedFacts(rules, order);
    if r in rules {
      var k: nat :| k < |rules| && rules[k] == r;
      assert k !in order && v[k] == r;
    }
    if r in v {
      var k: nat :| k < |v| && v[k] == r;
      assert v[k].(position := 0) == rules[k].(position := 0);
      assert rules[k].origin == FromSubscription && k !in order;
    }
  }

  lemma ReorderOthers(rules: seq<Rule>, ids: seq<RuleId>, r: Rule)
    requires r.origin == FromSubscription
    ensures r in Reordered(rules, ids).0 <==> r in rules
  {
    var v, good := Reordered(rules, ids).0, ids[..FirstBad(rules, ids, 0)];
    if v != rules {
      RoutingOrder.GoodPrefix(rules, ids, |good|);
      RoutingOrder.PlacedFacts(rules, good);
      TakeAll(ids);
      assert v == PlacedAll(rules, good);
      if r in rules {
        var k :| 0 <= k < |rules| && rules[k] == r;
        assert v[k] == r;
      }
      if r in v {
        var k :| 0 <= k < |v| && v[k] == r;
        assert v[k].(position := 0) == rules[k].(position := 0);
      }
    }
  }

  lemma ManualSwitch(rules: seq<Rule>, e: Event, id: RuleId)
    requires id.Imported? && (e.CreateRule? || e.DeleteRule? || e.ReorderRules?)
    ensures On(Step(rules, e), id) <==> On(rules, id)
  {
    var v := Step(rules, e);
    forall r: Rule | r.origin == FromSubscription ensures r in v <==> r in rules {
      match e
      case CreateRule(_, _, _, _, _) =>
      case DeleteRule(target, order) =>
        if Deletes(rules, target, order) {
          RemovedOthers(rules, IndexOf(rules, target), r);
          NumberedOthers(Removed(rules, IndexOf(rules, target)), order, r);
        }
      case ReorderRules(ids) => ReorderOthers(rules, ids, r);
    }
    SameSwitch(rules, v, id);
  }

  /** On every run an imported rule is there and on exactly when the events leave it on. */
  lemma {:induction false} SwitchesFollowTheEvents(events: seq<Event>, id: RuleId)
    requires id.Imported?
    ensures On(Run(events), id) <==> IsOn(events, id)
    decreases |events|
  {
    if events != [] {
      var rest, e := events[..|events| - 1], events[|events| - 1];
      var rules := Run(rest);
      SwitchesFollowTheEvents(rest, id);
      RunKeepsInv(rest);
      match e
      case UpdateRule(target, _, _) =>
        if target == id {
          UpdateSwitch(rules, e);
          OffersExactly(rest, id);
        } else {
          UpdateOther(rules, e, id);
        }
      case Sync(sub, name, imported) => SyncSwitch(rules, sub, name, imported, id);
      case DropSub(sub) => DropSwitch(rules, sub, id);
      case _ => ManualSwitch(rules, e, id);
    }
  }

  // ----- order

  /** The rules that a sync or a deletion leaves keep their order: a longer list only adds at the end. */
  lemma {:induction false} KeptInOrder(rules: seq<Rule>, sub: string, i: nat)
    requires i <= |rules|
    ensures Kept(rules[..i], sub) <= Kept(rules, sub)
    ensures multiset(Kept(rules, sub)) <= multiset(rules)
    decreases |rules|
  {
    if rules == [] {
      assert rules[..i] == [];
    } else {
      var rest, last := rules[..|rules| - 1], rules[|rules| - 1];
      KeptInOrder(rest, sub, if i == |rules| then |rest| else i);
      SplitLast(rules);
      if i == |rules| {
        TakeAll(rules);
      } else {
        assert rest[..i] == rules[..i];
      }
    }
  }

  // ----- the user's own rules

  ghost predicate AllBelow(rules: seq<Rule>, p: int) {
    forall r :: r in rules && r.origin == Manual ==> r.position < p
  }

  lemma {:induction false} NextIsLowest(rules: seq<Rule>)
    ensures NextPosition(rules) >= 0 && AllBelow(rules, NextPosition(rules))
    ensures NextPosition(rules) > 0 ==>
      exists r :: r in rules && r.origin == Manual && r.position == NextPosition(rules) - 1
    decreases |rules|
  {
    if rules != [] {
      var rest, last := rules[..|rules| - 1], rules[|rules| - 1];
      SplitLast(rules);
      NextIsLowest(rest);
      if !(last.origin == Manual && last.position >= NextPosition(rest)) && NextPosition(rest) > 0 {
        var r :| r in rest && r.origin == Manual && r.position == NextPosition(rest) - 1;
        assert r in rules;
      }
    }
  }

  /**
   A created rule stands as it was given behind all others, at the lowest position from 0 on that is above every
   manual one.
   */
  lemma CreatedIsLast(rules: seq<Rule>, id: RuleId, name: string, enabled: bool, conditions: seq<Condition>,
      action: string)
    ensures
      var v := Created(rules, id, name, enabled, conditions, action);
      var r := v[|rules|];
      && |v| == |rules| + 1 && rules <= v
      && r.id == id && r.name == name && r.enabled == enabled && r.conditions == conditions && r.action == action
      && r.origin == Manual && r.supported && r.subscription == "" && r.source == ""
      && r.position >= 0 && AllBelow(rules, r.position)
      && forall p: nat :: AllBelow(rules, p) ==> r.position <= p
  {
    NextIsLowest(rules);
    var next := NextPosition(rules);
    forall p: nat | AllBelow(rules, p) ensures next <= p {
      if next > 0 {
        var r :| r in rules && r.origin == Manual && r.position == next - 1;
        assert r.position < p;
      }
    }
  }

  ghost predicate HasId(rules: seq<Rule>, id: RuleId) {
    exists r :: r in rules && r.id == id
  }

  /** Whether a user may change this rule so. */
  ghost predicate Permits(r: Rule, edit: Option<Edit>, enabled: Option<bool>) {
    if r.origin == Manual then edit.Some? ==> edit.value.valid
    else edit.None? && (enabled == Some(true) ==> r.supported)
  }

  /** A change goes through exactly if the rule permits it, and then it reaches what it names and no more. */
  lemma UpdateExactly(rules: seq<Rule>, i: nat, edit: Option<Edit>, enabled: Option<bool>)
    requires DistinctRuleIds(rules) && i < |rules|
    ensures
      var u, r := Updated(rules, rules[i].id, edit, enabled), rules[i];
      && (u.Ok? <==> Permits(r, edit, enabled))
      && (u.Err? ==>
            u.error == if r.origin == Manual then Invalid else if edit.Some? then OnlyToggle else Unsupported)
      && (u.Ok? ==>
        && |u.value| == |rules| && (forall k :: 0 <= k < |rules| && k != i ==> u.value[k] == rules[k])
        && var v := u.value[i];
          && v.name == (if edit.Some? then edit.value.name else r.name)
          && v.conditions == (if edit.Some? then edit.value.conditions else r.conditions)
          && v.action == (if edit.Some? then edit.value.action else r.action)
          && v.enabled == (if enabled.Some? then enabled.value else r.enabled)
          && v == r.(name := v.name, conditions := v.conditions, action := v.action, enabled := v.enabled))
  {
    var k := IndexOf(rules, rules[i].id);
    assert k == i;
  }

  lemma UnknownUpdateExactly(rules: seq<Rule>, id: RuleId, edit: Option<Edit>, enabled: Option<bool>)
    ensures Updated(rules, id, edit, enabled) == Err(NotFound) <==> !HasId(rules, id)
  {
    var i := IndexOf(rules, id);
    if i < |rules| {
      assert rules[i] in rules;
    }
  }
}
