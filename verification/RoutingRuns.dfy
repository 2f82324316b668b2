/**
 What a sync does to the rules, and what holds of them on every run.
 */
module RoutingRuns {
  import opened Common
  import opened RoutingRules
  import RoutingOrder

  // ----- the other rules

  lemma {:induction false} KeptAre(rules: seq<Rule>, sub: string, r: Rule)
    ensures r in Kept(rules, sub) <==> r in rules && !IsOf(r, sub)
    decreases |rules|
  {
    if rules != [] {
      KeptAre(rules[..|rules| - 1], sub, r);
      SplitLast(rules);
    }
  }

  lemma {:induction false} KeptOfOwn(rules: seq<Rule>, own: seq<Rule>, sub: string)
    requires forall r :: r in own ==> IsOf(r, sub)
    ensures Kept(rules + own, sub) == Kept(rules, sub)
    decreases |own|
  {
    if own == [] {
      assert rules + own == rules;
    } else {
      var rest, last := own[..|own| - 1], own[|own| - 1];
      SplitLast(own);
      KeptOfOwn(rules, rest, sub);
      KeptMore(rules + rest, last, sub);
      assert rules + own == rules + rest + [last];
    }
  }

  lemma {:induction false} KeptTwice(rules: seq<Rule>, sub: string)
    ensures Kept(Kept(rules, sub), sub) == Kept(rules, sub)
    decreases |rules|
  {
    if rules != [] {
      var rest, last := rules[..|rules| - 1], rules[|rules| - 1];
      KeptTwice(rest, sub);
      KeptMore(Kept(rest, sub), last, sub);
    }
  }

  lemma NewRulesAreOwn(rules: seq<Rule>, sub: string, name: string, imported: seq<ImportedRule>)
    ensures forall r :: r in NewRules(rules, sub, name, imported) ==> IsOf(r, sub)
  {
  }

  /** All other rules stay as they were, in their order, whatever is synced. */
  lemma SyncLeavesOthersAlone(rules: seq<Rule>, sub: string, name: string, imported: seq<ImportedRule>)
    ensures Kept(Synced(rules, sub, name, imported), sub) == Kept(rules, sub) <= Synced(rules, sub, name, imported)
    ensures forall r :: !IsOf(r, sub) ==> (r in Synced(rules, sub, name, imported) <==> r in rules)
  {
    var fromImport := NewRules(rules, sub, name, imported);
    NewRulesAreOwn(rules, sub, name, imported);
    KeptOfOwn(Kept(rules, sub), fromImport, sub);
    KeptTwice(rules, sub);
    forall r | !IsOf(r, sub) ensures r in Synced(rules, sub, name, imported) <==> r in rules {
      KeptAre(rules, sub, r);
    }
  }

  // ----- ids

  ghost predicate DistinctRuleIds(rules: seq<Rule>) {
    forall i, j :: 0 <= i < j < |rules| ==> rules[i].id != rules[j].id
  }

  lemma IdsMore(rules: seq<Rule>, r: Rule)
    ensures DistinctRuleIds(rules + [r]) <==> DistinctRuleIds(rules) && forall x :: x in rules ==> x.id != r.id
  {
    var all := rules + [r];
    if DistinctRuleIds(all) {
      forall i, j | 0 <= i < j < |rules| ensures rules[i].id != rules[j].id {
        assert all[i] == rules[i] && all[j] == rules[j];
      }
      forall i | 0 <= i < |rules| ensures rules[i].id != r.id {
        assert all[i] == rules[i] && all[|rules|] == r;
      }
    }
  }

  lemma {:induction false} KeptIdsAreDistinct(rules: seq<Rule>, sub: string)
    requires DistinctRuleIds(rules)
    ensures DistinctRuleIds(Kept(rules, sub))
    decreases |rules|
  {
    if rules != [] {
      var rest, last := rules[..|rules| - 1], rules[|rules| - 1];
      SplitLast(rules);
      IdsMore(rest, last);
      KeptIdsAreDistinct(rest, sub);
      forall x | x in Kept(rest, sub) ensures x.id != last.id {
        KeptAre(rest, sub, x);
      }
      IdsMore(Kept(rest, sub), last);
    }
  }

  lemma {:induction false} CountGrows(imported: seq<ImportedRule>, i: nat, j: nat, source: string)
    requires i <= j <= |imported|
    ensures Count(imported[..i], source) <= Count(imported[..j], source)
    decreases j
  {
    if i < j {
      CountGrows(imported, i, j - 1, source);
      TakeOneMore(imported, j - 1);
      CountMore(imported[..j - 1], imported[j - 1], source);
    }
  }

  /** Repeated sources are told apart by how often they occurred before. */
  lemma ImportedIdsDiffer(sub: string, imported: seq<ImportedRule>, i: nat, j: nat)
    requires i < j < |imported|
    ensures IdAt(sub, imported, i) != IdAt(sub, imported, j)
  {
    var source := imported[i].source;
    if imported[j].source == source {
      CountGrows(imported, i + 1, j, source);
      TakeOneMore(imported, i);
      CountMore(imported[..i], imported[i], source);
    }
  }

  lemma ConcatIds(a: seq<Rule>, b: seq<Rule>)
    requires DistinctRuleIds(a) && DistinctRuleIds(b)
    requires forall x, y :: x in a && y in b ==> x.id != y.id
    ensures DistinctRuleIds(a + b)
  {
    forall i, j | 0 <= i < j < |a + b| ensures (a + b)[i].id != (a + b)[j].id {
      if i < |a| <= j {
        assert a[i] in a && b[j - |a|] in b;
      }
    }
  }

  /** A rule is called after what it is: a random id, or its subscription and source. */
  predicate WellNamed(r: Rule) {
    if r.origin == Manual then r.id.Random?
    else r.id.Imported? && r.id.subscription == r.subscription && r.id.source == r.source
  }

  /** Distinct ids and true names, and nothing unsupported is enabled. */
  ghost predicate Inv(rules: seq<Rule>) {
    DistinctRuleIds(rules) && forall r :: r in rules ==> RuleOk(r)
  }

  predicate RuleOk(r: Rule) {
    WellNamed(r) && (r.enabled ==> r.supported) && (r.origin == Manual ==> r.supported)
  }

  lemma SyncKeepsInv(rules: seq<Rule>, sub: string, name: string, imported: seq<ImportedRule>)
    requires Inv(rules)
    ensures Inv(Synced(rules, sub, name, imported))
  {
    var kept, fromImport := Kept(rules, sub), NewRules(rules, sub, name, imported);
    KeptIdsAreDistinct(rules, sub);
    forall i, j | 0 <= i < j < |fromImport| ensures fromImport[i].id != fromImport[j].id {
      ImportedIdsDiffer(sub, imported, i, j);
    }
    forall x | x in kept ensures RuleOk(x) && !IsOf(x, sub) {
      KeptAre(rules, sub, x);
    }
    forall y | y in fromImport ensures RuleOk(y) && y.id.Imported? && y.id.subscription == sub {
      var i :| 0 <= i < |imported| && y == RuleAt(rules, sub, name, imported, i);
    }
    ConcatIds(kept, fromImport);
  }

  // ----- the enable switch

  lemma {:induction false} ExistingFacts(rules: seq<Rule>, sub: string, id: RuleId)
    ensures
      var x := Existing(rules, sub, id);
      && (x.Some? <==> exists k :: 0 <= k < |rules| && IsOf(rules[k], sub) && rules[k].id == id)
      && (x.Some? ==> x.value in rules && IsOf(x.value, sub) && x.value.id == id)
    decreases |rules|
  {
    if rules != [] {
      var rest, last := rules[..|rules| - 1], rules[|rules| - 1];
      ExistingFacts(rest, sub, id);
      SplitLast(rules);
      if Existing(rules, sub, id).Some? {
        if IsOf(last, sub) && last.id == id {
          assert rules[|rest|] == last;
        } else {
          var k :| 0 <= k < |rest| && IsOf(rest[k], sub) && rest[k].id == id;
          assert rules[k] == rest[k];
        }
      } else {
        forall k | 0 <= k < |rules| ensures !(IsOf(rules[k], sub) && rules[k].id == id) {
          if k < |rest| {
            assert rest[k] == rules[k];
          }
        }
      }
    }
  }

  /** The same source and occurrence was there before, and switched on. */
  ghost predicate WasOn(rules: seq<Rule>, sub: string, id: RuleId) {
    exists k :: 0 <= k < |rules| && IsOf(rules[k], sub) && rules[k].id == id && rules[k].enabled
  }

  /** A synced rule is on exactly if it is supported and the same source and occurrence was on before. */
  lemma {:induction false} SwitchSurvivesExactly(rules: seq<Rule>, sub: string, name: string,
      imported: seq<ImportedRule>, i: nat)
    requires DistinctRuleIds(rules) && i < |imported|
    ensures
      var r := Synced(rules, sub, name, imported)[|Kept(rules, sub)| + i];
      && r.id == Imported(sub, imported[i].source, Count(imported[..i], imported[i].source)) && IsOf(r, sub)
      && (r.enabled <==> imported[i].supported && WasOn(rules, sub, r.id))
  {
    var id := IdAt(sub, imported, i);
    ExistingFacts(rules, sub, id);
    if WasOn(rules, sub, id) {
      var k :| 0 <= k < |rules| && IsOf(rules[k], sub) && rules[k].id == id && rules[k].enabled;
      var x := Existing(rules, sub, id).value;
      var m :| 0 <= m < |rules| && rules[m] == x;
      assert m == k;
    }
  }

  // ----- syncing twice

  lemma {:induction false} ExistingAmongOwn(rules: seq<Rule>, own: seq<Rule>, sub: string, i: nat)
    requires i < |own| && IsOf(own[i], sub)
    requires forall j :: i < j < |own| ==> own[j].id != own[i].id
    ensures Existing(rules + own, sub, own[i].id) == Some(own[i])
    decreases |own|
  {
    var rest, last := own[..|own| - 1], own[|own| - 1];
    SplitLast(own);
    ExistingMore(rules + rest, last, sub, own[i].id);
    assert rules + own == rules + rest + [last];
    if i < |rest| {
      assert rest[i] == own[i];
      ExistingAmongOwn(rules, rest, sub, i);
    }
  }

  /** Syncing the same import again changes nothing. */
  lemma SyncTwiceIsOnce(rules: seq<Rule>, sub: string, name: string, imported: seq<ImportedRule>)
    ensures
      var once := Synced(rules, sub, name, imported);
      Synced(once, sub, name, imported) == once
  {
    var once, fromImport := Synced(rules, sub, name, imported), NewRules(rules, sub, name, imported);
    SyncLeavesOthersAlone(rules, sub, name, imported);
    forall i | 0 <= i < |imported| ensures RuleAt(once, sub, name, imported, i) == fromImport[i] {
      forall j | i < j < |imported| ensures fromImport[j].id != fromImport[i].id {
        ImportedIdsDiffer(sub, imported, i, j);
      }
      ExistingAmongOwn(Kept(rules, sub), fromImport, sub, i);
    }
    assert NewRules(once, sub, name, imported) == fromImport;
  }

  // ----- runs

  datatype Event =
    | CreateRule(id: string, name: string, enabled: bool, conditions: seq<Condition>, action: string)
    | UpdateRule(target: RuleId, edit: Option<Edit>, switch: Option<bool>)
    | DeleteRule(target: RuleId, order: seq<nat>)
    | Sync(sub: string, name: string, imported: seq<ImportedRule>)
    | DropSub(sub: string)
    | ReorderRules(ids: seq<RuleId>)

  /** The rule can be deleted, and this is a way to sort those that remain. */
  ghost predicate Deletes(rules: seq<Rule>, target: RuleId, order: seq<nat>) {
    CanDelete(rules, target) && SortsManual(Removed(rules, IndexOf(rules, target)), order)
  }

  /** An event whose write failed changes nothing and is not listed. A random id is one that is not in use. */
  ghost function Step(rules: seq<Rule>, e: Event): seq<Rule> {
    match e
    case CreateRule(id, name, enabled, conditions, action) =>
      if IndexOf(rules, Random(id)) < |rules| then rules
          else Created(rules, Random(id), name, enabled, conditions, action)
    case UpdateRule(target, edit, switch) =>
      if Updated(rules, target, edit, switch).Ok? then Updated(rules, target, edit, switch).value else rules
    case DeleteRule(target, order) => if Deletes(rules, target, order) then Deleted(rules, target, order).value
        else rules
    case Sync(sub, name, imported) => Synced(rules, sub, name, imported)
    case DropSub(sub) => Kept(rules, sub)
    case ReorderRules(ids) => Reordered(rules, ids).0
  }

  ghost function Run(events: seq<Event>): seq<Rule>
    decreases |events|
  {
    if events == [] then [] else Step(Run(events[..|events| - 1]), events[|events| - 1])
  }

  lemma CreateKeepsInv(rules: seq<Rule>, e: Event)
    requires Inv(rules) && e.CreateRule?
    ensures Inv(Step(rules, e))
  {
    if IndexOf(rules, Random(e.id)) == |rules| {
      var v := Step(rules, e);
      IdsMore(rules, v[|rules|]);
      forall r | r in v ensures RuleOk(r) {
        assert r in rules || r == v[|rules|];
      }
    }
  }

  lemma UpdateKeepsInv(rules: seq<Rule>, e: Event)
    requires Inv(rules) && e.UpdateRule?
    ensures Inv(Step(rules, e))
  {
    var v := Step(rules, e);
    if v != rules {
      var i := IndexOf(rules, e.target);
      assert RuleOk(rules[i]);
      assert RuleOk(Edited(rules[i], e.edit, e.switch));
      forall r | r in v ensures RuleOk(r) {
        var k :| 0 <= k < |v| && v[k] == r;
        assert k != i ==> r == rules[k];
      }
    }
  }

  lemma RemovedKeepsInv(rules: seq<Rule>, i: nat)
    requires Inv(rules) && i < |rules|
    ensures Inv(Removed(rules, i))
  {
    var v := Removed(rules, i);
    forall k | 0 <= k < |v| ensures v[k] == rules[if k < i then k else k + 1] {}
    forall r | r in v ensures RuleOk(r) {
      assert r in rules;
    }
  }

  lemma NumberedKeepsInv(rules: seq<Rule>, order: seq<nat>)
    requires Inv(rules) && Within(rules, order)
    ensures Inv(Numbered(rules, order))
  {
    var v := Numbered(rules, order);
    RoutingOrder.NumberedFacts(rules, order);
    forall k | 0 <= k < |v| ensures v[k].id == rules[k].id && RuleOk(v[k]) {
      assert v[k].(position := 0) == rules[k].(position := 0) && RuleOk(rules[k]);
    }
    forall r | r in v ensures RuleOk(r) {
      var k :| 0 <= k < |v| && v[k] == r;
    }
  }

  lemma DeleteKeepsInv(rules: seq<Rule>, e: Event)
    requires Inv(rules) && e.DeleteRule?
    ensures Inv(Step(rules, e))
  {
    if Deletes(rules, e.target, e.order) {
      RemovedKeepsInv(rules, IndexOf(rules, e.target));
      NumberedKeepsInv(Removed(rules, IndexOf(rules, e.target)), e.order);
    }
  }

  lemma DropKeepsInv(rules: seq<Rule>, sub: string)
    requires Inv(rules)
    ensures Inv(Kept(rules, sub))
  {
    KeptIdsAreDistinct(rules, sub);
    forall r | r in Kept(rules, sub) ensures RuleOk(r) {
      KeptAre(rules, sub, r);
    }
  }

  /** Also an order that is refused half way. */
  lemma ReorderKeepsInv(rules: seq<Rule>, ids: seq<RuleId>)
    requires Inv(rules)
    ensures Inv(Reordered(rules, ids).0)
  {
    var v, good := Reordered(rules, ids).0, ids[..FirstBad(rules, ids, 0)];
    if v != rules {
      RoutingOrder.GoodPrefix(rules, ids, |good|);
      RoutingOrder.PlacedFacts(rules, good);
      TakeAll(ids);
      assert v == PlacedAll(rules, good);
      forall r | r in v ensures RuleOk(r) {
        var i :| 0 <= i < |v| && v[i] == r;
        assert RuleOk(rules[i]);
      }
    }
  }

  lemma {:induction false} RunKeepsInv(events: seq<Event>)
    ensures Inv(Run(events))
    decreases |events|
  {
    if events != [] {
      var rest, e := events[..|events| - 1], events[|events| - 1];
      RunKeepsInv(rest);
      match e
      case CreateRule(_, _, _, _, _) => CreateKeepsInv(Run(rest), e);
      case UpdateRule(_, _, _) => UpdateKeepsInv(Run(rest), e);
      case DeleteRule(_, _) => DeleteKeepsInv(Run(rest), e);
      case Sync(sub, name, imported) => SyncKeepsInv(Run(rest), sub, name, imported);
      case DropSub(sub) => DropKeepsInv(Run(rest), sub);
      case ReorderRules(ids) => ReorderKeepsInv(Run(rest), ids);
    }
  }

  /** Compiled never meets an enabled rule that the core does not support, so it never fails for that reason. */
  lemma NothingUnsupportedIsEnabled(events: seq<Event>, r: Rule)
    requires r in Run(events) && r.enabled
    ensures r.supported
  {
    RunKeepsInv(events);
  }
}
